/** The queue of a `StreamThreadedBuffer`: the ring buffer's steps are those of the bounded FIFO queue
    that a buffer of module Pipelines has. */
module BufferQueues {
  import opened Options
  import opened Streams
  import opened Pipelines
  import CB = CircularBuffers

  /** The ring buffer `s` holds the queue of the buffer `t`. */
  ghost predicate HoldsQueue<D>(t: Node<D>, s: CB.State<Block<D>>) {
    CB.Inv(s) && t.kind == Buffered(s.maxcap) && t.queue == CB.Queue(s)
  }

  /** Every step of either thread on the ring buffer, whatever the interleaving, is a step of the
      buffer's queue or none: an element that enters is a block offered and accepted, a failed call
      finds that it is refused, and an element that leaves is the block that the buffer's thread, if it
      is back for the next one, takes. */
  lemma RingBufferIsQueue<D>(t: Node<D>, s: CB.State<Block<D>>, a: CB.Action<Block<D>>)
    requires HoldsQueue(t, s)
    ensures var (s', e) := CB.Step(s, a);
            match e
            case Enqueued(b) => Offer(t, b).Some? && HoldsQueue(Offer(t, b).value, s')
            case FoundFull => (forall b :: Offer(t, b).None?) && HoldsQueue(t, s')
            case Dequeued(b) => t.queue != [] && t.queue[0] == b && HoldsQueue(t.(queue := t.queue[1..]), s')
            case FoundEmpty => t.queue == [] && HoldsQueue(t, s')
            case Peeked(b) => t.queue != [] && t.queue[0] == b && HoldsQueue(t, s')
            case Quiet => HoldsQueue(t, s')
  {
    CB.StepRefines(s, a);
  }

  /** The block that leaves is the one with which the thread's next step enters the processing. */
  lemma DequeueIsTake<D>(t: Node<D>, s: CB.State<Block<D>>, a: CB.Action<Block<D>>)
    requires HoldsQueue(t, s) && t.act.Idle? && t.started && !t.sawEop && CB.Step(s, a).1.Dequeued?
    ensures var b, u := CB.Step(s, a).1.v, LocalStep(t);
            && HoldsQueue(u, CB.Step(s, a).0)
            && u.act == Called(b) && u.received == t.received + [b] && u.sawEop == IsEop(b)
  {
    RingBufferIsQueue(t, s, a);
  }
}
