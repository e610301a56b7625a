/** Machine words as natural numbers: the bitwise operators of C++ on `std::size_t`, written on
    binary digits so that they can be related to ordinary arithmetic. */
module Words {

  /** The digits of a `std::size_t`. */
  const WORD_BITS: nat := 64

  function Pow2(n: nat): (r: nat)
    ensures r >= 1
  {
    if n == 0 then 1 else 2 * Pow2(n - 1)
  }

  /** The number of values of a `std::size_t`; counters wrap modulo it. */
  const WORD: nat := 0x1_0000_0000_0000_0000

  predicate Bit(n: nat, j: nat) {
    if j == 0 then n % 2 == 1 else Bit(n / 2, j - 1)
  }

  function And(a: nat, b: nat): nat {
    if a == 0 || b == 0 then 0
    else (if a % 2 == 1 && b % 2 == 1 then 1 else 0) + 2 * And(a / 2, b / 2)
  }

  function Or(a: nat, b: nat): nat {
    if a == 0 then b
    else if b == 0 then a
    else (if a % 2 == 1 || b % 2 == 1 then 1 else 0) + 2 * Or(a / 2, b / 2)
  }

  function Shr(n: nat, s: nat): nat {
    if s == 0 then n else Shr(n / 2, s - 1)
  }

  lemma {:induction false} Pow2Mono(a: nat, b: nat)
    requires a <= b
    ensures Pow2(a) <= Pow2(b)
    decreases b
  {
    if a < b { Pow2Mono(a, b - 1); }
  }

  lemma WordIsPow2()
    ensures Pow2(WORD_BITS) == WORD
  {
    assert Pow2(4) == 16;
    Pow2Add(4, 4);
    assert Pow2(8) == 0x100;
    Pow2Add(8, 8);
    assert Pow2(16) == 0x1_0000;
    Pow2Add(16, 16);
    assert Pow2(32) == 0x1_0000_0000;
    Pow2Add(32, 32);
  }

  lemma {:induction false} Pow2Add(a: nat, b: nat)
    ensures Pow2(a + b) == Pow2(a) * Pow2(b)
  {
    if a > 0 {
      Pow2Add(a - 1, b);
      assert (2 * Pow2(a - 1)) * Pow2(b) == 2 * (Pow2(a - 1) * Pow2(b));
    }
  }

  lemma {:induction false} OrBit(a: nat, b: nat, j: nat)
    ensures Bit(Or(a, b), j) == (Bit(a, j) || Bit(b, j))
  {
    ZeroBit(j);
    if a != 0 && b != 0 && j > 0 { OrBit(a / 2, b / 2, j - 1); }
  }

  lemma {:induction false} ZeroBit(j: nat)
    ensures !Bit(0, j)
  {
    if j > 0 { ZeroBit(j - 1); }
  }

  lemma {:induction false} ShrBit(n: nat, s: nat, j: nat)
    ensures Bit(Shr(n, s), j) == Bit(n, j + s)
  {
    if s > 0 { ShrBit(n / 2, s - 1, j); }
  }

  lemma {:induction false} ShrBelow(n: nat, s: nat)
    ensures Shr(n, s) <= n
  {
    if s > 0 { ShrBelow(n / 2, s - 1); }
  }

  lemma {:induction false} OrBelow(a: nat, b: nat, k: nat)
    requires a < Pow2(k) && b < Pow2(k)
    ensures a <= Or(a, b) < Pow2(k)
  {
    if a != 0 && b != 0 { OrBelow(a / 2, b / 2, k - 1); }
  }

  /** A number below 2^k whose k low digits are all ones is 2^k - 1. */
  lemma {:induction false} AllOnes(n: nat, k: nat)
    requires n < Pow2(k)
    requires forall j: nat :: j < k ==> Bit(n, j)
    ensures n == Pow2(k) - 1
  {
    if k > 0 {
      forall j: nat | j < k - 1 ensures Bit(n / 2, j) { assert Bit(n, j + 1); }
      AllOnes(n / 2, k - 1);
      assert Bit(n, 0);
    }
  }

  /** The number of binary digits of `n`. */
  function Length(n: nat): (k: nat)
    ensures n < Pow2(k)
    ensures n > 0 ==> k > 0 && Pow2(k - 1) <= n && Bit(n, k - 1)
    ensures n == 0 ==> k == 0
  {
    if n == 0 then 0 else 1 + Length(n / 2)
  }

  /** Masking with 2^k - 1 is the remainder modulo 2^k. */
  lemma {:induction false} MaskIsMod(i: nat, k: nat)
    ensures And(i, Pow2(k) - 1) == i % Pow2(k)
  {
    if i != 0 && k > 0 {
      var m, p := Pow2(k) - 1, Pow2(k - 1);
      assert m / 2 == p - 1 && m % 2 == 1;
      MaskIsMod(i / 2, k - 1);
      LowDigit(i, p);
    }
  }

  lemma LowDigit(i: nat, p: nat)
    requires p > 0
    ensures i % (2 * p) == i % 2 + 2 * ((i / 2) % p)
  {
    var q, r := (i / 2) / p, (i / 2) % p;
    assert i / 2 == q * p + r;
    assert q * (2 * p) == 2 * (q * p);
    ModUnique(i % 2 + 2 * r, q, 2 * p, i);
  }

  lemma MulSign(d: int, n: nat)
    requires n > 0
    ensures d >= 1 ==> d * n >= n
    ensures d <= -1 ==> d * n + n <= 0
  {
    if d >= 1 { assert (d - 1) * n >= 0; }
    if d <= -1 { assert (-1 - d) * n >= 0; }
  }

  lemma ModUnique(r: int, q: int, n: nat, x: int)
    requires n > 0 && 0 <= r < n && x == q * n + r
    ensures x % n == r && x / n == q
  {
    var d := x / n - q;
    assert r - x % n == d * n;
    MulSign(d, n);
  }

  lemma MulAssoc(a: int, b: int, c: int)
    ensures a * (b * c) == (a * c) * b
  {
  }

  /** Remainders modulo n survive a wrap modulo a multiple of n. */
  lemma ModOfMod(x: nat, n: nat, c: nat, w: nat)
    requires n > 0 && w > 0 && w == n * c
    ensures (x % w) % n == x % n
  {
    var a := (x / w) * c;
    MulAssoc(x / w, n, c);
    MulSub(x / n, a, n);
    ModUnique(x % n, x / n - a, n, x % w);
  }

  lemma MulSub(a: int, b: int, n: int)
    ensures (a - b) * n == a * n - b * n
  {
  }

  /** A counter that wraps at the word size may wrap before or after it is added to. */
  lemma WrapAdd(n: nat, d: nat)
    ensures (n % WORD + d) % WORD == (n + d) % WORD
  {
    ModUnique((n + d) % WORD, (n + d) / WORD - n / WORD, WORD, n % WORD + d);
  }

  lemma RemainderPlusMultiple(a: nat, r: nat, n: nat)
    requires n > 0
    ensures (a * n + r) % n == r % n
  {
    ModUnique(r % n, a + r / n, n, a * n + r) by {
      assert (a + r / n) * n == a * n + (r / n) * n;
    }
  }

  /** Two indices less than n apart fall on different residues. */
  lemma ModDistinct(a: int, b: int, n: nat)
    requires n > 0 && a < b < a + n
    ensures a % n != b % n
  {
    var d := b / n - a / n;
    assert b - a == d * n + (b % n - a % n);
    MulSign(d, n);
  }

  /** `m` is 2^k - 1 for some k that a word can hold. */
  ghost predicate IsMask(m: nat) {
    exists k: nat :: k <= WORD_BITS && m == Pow2(k) - 1
  }

  /** A counter kept modulo the word size addresses, through a mask, the cell of the unbounded
      counter modulo the number of cells. */
  lemma WrappedIndex(i: nat, m: nat)
    requires IsMask(m)
    ensures And(i % WORD, m) == i % (m + 1)
  {
    var k: nat :| k <= WORD_BITS && m == Pow2(k) - 1;
    WordIsPow2();
    Pow2Add(k, WORD_BITS - k);
    MaskIsMod(i % WORD, k);
    ModOfMod(i, Pow2(k), Pow2(WORD_BITS - k), WORD);
  }

  /** The digits k-r .. k-1 of `n` are ones and nothing lies above them. */
  ghost predicate TopRun(n: nat, k: nat, r: nat) {
    && n < Pow2(k)
    && forall j: nat :: k <= j + r && j < k ==> Bit(n, j)
  }

  /** One `capacity |= capacity >> s` doubles a run of s leading ones. */
  lemma Smear(n: nat, k: nat, s: nat)
    requires TopRun(n, k, s)
    ensures TopRun(Or(n, Shr(n, s)), k, 2 * s) && n <= Or(n, Shr(n, s))
  {
    ShrBelow(n, s);
    OrBelow(n, Shr(n, s), k);
    forall j: nat | k <= j + 2 * s && j < k ensures Bit(Or(n, Shr(n, s)), j) {
      OrBit(n, Shr(n, s), j);
      ShrBit(n, s, j);
    }
  }

  /** `p` is the least power of two that is at least `n`. */
  ghost predicate LeastPow2AtLeast(p: nat, n: nat) {
    && (exists k: nat :: p == Pow2(k))
    && n <= p
    && forall k: nat :: n <= Pow2(k) ==> p <= Pow2(k)
  }

  /** One `capacity |= capacity >> s`. */
  method SmearBy(capacity: nat, s: nat, ghost k: nat) returns (smeared: nat)
    requires TopRun(capacity, k, s)
    ensures smeared == Or(capacity, Shr(capacity, s))
    ensures TopRun(smeared, k, 2 * s) && smeared >= capacity
  {
    Smear(capacity, k, s);
    smeared := Or(capacity, Shr(capacity, s));
  }

  /** The constructor's loop: shifts by 8, 16 and 32 digits. */
  method SmearRest(start: nat, ghost k: nat) returns (capacity: nat)
    requires TopRun(start, k, 8) && k <= WORD_BITS
    ensures capacity == Pow2(k) - 1 && capacity >= start
  {
    capacity := start;
    var i: nat := 1;
    while i < WORD_BITS / 8
      invariant i == 1 || i == 2 || i == 4 || i == 8
      invariant TopRun(capacity, k, 8 * i) && start <= capacity
      decreases 8 - i
    {
      capacity := SmearBy(capacity, 8 * i, k);
      i := 2 * i;
    }
    AllOnes(capacity, k);
  }

  /** The constructor's rounding of a capacity to a mask, with the wrap of `--capacity` and of
      `capacity++` written out. `cells` is the number of cells then allocated. */
  method RoundUpMask(maxcap: nat) returns (mask: nat, cells: nat)
    requires maxcap < WORD
    ensures maxcap >= 1 ==> LeastPow2AtLeast(mask + 1, maxcap)
    ensures maxcap == 0 ==> mask == WORD - 1
    ensures mask < WORD && cells == (mask + 1) % WORD
    ensures IsMask(mask)
  {
    var capacity: nat := if maxcap == 0 then WORD - 1 else maxcap - 1;
    ghost var n := capacity;
    ghost var k := Length(n);
    LengthOfWord(n);
    assert TopRun(n, k, 1);
    capacity := SmearBy(capacity, 1, k);
    capacity := SmearBy(capacity, 2, k);
    capacity := SmearBy(capacity, 4, k);
    capacity := SmearRest(capacity, k);
    assert IsMask(capacity);
    mask := capacity;
    cells := (capacity + 1) % WORD;
    if maxcap >= 1 { LeastIsLength(maxcap, k); }
  }

  lemma LengthOfWord(n: nat)
    requires n < WORD
    ensures Length(n) <= WORD_BITS && Pow2(Length(n)) <= WORD
  {
    WordIsPow2();
    LengthLeast(n, WORD_BITS);
    Pow2Mono(Length(n), WORD_BITS);
  }

  lemma {:induction false} LengthLeast(n: nat, j: nat)
    requires n < Pow2(j)
    ensures Length(n) <= j
  {
    if n > 0 { LengthLeast(n / 2, j - 1); }
  }

  lemma LeastIsLength(n: nat, k: nat)
    requires n >= 1 && k == Length(n - 1)
    ensures LeastPow2AtLeast(Pow2(k), n)
  {
    forall e: nat ensures n <= Pow2(e) ==> Pow2(k) <= Pow2(e) {
      if e < k { Pow2Mono(e, k - 1); } else { Pow2Mono(k, e); }
    }
  }
}
