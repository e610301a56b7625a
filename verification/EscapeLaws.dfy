/** The tables of the escapes, character by character: what is written for each character, and what each
    escape reads as wherever it stands. */
module EscapeLaws {
  import opened Options
  import opened Sequences
  import opened Escapes

  // ---------------------------------------------------------------------------------------------
  // Writing

  lemma {:induction false} EscapedAppend(a: string, b: string)
    ensures Escaped(a + b) == Escaped(a) + Escaped(b)
  {
    if a == [] {
      assert a + b == b;
    } else {
      EscapedAppend(a[1..], b);
      assert (a + b)[1..] == a[1..] + b;
      Associative(Escape(a[0]), Escaped(a[1..]), Escaped(b));
    }
  }

  lemma EscapeIs(c: char)
    ensures Escape(c) ==
            if c == '\U{8}' then "\\b"
            else if c == '\t' then "\\t"
            else if c == '\n' then "\\n"
            else if c == '\U{C}' then "\\f"
            else if c == '\r' then "\\r"
            else if c == '"' then "\\\""
            else if c == '\\' then "\\\\"
            else [c]
  {
    var at := Find(ESCAPED_CHARS, c);
    if at < 7 { assert c == ESCAPED_CHARS[at]; }
    assert forall i, j :: 0 <= i < j < 7 ==> ESCAPED_CHARS[i] != ESCAPED_CHARS[j];
    assert forall i :: 0 <= i < 7 && c == ESCAPED_CHARS[i] ==> at == i;
    assert ESCAPED_CHARS[0] == '\U{8}' && ESCAPED_CHARS[1] == '\t' && ESCAPED_CHARS[2] == '\n'
        && ESCAPED_CHARS[3] == '\U{C}' && ESCAPED_CHARS[4] == '\r' && ESCAPED_CHARS[5] == '"'
        && ESCAPED_CHARS[6] == '\\';
  }

  /** Backspace, tab, newline, form feed, carriage return, quote and backslash are written as a backslash and
      b, t, n, f, r, quote and backslash, wherever they stand; every other character stays. */
  lemma EscapedAt(pre: string, c: char, post: string)
    ensures Escaped([]) == []
    ensures Escaped(pre + [c] + post) == Escaped(pre) + (
            if c == '\U{8}' then "\\b"
            else if c == '\t' then "\\t"
            else if c == '\n' then "\\n"
            else if c == '\U{C}' then "\\f"
            else if c == '\r' then "\\r"
            else if c == '"' then "\\\""
            else if c == '\\' then "\\\\"
            else [c]) + Escaped(post)
  {
    EscapeIs(c);
    EscapedAppend(pre + [c], post);
    EscapedAppend(pre, [c]);
    assert [c][1..] == [];
    assert Escaped([c]) == Escape(c);
  }

  // ---------------------------------------------------------------------------------------------
  // Reading

  lemma {:induction false} UnescapedAfter(pre: string, rest: string)
    requires '\\' !in pre
    ensures Unescaped(pre + rest) == Prepend(pre, Unescaped(rest))
  {
    if pre == [] {
      assert pre + rest == rest;
      PrependNothing(Unescaped(rest));
    } else {
      assert pre[0] in pre;
      UnescapedAfter(pre[1..], rest);
      UnescapedFirst(pre[0], pre[1..], rest);
      assert pre == [pre[0]] + pre[1..];
      PrependTwice([pre[0]], pre[1..], Unescaped(rest));
    }
  }

  lemma UnescapedFirst(c: char, pre: string, rest: string)
    requires c != '\\'
    ensures Unescaped([c] + pre + rest) == Prepend([c], Unescaped(pre + rest))
  {
    assert ([c] + pre + rest)[0] == c && ([c] + pre + rest)[1..] == pre + rest;
  }

  lemma CodeIs(x: char)
    ensures var at := Find(ESCAPED_CHARS_CODE, x);
            && (at < 7 <==> x in "btnfr\"\\")
            && (x == 'b' ==> at < 7 && ESCAPED_CHARS[at] == '\U{8}')
            && (x == 't' ==> at < 7 && ESCAPED_CHARS[at] == '\t')
            && (x == 'n' ==> at < 7 && ESCAPED_CHARS[at] == '\n')
            && (x == 'f' ==> at < 7 && ESCAPED_CHARS[at] == '\U{C}')
            && (x == 'r' ==> at < 7 && ESCAPED_CHARS[at] == '\r')
            && (x == '"' ==> at < 7 && ESCAPED_CHARS[at] == '"')
            && (x == '\\' ==> at < 7 && ESCAPED_CHARS[at] == '\\')
  {
    var at := Find(ESCAPED_CHARS_CODE, x);
    assert ESCAPED_CHARS_CODE[0] == 'b' && ESCAPED_CHARS_CODE[1] == 't' && ESCAPED_CHARS_CODE[2] == 'n'
        && ESCAPED_CHARS_CODE[3] == 'f' && ESCAPED_CHARS_CODE[4] == 'r' && ESCAPED_CHARS_CODE[5] == '"'
        && ESCAPED_CHARS_CODE[6] == '\\';
    assert forall i, j :: 0 <= i < j < 7 ==> ESCAPED_CHARS_CODE[i] != ESCAPED_CHARS_CODE[j];
    assert forall i :: 0 <= i < 7 && x == ESCAPED_CHARS_CODE[i] ==> at == i;
  }

  /** What an escape that reads as `text` makes of the text around it. */
  lemma EscapeRead(pre: string, escape: string, text: string, rest: string)
    requires '\\' !in pre && |escape| >= 2 && escape[0] == '\\'
    requires Unescape(escape + rest) == Some((text, |escape|))
    ensures Unescaped(pre + escape + rest)
         == match Unescaped(rest) { case None => None case Some(t) => Some(pre + text + t) }
  {
    assert (escape + rest)[|escape|..] == rest;
    UnescapedAfter(pre, escape + rest);
    Associative(pre, escape, rest);
    if Unescaped(rest).Some? { Associative(pre, text, Unescaped(rest).value); }
  }

  lemma EscapeFails(pre: string, tail: string)
    requires '\\' !in pre && tail != [] && tail[0] == '\\' && Unescape(tail) == None
    ensures Unescaped(pre + tail) == None
  {
    UnescapedAfter(pre, tail);
  }

  /** A backslash and b, t, n, f, r, quote, backslash or 0 read as backspace, tab, newline, form feed, carriage
      return, quote, backslash or the zero byte. */
  lemma LetterRead(pre: string, x: char, c: char, rest: string)
    requires '\\' !in pre
    requires || (x == 'b' && c == '\U{8}') || (x == 't' && c == '\t') || (x == 'n' && c == '\n')
             || (x == 'f' && c == '\U{C}') || (x == 'r' && c == '\r') || (x == '"' && c == '"')
             || (x == '\\' && c == '\\') || (x == '0' && c == '\0')
    ensures Unescaped(pre + ['\\', x] + rest)
         == match Unescaped(rest) { case None => None case Some(t) => Some(pre + [c] + t) }
  {
    CodeIs(x);
    assert (['\\', x] + rest)[1] == x;
    EscapeRead(pre, ['\\', x], [c], rest);
  }

  /** A backslash at the end, or before any other character than those and u and U, makes the reading fail. */
  lemma OtherFails(pre: string, x: char, rest: string)
    requires '\\' !in pre
    ensures Unescaped(pre + ['\\']) == None
    ensures x !in "btnfr\"\\0uU" ==> Unescaped(pre + ['\\', x] + rest) == None
  {
    EscapeFails(pre, ['\\']);
    if x !in "btnfr\"\\0uU" {
      CodeIs(x);
      NoCode(x);
      assert (['\\', x] + rest)[1] == x;
      EscapeFails(pre, ['\\', x] + rest);
      Associative(pre, ['\\', x], rest);
    }
  }

  lemma NoCode(x: char)
    requires x !in "btnfr\"\\0uU"
    ensures x !in "btnfr\"\\" && x != 'u' && x != 'U' && x != '0'
  {
    var all, codes := "btnfr\"\\0uU", "btnfr\"\\";
    assert all[7] == '0' && all[8] == 'u' && all[9] == 'U';
    assert forall i :: 0 <= i < 7 ==> codes[i] == all[i];
  }

  // ---------------------------------------------------------------------------------------------
  // Hexadecimal digits

  /** The value of each hexadecimal digit, small or capital. */
  lemma DigitIs(c: char, v: nat)
    requires v < 16 && (c == "0123456789abcdef"[v] || c == "0123456789ABCDEF"[v])
    ensures HexConvert(c) == v
  {
  }

  lemma OneOfTheDigits(c: char)
    requires HexConvert(c) >= 0
    ensures c in "0123456789abcdef" || c in "0123456789ABCDEF"
  {
    if c <= '9' {
      assert c == "0123456789abcdef"[c as int - '0' as int];
    } else if c <= 'F' {
      assert c == "0123456789ABCDEF"[c as int - 'A' as int + 10];
    } else {
      assert c == "0123456789abcdef"[c as int - 'a' as int + 10];
    }
  }

  /** No other character is a digit. */
  lemma NotADigit(c: char)
    requires c !in "0123456789abcdef" && c !in "0123456789ABCDEF"
    ensures HexConvert(c) == -1
  {
    if HexConvert(c) >= 0 { OneOfTheDigits(c); }
  }

  lemma ValueMore(s: string, c: char)
    requires HexDigits(s) && HexConvert(c) >= 0
    ensures HexDigits(s + [c]) && HexValue(s + [c]) == 16 * HexValue(s) + HexConvert(c)
  {
    assert (s + [c])[..|s|] == s;
  }

  /** `d` are hexadecimal digits of the values `v`. */
  predicate DigitsOf(d: string, v: seq<nat>) {
    && |d| == |v|
    && forall i :: 0 <= i < |d| ==> v[i] < 16 && (d[i] == "0123456789abcdef"[v[i]] || d[i] == "0123456789ABCDEF"[v[i]])
  }

  lemma DigitsAre(d: string, v: seq<nat>)
    requires DigitsOf(d, v)
    ensures HexDigits(d) && forall i :: 0 <= i < |d| ==> HexConvert(d[i]) == v[i]
  {
    forall i | 0 <= i < |d| ensures HexConvert(d[i]) == v[i] { DigitIs(d[i], v[i]); }
  }

  lemma TwoDigits(s: string, a: char, b: char)
    requires HexDigits(s) && HexConvert(a) >= 0 && HexConvert(b) >= 0
    ensures HexDigits(s + [a, b]) && HexValue(s + [a, b]) == 0x100 * HexValue(s) + 0x10 * HexConvert(a) + HexConvert(b)
  {
    ValueMore(s, a);
    ValueMore(s + [a], b);
    assert (s + [a]) + [b] == s + [a, b];
  }

  lemma FourDigits(d: string)
    requires HexDigits(d) && |d| == 4
    ensures HexValue(d) == 0x1000 * HexConvert(d[0]) + 0x100 * HexConvert(d[1])
                           + 0x10 * HexConvert(d[2]) + HexConvert(d[3])
  {
    TwoDigits([], d[0], d[1]);
    TwoDigits([] + [d[0], d[1]], d[2], d[3]);
    assert d == ([] + [d[0], d[1]]) + [d[2], d[3]];
  }

  lemma ValueOf4(d: string, v: seq<nat>)
    requires DigitsOf(d, v) && |d| == 4
    ensures HexDigits(d) && HexValue(d) == 0x1000 * v[0] + 0x100 * v[1] + 0x10 * v[2] + v[3]
  {
    DigitsAre(d, v);
    FourDigits(d);
  }

  lemma {:induction false} ValueAppend(a: string, b: string)
    requires HexDigits(a) && HexDigits(b)
    ensures HexDigits(a + b) && HexValue(a + b) == HexValue(a) * Power16(|b|) + HexValue(b)
    decreases |b|
  {
    if b == [] {
      assert a + b == a;
    } else {
      var front, c := b[..|b| - 1], b[|b| - 1];
      ValueAppend(a, front);
      ValueMore(a + front, c);
      assert (a + front) + [c] == a + b;
      Shifted(HexValue(a), Power16(|front|), HexValue(front));
    }
  }

  lemma Shifted(x: nat, p: nat, y: nat)
    ensures 16 * (x * p + y) == x * (16 * p) + 16 * y
  {
  }

  lemma EightDigits(d: string)
    requires HexDigits(d) && |d| == 8
    ensures HexDigits(d[..4]) && HexDigits(d[4..]) && HexValue(d) == 0x1_0000 * HexValue(d[..4]) + HexValue(d[4..])
  {
    ValueAppend(d[..4], d[4..]);
    assert d == d[..4] + d[4..];
    assert Power16(4) == 0x1_0000;
  }

  lemma HalfDigits(d: string, v: seq<nat>)
    requires DigitsOf(d, v) && |d| == 8
    ensures DigitsOf(d[..4], v[..4]) && DigitsOf(d[4..], v[4..])
  {
  }

  lemma ValueOf8(d: string, v: seq<nat>)
    requires DigitsOf(d, v) && |d| == 8
    ensures HexDigits(d)
    ensures HexValue(d) == 0x1_0000 * (0x1000 * v[0] + 0x100 * v[1] + 0x10 * v[2] + v[3])
                           + (0x1000 * v[4] + 0x100 * v[5] + 0x10 * v[6] + v[7])
  {
    DigitsAre(d, v);
    EightDigits(d);
    HalfDigits(d, v);
    ValueOf4(d[..4], v[..4]);
    ValueOf4(d[4..], v[4..]);
  }

  /** The code point of an escape stands for its UTF-8 sequence, which a surrogate does not have. */
  lemma CodeRead(pre: string, escape: string, code: nat, rest: string)
    requires '\\' !in pre && |escape| >= 2 && escape[0] == '\\'
    requires Unescape(escape + rest) == match Codepoint(code) { case None => None case Some(t) => Some((t, |escape|)) }
    ensures Unescaped(pre + escape + rest)
         == if 0xD800 <= code <= 0xDFFF then None
            else match Unescaped(rest) { case None => None case Some(t) => Some(pre + Codepoint(code).value + t) }
  {
    CodepointIsUtf8(code);
    if Codepoint(code) == None {
      EscapeFails(pre, escape + rest);
      Associative(pre, escape, rest);
    } else {
      EscapeRead(pre, escape, Codepoint(code).value, rest);
    }
  }

  lemma UnicodeEscape(d: string, rest: string, code: nat)
    requires |d| == 4 && HexDigits(d) && HexValue(d) == code
    ensures Unescape("\\u" + d + rest) == match Codepoint(code) { case None => None case Some(t) => Some((t, 6)) }
  {
    var s := "\\u" + d + rest;
    CodeIs('u');
    assert s[1] == 'u' && s[2..6] == d;
  }

  lemma LongUnicodeEscape(d: string, rest: string, code: nat)
    requires |d| == 8 && HexDigits(d) && HexValue(d) == code
    ensures Unescape("\\U" + d + rest) == match Codepoint(code) { case None => None case Some(t) => Some((t, 10)) }
  {
    var s := "\\U" + d + rest;
    CodeIs('U');
    assert s[1] == 'U' && s[2..10] == d;
  }

  /** \u and four digits, small or capital, read as the UTF-8 sequence of the number they denote. */
  lemma UnicodeRead(pre: string, d: string, v: seq<nat>, rest: string)
    requires '\\' !in pre && DigitsOf(d, v) && |d| == 4
    ensures var code := 0x1000 * v[0] + 0x100 * v[1] + 0x10 * v[2] + v[3];
            Unescaped(pre + ("\\u" + d) + rest)
            == if 0xD800 <= code <= 0xDFFF then None
               else match Unescaped(rest) { case None => None case Some(t) => Some(pre + Codepoint(code).value + t) }
  {
    ValueOf4(d, v);
    var code := 0x1000 * v[0] + 0x100 * v[1] + 0x10 * v[2] + v[3];
    UnicodeEscape(d, rest, code);
    CodeRead(pre, "\\u" + d, code, rest);
  }

  /** \U and eight digits likewise; a number beyond the last code point reads as nothing. */
  lemma LongUnicodeRead(pre: string, d: string, v: seq<nat>, rest: string)
    requires '\\' !in pre && DigitsOf(d, v) && |d| == 8
    ensures var code := 0x1_0000 * (0x1000 * v[0] + 0x100 * v[1] + 0x10 * v[2] + v[3])
                        + (0x1000 * v[4] + 0x100 * v[5] + 0x10 * v[6] + v[7]);
            Unescaped(pre + ("\\U" + d) + rest)
            == if 0xD800 <= code <= 0xDFFF then None
               else match Unescaped(rest) { case None => None case Some(t) => Some(pre + Codepoint(code).value + t) }
  {
    ValueOf8(d, v);
    var code := 0x1_0000 * (0x1000 * v[0] + 0x100 * v[1] + 0x10 * v[2] + v[3])
                + (0x1000 * v[4] + 0x100 * v[5] + 0x10 * v[6] + v[7]);
    LongUnicodeEscape(d, rest, code);
    CodeRead(pre, "\\U" + d, code, rest);
  }

  lemma NotAllDigits(rest: string, i: nat, n: nat)
    requires i < n <= |rest| && rest[i] !in "0123456789abcdef" && rest[i] !in "0123456789ABCDEF"
    ensures !HexDigits(rest[..n])
  {
    NotADigit(rest[i]);
    assert rest[..n][i] == rest[i];
  }

  lemma HexEscapeFails(s: string, rest: string, i: nat, n: nat)
    requires |s| == |rest| + 2 && s[2..] == rest && i < n
    requires i < |rest| ==> rest[i] !in "0123456789abcdef" && rest[i] !in "0123456789ABCDEF"
    ensures HexEscape(s, n) == None
  {
    if n <= |rest| {
      NotAllDigits(rest, i, n);
      assert s[2..n + 2] == rest[..n];
    }
  }

  lemma UnicodeEscapeFails(s: string, x: char, n: nat)
    requires |s| >= 2 && s[0] == '\\' && s[1] == x && (x == 'u' || x == 'U')
    requires n == (if x == 'u' then 4 else 8) && HexEscape(s, n) == None
    ensures Unescape(s) == None
  {
    CodeIs(x);
    NoCodeOf(x);
  }

  lemma NoCodeOf(x: char)
    requires x == 'u' || x == 'U'
    ensures x !in "btnfr\"\\"
  {
  }

  /** \u without four, or \U without eight, hexadecimal digits behind it makes the reading fail. */
  lemma UnicodeFails(pre: string, x: char, i: nat, rest: string)
    requires '\\' !in pre && (x == 'u' || x == 'U') && i < (if x == 'u' then 4 else 8)
    requires i < |rest| ==> rest[i] !in "0123456789abcdef" && rest[i] !in "0123456789ABCDEF"
    ensures Unescaped(pre + ['\\', x] + rest) == None
  {
    var s, n := ['\\', x] + rest, if x == 'u' then 4 else 8;
    HexEscapeFails(s, rest, i, n);
    UnicodeEscapeFails(s, x, n);
    EscapeFails(pre, s);
    Associative(pre, ['\\', x], rest);
  }
}
