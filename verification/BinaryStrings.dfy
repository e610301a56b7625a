/** The binary strings that ConfigBase writes for texts that do not print: their escapes, the loop that
    replaces quotes, and the way back. */
module BinaryStrings {
  import opened Options
  import opened Sequences
  import opened Escapes

  const LITERAL_QUOTE: char := '\''
  const BINARY_OPEN: string := "B\"("
  const BINARY_CLOSE: string := ")\""

  predicate Bytes(s: string) { forall i :: 0 <= i < |s| ==> s[i] as int < 256 }

  /** isprint in the C locale. */
  predicate IsPrint(c: char) { ' ' <= c <= '~' }

  predicate StartsWith(s: string, p: string) { |s| >= |p| && s[..|p|] == p }

  predicate EndsWith(s: string, p: string) { |s| >= |p| && s[|s| - |p|..] == p }

  // ---------------------------------------------------------------------------------------------
  // Binary strings

  function HexDigit(n: nat): (c: char)
    requires n < 16
    ensures HexConvert(c) == n && IsPrint(c) && c != LITERAL_QUOTE && c != BACKSLASH
  {
    "0123456789abcdef"[n]
  }

  /** std::hex, without leading zeros. */
  function HexOf(n: nat): string
    requires n < 256
  {
    if n < 16 then [HexDigit(n)] else [HexDigit(n / 16), HexDigit(n % 16)]
  }

  function BinaryChar(c: char): string {
    if IsPrint(c) then [c]
    else
      var code := HexOf(c as int % 256);
      "\\x" + (if |code| < 2 then "0" else "") + code
  }

  function BinaryChars(s: string): string {
    if s == [] then [] else BinaryChar(s[0]) + BinaryChars(s[1..])
  }

  /** One pass of the loop that replaces the quotes: it takes out as many characters as the quote's
      position is high, and one more. */
  function ReplaceQuote(e: string): string
    requires LITERAL_QUOTE in e
  {
    var at := Find(e, LITERAL_QUOTE);
    e[..at] + "\\x27" + if 2 * at + 1 <= |e| then e[2 * at + 1..] else []
  }

  lemma QuoteMovesOn(e: string)
    requires LITERAL_QUOTE in e
    ensures var r := ReplaceQuote(e); |r| - Find(r, LITERAL_QUOTE) < |e| - Find(e, LITERAL_QUOTE)
  {
    var r, at := ReplaceQuote(e), Find(e, LITERAL_QUOTE);
    forall i | 0 <= i < at + 4 ensures r[i] != LITERAL_QUOTE {
      if i >= at { assert r[i] == "\\x27"[i - at]; }
    }
    var q := Find(r, LITERAL_QUOTE);
    assert q >= at + 4;
  }

  function ReplaceQuotes(e: string): string
    decreases |e| - Find(e, LITERAL_QUOTE)
  {
    if LITERAL_QUOTE in e then
      QuoteMovesOn(e);
      ReplaceQuotes(ReplaceQuote(e))
    else e
  }

  /** binary_escape_string */
  function BinaryEscaped(s: string): string {
    var e := BinaryChars(s);
    if e != s then "'" + BINARY_OPEN + ReplaceQuotes(e) + BINARY_CLOSE + "'" else e
  }

  /** is_binary_escaped_string */
  predicate IsBinary(s: string) {
    || (StartsWith(s, BINARY_OPEN) && EndsWith(s, BINARY_CLOSE))
    || (StartsWith(s, "'" + BINARY_OPEN) && EndsWith(s, BINARY_CLOSE + "'"))
  }

  predicate HexEscapeAt(s: string, i: nat) {
    && i + 4 <= |s|
    && s[i] == BACKSLASH && (s[i + 1] == 'x' || s[i + 1] == 'X')
    && HexConvert(s[i + 2]) >= 0 && HexConvert(s[i + 3]) >= 0
  }

  function HexCharAt(s: string, i: nat): char
    requires HexEscapeAt(s, i)
  {
    (HexConvert(s[i + 2]) * 16 + HexConvert(s[i + 3])) as char
  }

  function Decoded(s: string): string {
    if s == [] then []
    else if HexEscapeAt(s, 0) then [HexCharAt(s, 0)] + Decoded(s[4..])
    else [s[0]] + Decoded(s[1..])
  }

  /** extract_binary_string */
  function Extracted(s: string): string {
    if StartsWith(s, BINARY_OPEN) && EndsWith(s, BINARY_CLOSE) && |s| >= 5 then Decoded(s[3..|s| - 2])
    else if StartsWith(s, "'" + BINARY_OPEN) && EndsWith(s, BINARY_CLOSE + "'") && |s| >= 7 then Decoded(s[4..|s| - 3])
    else s
  }

  method BinaryEscapeString(str: string) returns (escaped: string)
    ensures escaped == BinaryEscaped(str)
  {
    escaped := [];
    var i := 0;
    assert str[0..] == str && escaped + BinaryChars(str) == BinaryChars(str);
    while i < |str|
      invariant 0 <= i <= |str|
      invariant escaped + BinaryChars(str[i..]) == BinaryChars(str)
    {
      assert str[i..][1..] == str[i + 1..];
      Associative(escaped, BinaryChar(str[i]), BinaryChars(str[i + 1..]));
      if !IsPrint(str[i]) {
        var code := HexOf(str[i] as int % 256);
        escaped := escaped + ("\\x" + (if |code| < 2 then "0" else "") + code);
      } else {
        escaped := escaped + [str[i]];
      }
      i := i + 1;
    }
    assert escaped + BinaryChars(str[i..]) == escaped;
    if escaped != str {
      escaped := ReplaceAllQuotes(escaped);
      escaped := "'" + BINARY_OPEN + escaped;
      escaped := escaped + BINARY_CLOSE;
      escaped := escaped + "'";
    }
  }

  method ReplaceAllQuotes(e: string) returns (r: string)
    ensures r == ReplaceQuotes(e)
  {
    r := e;
    var sqLoc := Find(r, LITERAL_QUOTE);
    while sqLoc < |r|
      invariant sqLoc == Find(r, LITERAL_QUOTE) && ReplaceQuotes(r) == ReplaceQuotes(e)
      decreases |r| - Find(r, LITERAL_QUOTE)
    {
      QuoteMovesOn(r);
      var n := if sqLoc + 1 <= |r| - sqLoc then sqLoc + 1 else |r| - sqLoc;
      ghost var before := r;
      r := r[..sqLoc] + "\\x27" + r[sqLoc + n..];
      assert r == ReplaceQuote(before);
      sqLoc := Find(r, LITERAL_QUOTE);
    }
  }

  /** A character of a std::string, whose end reads as zero. */
  function CharAt(s: string, i: nat): char
    requires i <= |s|
  {
    if i < |s| then s[i] else '\0'
  }

  method ExtractBinaryString(s: string) returns (out: string)
    ensures out == Extracted(s)
  {
    var start, tail := 0, 0;
    if StartsWith(s, BINARY_OPEN) && EndsWith(s, BINARY_CLOSE) {
      start, tail := 3, 2;
      CloseApart(s);
    } else if StartsWith(s, "'" + BINARY_OPEN) && EndsWith(s, BINARY_CLOSE + "'") {
      start, tail := 4, 3;
      QuotedCloseApart(s);
    }
    if start == 0 { return s; }
    out := DecodeBody(s, start, |s| - tail);
  }

  /** The test in the loop over the body: the character of an escape at `loc`. */
  method HexPairAt(s: string, loc: nat, ghost end: nat) returns (c: Option<char>)
    requires loc < end < |s| && s[end] == ')'
    ensures c == if HexEscapeAt(s, loc) then Some(HexCharAt(s, loc)) else None
  {
    c := None;
    if s[loc] == BACKSLASH && (CharAt(s, loc + 1) == 'x' || CharAt(s, loc + 1) == 'X') {
      var res1, res2 := HexConvert(CharAt(s, loc + 2)), HexConvert(CharAt(s, loc + 3));
      if res1 >= 0 && res2 >= 0 { c := Some((res1 * 16 + res2) as char); }
    }
  }

  method DecodeBody(s: string, start: nat, end: nat) returns (out: string)
    requires start <= end < |s| && s[end] == ')'
    ensures out == Decoded(s[start..end])
  {
    out := [];
    var loc := start;
    ghost var all := Decoded(s[start..end]);
    assert out + all == all;
    while loc < end
      invariant start <= loc <= end && out + Decoded(s[loc..end]) == all
    {
      DecodeStep(out, s, loc, end);
      var c := HexPairAt(s, loc, end);
      if c != None {
        out, loc := out + [c.value], loc + 4;
        continue;
      }
      out, loc := out + [s[loc]], loc + 1;
    }
    NothingLeft(out, s[loc..end]);
  }

  lemma NothingLeft(out: string, rest: string)
    requires rest == []
    ensures out + Decoded(rest) == out
  {
  }

  lemma DecodeStep(out: string, s: string, loc: nat, end: nat)
    requires loc < end < |s| && s[end] == ')'
    ensures HexEscapeAt(s, loc) ==>
              loc + 4 <= end
              && out + Decoded(s[loc..end]) == (out + [HexCharAt(s, loc)]) + Decoded(s[loc + 4..end])
    ensures !HexEscapeAt(s, loc) ==> out + Decoded(s[loc..end]) == (out + [s[loc]]) + Decoded(s[loc + 1..end])
  {
    EscapeInBody(s, loc, end);
    if HexEscapeAt(s, loc) {
      assert s[loc..end][4..] == s[loc + 4..end];
      Associative(out, [HexCharAt(s, loc)], Decoded(s[loc + 4..end]));
    } else {
      assert s[loc..end][1..] == s[loc + 1..end];
      Associative(out, [s[loc]], Decoded(s[loc + 1..end]));
    }
  }

  lemma Prefix(s: string, p: string, i: nat)
    requires StartsWith(s, p) && i < |p|
    ensures s[i] == p[i]
  {
    assert s[..|p|][i] == s[i];
  }

  lemma Suffix(s: string, p: string, i: nat)
    requires EndsWith(s, p) && i < |p|
    ensures s[|s| - |p| + i] == p[i]
  {
    assert s[|s| - |p|..][i] == s[|s| - |p| + i];
  }

  /** The opening and the closing of a binary string do not overlap. */
  lemma CloseApart(s: string)
    requires StartsWith(s, BINARY_OPEN) && EndsWith(s, BINARY_CLOSE)
    ensures |s| >= 5 && s[|s| - 2] == ')'
  {
    Prefix(s, BINARY_OPEN, 2);
    Prefix(s, BINARY_OPEN, 1);
    Suffix(s, BINARY_CLOSE, 0);
    Suffix(s, BINARY_CLOSE, 1);
  }

  lemma QuotedCloseApart(s: string)
    requires StartsWith(s, "'" + BINARY_OPEN) && EndsWith(s, BINARY_CLOSE + "'")
    ensures |s| >= 7 && s[|s| - 3] == ')'
  {
    Prefix(s, "'" + BINARY_OPEN, 1);
    Prefix(s, "'" + BINARY_OPEN, 2);
    Prefix(s, "'" + BINARY_OPEN, 3);
    Suffix(s, BINARY_CLOSE + "'", 0);
    Suffix(s, BINARY_CLOSE + "'", 1);
  }

  /** An escape that starts in the body ends in it: the parenthesis after it is no digit. */
  lemma EscapeInBody(s: string, loc: nat, end: nat)
    requires loc < end < |s| && s[end] == ')'
    ensures HexEscapeAt(s[loc..end], 0) <==> HexEscapeAt(s, loc)
    ensures HexEscapeAt(s, loc) ==> loc + 4 <= end
  {
  }

  // ---------------------------------------------------------------------------------------------
  // Decoding

  predicate HasHexEscape(s: string) { exists i :: 0 <= i < |s| && HexEscapeAt(s, i) }

  /** The characters that a binary string holds as they are. */
  predicate Stays(c: char) { IsPrint(c) && c != LITERAL_QUOTE }

  /** The escapes with every quote escaped, too: what the loop over the quotes is there for. */
  function FullChar(c: char): string {
    if c == LITERAL_QUOTE then "\\x27" else BinaryChar(c)
  }

  function FullChars(s: string): string {
    if s == [] then [] else FullChar(s[0]) + FullChars(s[1..])
  }

  /** std::hex of a byte, filled up to two digits. */
  lemma HexOfIs(n: nat) returns (h: char, l: char)
    requires n < 256
    ensures (if |HexOf(n)| < 2 then "0" else "") + HexOf(n) == [h, l]
    ensures HexConvert(h) >= 0 && HexConvert(l) >= 0 && HexConvert(h) * 16 + HexConvert(l) == n
    ensures Stays(h) && Stays(l)
  {
    h := if n < 16 then '0' else HexDigit(n / 16);
    l := HexDigit(n % 16);
    assert n < 16 ==> n % 16 == n && HexOf(n) == [l];
  }

  /** The escape of a character that does not print: a backslash, an x and its two digits. */
  lemma BinaryCharIs(c: char) returns (h: char, l: char)
    requires c as int < 256 && !IsPrint(c)
    ensures BinaryChar(c) == [BACKSLASH, 'x', h, l]
    ensures HexConvert(h) >= 0 && HexConvert(l) >= 0 && HexConvert(h) * 16 + HexConvert(l) == c as int
    ensures Stays(h) && Stays(l)
  {
    h, l := HexOfIs(c as int);
    var code := HexOf(c as int);
    Associative("\\x", if |code| < 2 then "0" else "", code);
    assert c as int % 256 == c as int;
  }

  lemma FullCharIs(c: char) returns (h: char, l: char)
    requires c as int < 256 && !Stays(c)
    ensures FullChar(c) == [BACKSLASH, 'x', h, l]
    ensures HexConvert(h) >= 0 && HexConvert(l) >= 0 && HexConvert(h) * 16 + HexConvert(l) == c as int
  {
    if c == LITERAL_QUOTE { h, l := '2', '7'; } else { h, l := BinaryCharIs(c); }
  }

  lemma EscapeDecodes(h: char, l: char, rest: string)
    requires HexConvert(h) >= 0 && HexConvert(l) >= 0
    ensures Decoded([BACKSLASH, 'x', h, l] + rest) == [(HexConvert(h) * 16 + HexConvert(l)) as char] + Decoded(rest)
  {
    var all := [BACKSLASH, 'x', h, l] + rest;
    assert all[4..] == rest;
    assert HexEscapeAt(all, 0);
  }

  lemma EscapedDecodes(s: string)
    requires s != [] && s[0] as int < 256 && !Stays(s[0])
    ensures Decoded(FullChars(s)) == [s[0]] + Decoded(FullChars(s[1..]))
  {
    var h, l := FullCharIs(s[0]);
    EscapeDecodes(h, l, FullChars(s[1..]));
  }

  lemma FirstChar(s: string)
    requires s != []
    ensures FullChars(s) != [] && FullChars(s)[0] == if Stays(s[0]) then s[0] else BACKSLASH
    ensures Stays(s[0]) ==> FullChars(s)[1..] == FullChars(s[1..])
  {
  }

  /** Characters at the front of a string that need no escape stay as they are. */
  lemma {:induction false} FrontStays(s: string, n: nat)
    requires n <= |s| && forall k :: 0 <= k < n ==> Stays(s[k])
    ensures var e := FullChars(s);
            |e| >= n && (forall k :: 0 <= k < n ==> e[k] == s[k]) && e[n..] == FullChars(s[n..])
  {
    if n > 0 {
      FirstChar(s);
      FrontStays(s[1..], n - 1);
      assert s[1..][n - 1..] == s[n..];
      assert FullChars(s)[1..][n - 1..] == FullChars(s)[n..];
    } else {
      assert s[0..] == s;
    }
  }

  /** Where no backslash comes out, the string has the same characters. */
  lemma {:induction false} NoBackslashCameIn(s: string, n: nat)
    requires var e := FullChars(s); |e| >= n && forall k :: 0 <= k < n ==> e[k] != BACKSLASH
    ensures n <= |s| && forall k :: 0 <= k < n ==> s[k] == FullChars(s)[k]
  {
    if n > 0 {
      FirstChar(s);
      var e, f := FullChars(s), FullChars(s[1..]);
      assert forall k :: 0 <= k < n - 1 ==> f[k] == e[k + 1];
      NoBackslashCameIn(s[1..], n - 1);
      assert forall k :: 1 <= k < n ==> s[k] == s[1..][k - 1] == f[k - 1] == e[k];
    }
  }

  lemma HexStays(c: char)
    requires HexConvert(c) >= 0 || c == 'x' || c == 'X'
    ensures Stays(c) && c != BACKSLASH
  {
  }

  lemma EscapeStays(s: string)
    requires HexEscapeAt(s, 0)
    ensures var e := FullChars(s);
            HexEscapeAt(e, 0) && HexCharAt(e, 0) == HexCharAt(s, 0) && e[4..] == FullChars(s[4..])
  {
    HexStays(s[1]);
    HexStays(s[2]);
    HexStays(s[3]);
    FrontStays(s, 4);
  }

  lemma EscapeCameIn(s: string)
    requires s != [] && Stays(s[0]) && HexEscapeAt(FullChars(s), 0)
    ensures HexEscapeAt(s, 0)
  {
    var e := FullChars(s);
    FirstChar(s);
    HexStays(e[1]);
    HexStays(e[2]);
    HexStays(e[3]);
    NoBackslashCameIn(s[1..], 3);
  }

  lemma EscapeHere(s: string)
    ensures s != [] ==> (HasHexEscape(s) <==> HexEscapeAt(s, 0) || HasHexEscape(s[1..]))
  {
    if s != [] {
      if i :| 0 <= i < |s| && HexEscapeAt(s, i) && i > 0 { assert HexEscapeAt(s[1..], i - 1); }
      if i :| 0 <= i < |s[1..]| && HexEscapeAt(s[1..], i) { assert HexEscapeAt(s, i + 1); }
    }
  }

  lemma {:induction false} DecodedNoLonger(s: string)
    requires Bytes(s)
    ensures |Decoded(FullChars(s))| <= |s|
  {
    if s != [] { DecodedFront(s); }
    if s != [] && HexEscapeAt(s, 0) { DecodedNoLonger(s[4..]); } else if s != [] { DecodedNoLonger(s[1..]); }
  }

  lemma DecodedFront(s: string)
    requires s != [] && Bytes(s)
    ensures Decoded(FullChars(s)) ==
            if HexEscapeAt(s, 0) then [HexCharAt(s, 0)] + Decoded(FullChars(s[4..]))
            else [s[0]] + Decoded(FullChars(s[1..]))
  {
    if !Stays(s[0]) {
      EscapedDecodes(s);
    } else if HexEscapeAt(s, 0) {
      EscapeStays(s);
    } else {
      FirstChar(s);
      if HexEscapeAt(FullChars(s), 0) { EscapeCameIn(s); }
    }
  }

  lemma SameFront(s: string, rest: string)
    requires s != []
    ensures [s[0]] + rest == s <==> rest == s[1..]
  {
    assert s == [s[0]] + s[1..];
    assert ([s[0]] + rest)[1..] == rest;
  }

  /** A string in which everything is escaped that must be decodes to itself exactly when it holds no
      text that reads as an escape already. */
  lemma {:induction false} DecodedExact(s: string)
    requires Bytes(s)
    ensures Decoded(FullChars(s)) == s <==> !HasHexEscape(s)
  {
    if s != [] {
      DecodedFront(s);
      EscapeHere(s);
      if HexEscapeAt(s, 0) {
        DecodedNoLonger(s[4..]);
      } else {
        DecodedExact(s[1..]);
        SameFront(s, Decoded(FullChars(s[1..])));
      }
    }
  }

  lemma {:induction false} Longer(s: string)
    requires Bytes(s)
    ensures |BinaryChars(s)| >= |s|
    ensures (exists i :: 0 <= i < |s| && !IsPrint(s[i])) ==> |BinaryChars(s)| > |s|
  {
    if s != [] {
      Longer(s[1..]);
      if !IsPrint(s[0]) { var h, l := BinaryCharIs(s[0]); }
      if i :| 0 <= i < |s| && !IsPrint(s[i]) && i > 0 { assert !IsPrint(s[1..][i - 1]); }
    }
  }

  // ---------------------------------------------------------------------------------------------
  // The loop over the quotes

  /** Every quote replaced by its escape, and nothing else. */
  function QuotesEscaped(e: string): string {
    if e == [] then [] else QuoteEscaped(e[0]) + QuotesEscaped(e[1..])
  }

  /** Only the first and the last character may be quotes. */
  predicate EndQuotes(s: string) { forall i :: 0 < i < |s| - 1 ==> s[i] != LITERAL_QUOTE }

  function QuoteEscaped(c: char): string {
    if c == LITERAL_QUOTE then "\\x27" else [c]
  }

  lemma QuotesEscapedCons(c: char, rest: string)
    ensures QuotesEscaped([c] + rest) == QuoteEscaped(c) + QuotesEscaped(rest)
  {
    assert ([c] + rest)[1..] == rest;
  }

  lemma {:induction false} QuotesEscapedAppend(a: string, b: string)
    ensures QuotesEscaped(a + b) == QuotesEscaped(a) + QuotesEscaped(b)
  {
    if a == [] {
      assert a + b == b;
    } else {
      QuotesEscapedAppend(a[1..], b);
      assert a + b == [a[0]] + (a[1..] + b);
      QuotesEscapedCons(a[0], a[1..] + b);
      Associative(QuoteEscaped(a[0]), QuotesEscaped(a[1..]), QuotesEscaped(b));
    }
  }

  lemma {:induction false} NothingToReplace(e: string)
    requires LITERAL_QUOTE !in e
    ensures QuotesEscaped(e) == e
  {
    if e != [] { NothingToReplace(e[1..]); }
  }

  lemma {:induction false} QuotesEscapedNoShorter(e: string)
    ensures |QuotesEscaped(e)| >= |e|
  {
    if e != [] { QuotesEscapedNoShorter(e[1..]); }
  }

  /** The parts of a text around its first quote, and how many characters after it the loop takes. */
  lemma AroundQuote(e: string) returns (a: string, b: string, k: nat)
    requires LITERAL_QUOTE in e
    ensures LITERAL_QUOTE !in a && k <= |b| && k == (if |a| <= |b| then |a| else |b|)
    ensures e == a + [LITERAL_QUOTE] + b && ReplaceQuote(e) == a + "\\x27" + b[k..]
  {
    var at := Find(e, LITERAL_QUOTE);
    a, b := e[..at], e[at + 1..];
    k := if |a| <= |b| then |a| else |b|;
  }

  lemma EscapedParts(a: string, m: string, b: string)
    requires LITERAL_QUOTE !in a
    ensures QuotesEscaped(a + m + b) == a + QuotesEscaped(m) + QuotesEscaped(b)
  {
    QuotesEscapedAppend(a + m, b);
    QuotesEscapedAppend(a, m);
    NothingToReplace(a);
  }

  lemma OneQuote()
    ensures QuotesEscaped([LITERAL_QUOTE]) == "\\x27" && QuotesEscaped("\\x27") == "\\x27"
  {
    NothingToReplace("\\x27");
  }

  lemma ReplacedParts(a: string, b: string, k: nat)
    requires LITERAL_QUOTE !in a && k <= |b|
    ensures QuotesEscaped(a + [LITERAL_QUOTE] + b) == a + "\\x27" + QuotesEscaped(b)
    ensures QuotesEscaped(a + "\\x27" + b[k..]) == a + "\\x27" + QuotesEscaped(b[k..])
  {
    OneQuote();
    EscapedParts(a, [LITERAL_QUOTE], b);
    EscapedParts(a, "\\x27", b[k..]);
  }

  lemma LessEscaped(b: string, k: nat)
    requires k <= |b|
    ensures |QuotesEscaped(b)| >= k + |QuotesEscaped(b[k..])|
  {
    QuotesEscapedAppend(b[..k], b[k..]);
    assert b == b[..k] + b[k..];
    QuotesEscapedNoShorter(b[..k]);
  }

  /** One pass is right when it takes out the quote alone, and else loses text for good. */
  lemma ReplaceLoses(e: string, a: string, b: string, k: nat)
    requires LITERAL_QUOTE !in a && k <= |b|
    requires e == a + [LITERAL_QUOTE] + b && LITERAL_QUOTE in e && ReplaceQuote(e) == a + "\\x27" + b[k..]
    ensures k == 0 ==> QuotesEscaped(ReplaceQuote(e)) == QuotesEscaped(e)
    ensures k > 0 ==> |QuotesEscaped(ReplaceQuote(e))| < |QuotesEscaped(e)|
  {
    ReplacedParts(a, b, k);
    LessEscaped(b, k);
    assert b[0..] == b;
  }

  /** All but the last character are no quotes. */
  predicate QuoteLast(b: string) { forall i :: 0 <= i < |b| - 1 ==> b[i] != LITERAL_QUOTE }

  lemma BehindFirst(f: string, b: string)
    requires |f| == 1 || LITERAL_QUOTE !in f
    requires f != []
    ensures EndQuotes(f + b) <==> QuoteLast(b)
  {
    var e := f + b;
    forall i | 0 <= i < |b| - 1 ensures b[i] == e[|f| + i] {}
    if QuoteLast(b) {
      forall i | 0 < i < |e| - 1 ensures e[i] != LITERAL_QUOTE {
        assert e[i] == if i < |f| then f[i] else b[i - |f|];
      }
    }
  }

  lemma BeforeLast(a: string, l: string)
    requires LITERAL_QUOTE !in a && (|l| == 1 || LITERAL_QUOTE !in l)
    ensures EndQuotes(a + l)
  {
    var e := a + l;
    forall i | 0 < i < |e| - 1 ensures e[i] != LITERAL_QUOTE {
      assert e[i] == if i < |a| then a[i] else l[i - |a|];
    }
  }

  lemma EndsStay(e: string, a: string, b: string)
    requires LITERAL_QUOTE !in a && e == a + [LITERAL_QUOTE] + b && (a == [] || b == [])
    ensures EndQuotes(e) <==> EndQuotes(a + "\\x27" + b)
  {
    if a == [] {
      BehindFirst([LITERAL_QUOTE], b);
      BehindFirst("\\x27", b);
      assert e == [LITERAL_QUOTE] + b && a + "\\x27" + b == "\\x27" + b;
    } else {
      BeforeLast(a, [LITERAL_QUOTE]);
      BeforeLast(a, "\\x27");
      assert e == a + [LITERAL_QUOTE] && a + "\\x27" + b == a + "\\x27";
    }
  }

  lemma MiddleQuote(e: string, a: string, b: string)
    requires e == a + [LITERAL_QUOTE] + b && a != [] && b != []
    ensures !EndQuotes(e)
  {
    assert e[|a|] == LITERAL_QUOTE;
  }

  /** The loop escapes every quote and keeps all else if only the first and the last character are
      quotes; otherwise the result is shorter than that. */
  lemma {:induction false} ReplacedExact(e: string)
    ensures |ReplaceQuotes(e)| <= |QuotesEscaped(e)|
    ensures if EndQuotes(e) then ReplaceQuotes(e) == QuotesEscaped(e) else |ReplaceQuotes(e)| < |QuotesEscaped(e)|
    decreases |e| - Find(e, LITERAL_QUOTE)
  {
    if LITERAL_QUOTE in e {
      var a, b, k := AroundQuote(e);
      QuoteMovesOn(e);
      ReplacedExact(ReplaceQuote(e));
      ReplaceLoses(e, a, b, k);
      if k == 0 {
        EndsStay(e, a, b);
        assert b[0..] == b;
      } else {
        MiddleQuote(e, a, b);
      }
    } else {
      NothingToReplace(e);
    }
  }

  lemma {:induction false} FullIsEscaped(s: string)
    requires Bytes(s)
    ensures QuotesEscaped(BinaryChars(s)) == FullChars(s)
  {
    if s != [] {
      FullIsEscaped(s[1..]);
      QuotesEscapedAppend(BinaryChar(s[0]), BinaryChars(s[1..]));
      FullOfChar(s[0]);
    }
  }

  lemma FullOfChar(c: char)
    requires c as int < 256
    ensures QuotesEscaped(BinaryChar(c)) == FullChar(c)
  {
    OneQuote();
    if c != LITERAL_QUOTE {
      if !IsPrint(c) { var h, l := BinaryCharIs(c); }
      NothingToReplace(BinaryChar(c));
    }
  }

  lemma BinaryCons(c: char, rest: string)
    ensures BinaryChars([c] + rest) == BinaryChar(c) + BinaryChars(rest)
  {
    assert ([c] + rest)[1..] == rest;
  }

  lemma BinaryAppendOne(c: char, a: string, b: string)
    requires BinaryChars(a + b) == BinaryChars(a) + BinaryChars(b)
    ensures BinaryChars([c] + (a + b)) == BinaryChars([c] + a) + BinaryChars(b)
  {
    BinaryCons(c, a + b);
    BinaryCons(c, a);
    Associative(BinaryChar(c), BinaryChars(a), BinaryChars(b));
  }

  lemma FirstAndRest(a: string, b: string)
    requires a != []
    ensures a == [a[0]] + a[1..] && a + b == [a[0]] + (a[1..] + b)
  {
  }

  lemma {:induction false} BinaryAppend(a: string, b: string)
    ensures BinaryChars(a + b) == BinaryChars(a) + BinaryChars(b)
  {
    if a == [] {
      assert a + b == b;
    } else {
      BinaryAppend(a[1..], b);
      BinaryAppendOne(a[0], a[1..], b);
      FirstAndRest(a, b);
    }
  }

  lemma BinaryOne(c: char)
    ensures BinaryChars([c]) == BinaryChar(c)
  {
    assert [c][1..] == [];
  }

  lemma {:induction false} NoQuoteComesIn(s: string)
    requires Bytes(s) && LITERAL_QUOTE !in s
    ensures LITERAL_QUOTE !in BinaryChars(s)
  {
    if s != [] {
      NoQuoteComesIn(s[1..]);
      if !IsPrint(s[0]) { var h, l := BinaryCharIs(s[0]); }
    }
  }

  /** The escape of one character is that character or holds no quote. */
  lemma OneOrNoQuote(c: char)
    requires c as int < 256
    ensures BinaryChar(c) == [c] || LITERAL_QUOTE !in BinaryChar(c)
    ensures |BinaryChar(c)| >= 1
  {
    if !IsPrint(c) { var h, l := BinaryCharIs(c); }
  }

  lemma QuotesOnlyAtEnds(f: string, m: string, l: string)
    requires LITERAL_QUOTE !in m && (|f| == 1 || LITERAL_QUOTE !in f) && (|l| == 1 || LITERAL_QUOTE !in l)
    ensures EndQuotes(f + m + l)
  {
    var e := f + m + l;
    forall i | 0 < i < |e| - 1 ensures e[i] != LITERAL_QUOTE {
      assert e[i] == if i < |f| then f[i] else if i < |f| + |m| then m[i - |f|] else l[i - |f| - |m|];
    }
  }

  lemma EndQuotesKept(s: string)
    requires Bytes(s) && EndQuotes(s)
    ensures EndQuotes(BinaryChars(s))
  {
    if |s| == 1 {
      assert s == [s[0]];
      BinaryOne(s[0]);
      OneOrNoQuote(s[0]);
    } else if |s| >= 2 {
      var f, m, l := s[0], s[1..|s| - 1], s[|s| - 1];
      assert s == [f] + m + [l];
      BinaryAppend([f] + m, [l]);
      BinaryAppend([f], m);
      BinaryOne(f);
      BinaryOne(l);
      OneOrNoQuote(f);
      OneOrNoQuote(l);
      NoQuoteComesIn(m);
      QuotesOnlyAtEnds(BinaryChar(f), BinaryChars(m), BinaryChar(l));
    }
  }

  lemma MiddleQuoteKept(s: string, i: nat)
    requires Bytes(s) && 0 < i < |s| - 1 && s[i] == LITERAL_QUOTE
    ensures !EndQuotes(BinaryChars(s))
  {
    var a, b := s[..i], s[i + 1..];
    assert s == a + [s[i]] + b;
    BinaryAppend(a + [s[i]], b);
    BinaryAppend(a, [s[i]]);
    BinaryOne(s[i]);
    Longer(a);
    Longer(b);
    MiddleQuote(BinaryChars(s), BinaryChars(a), BinaryChars(b));
  }

  // ---------------------------------------------------------------------------------------------
  // The binary string as a whole

  predicate AllStay(y: string) { forall i :: 0 <= i < |y| ==> Stays(y[i]) }

  predicate AllPrint(y: string) { forall i :: 0 <= i < |y| ==> IsPrint(y[i]) }

  lemma {:induction false} EscapesPrint(s: string)
    requires Bytes(s)
    ensures AllPrint(BinaryChars(s))
  {
    if s != [] {
      EscapesPrint(s[1..]);
      if !IsPrint(s[0]) { var h, l := BinaryCharIs(s[0]); }
    }
  }

  lemma {:induction false} ReplacedStay(e: string)
    requires AllPrint(e)
    ensures AllStay(ReplaceQuotes(e))
    decreases |e| - Find(e, LITERAL_QUOTE)
  {
    if LITERAL_QUOTE in e {
      QuoteMovesOn(e);
      ReplacePrints(e);
      ReplacedStay(ReplaceQuote(e));
    }
  }

  lemma ReplacePrints(e: string)
    requires AllPrint(e) && LITERAL_QUOTE in e
    ensures AllPrint(ReplaceQuote(e))
  {
    assert AllPrint("\\x27");
  }

  /** What a text of plain characters decodes to needs no more room, escaped again, than the text. */
  lemma {:induction false} DecodedFits(y: string)
    requires AllStay(y)
    ensures Bytes(Decoded(y)) && |FullChars(Decoded(y))| <= |y|
  {
    if y != [] {
      if HexEscapeAt(y, 0) {
        DecodedFits(y[4..]);
        FullOfOne(HexCharAt(y, 0), Decoded(y[4..]));
      } else {
        DecodedFits(y[1..]);
        FullOfOne(y[0], Decoded(y[1..]));
      }
    }
  }

  lemma FullOfOne(c: char, rest: string)
    requires c as int < 256
    ensures |FullChars([c] + rest)| == (if Stays(c) then 1 else 4) + |FullChars(rest)|
  {
    assert ([c] + rest)[1..] == rest;
    if !Stays(c) { var h, l := FullCharIs(c); }
  }

  /** A binary string decodes to the text that it was made of exactly when no quote stands inside the
      text and the text holds nothing that reads as an escape already. */
  lemma BinaryExact(s: string)
    requires Bytes(s)
    ensures Decoded(ReplaceQuotes(BinaryChars(s))) == s <==> EndQuotes(s) && !HasHexEscape(s)
  {
    var e := BinaryChars(s);
    FullIsEscaped(s);
    ReplacedExact(e);
    if EndQuotes(s) {
      EndQuotesKept(s);
      DecodedExact(s);
    } else {
      var i: nat :| 0 < i < |s| - 1 && s[i] == LITERAL_QUOTE;
      MiddleQuoteKept(s, i);
      EscapesPrint(s);
      ReplacedStay(e);
      DecodedFits(ReplaceQuotes(e));
    }
  }
}
