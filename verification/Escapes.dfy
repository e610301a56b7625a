/** The escapes that ConfigBase writes into and removes from a quoted string. A character is a byte. */
module Escapes {
  import opened Options
  import opened Sequences

  const BACKSLASH: char := '\\'

  // ---------------------------------------------------------------------------------------------
  // Escapes

  const ESCAPED_CHARS: string := "\U{8}\t\n\U{C}\r\"\\"
  const ESCAPED_CHARS_CODE: string := "btnfr\"\\"

  /** find_first_of a character; the length when there is none. */
  function Find(s: string, c: char): (r: nat)
    ensures r <= |s| && (r < |s| ==> s[r] == c)
    ensures forall i :: 0 <= i < r ==> s[i] != c
  {
    if s == [] || s[0] == c then 0 else 1 + Find(s[1..], c)
  }

  function Escape(c: char): string {
    var at := Find(ESCAPED_CHARS, c);
    if at < 7 then [BACKSLASH, ESCAPED_CHARS_CODE[at]] else [c]
  }

  function Escaped(s: string): string {
    if s == [] then [] else Escape(s[0]) + Escaped(s[1..])
  }

  /** hexConvert, -1 for a character that is no digit. */
  function HexConvert(c: char): (r: int)
    ensures -1 <= r <= 15
  {
    if '0' <= c <= '9' then c as int - '0' as int
    else if 'A' <= c <= 'F' then c as int - 'A' as int + 10
    else if 'a' <= c <= 'f' then c as int - 'a' as int + 10
    else -1
  }

  predicate HexDigits(s: string) { forall i :: 0 <= i < |s| ==> HexConvert(s[i]) >= 0 }

  /** The number that hexadecimal digits denote. */
  function HexValue(s: string): (r: nat)
    requires HexDigits(s)
  {
    if s == [] then 0 else 16 * HexValue(s[..|s| - 1]) + HexConvert(s[|s| - 1])
  }

  function Byte(n: nat): char { (n % 256) as char }

  /** The bytes that append_codepoint appends, or None for a surrogate. */
  function Codepoint(code: nat): Option<string> {
    if code < 0x80 then Some([Byte(code)])
    else if code < 0x800 then Some([Byte(0xC0 + code / 64), Byte(0x80 + code % 64)])
    else if code < 0x1_0000 then
      if 0xD800 <= code <= 0xDFFF then None
      else Some([Byte(0xE0 + code / 4096), Byte(0x80 + code / 64 % 64), Byte(0x80 + code % 64)])
    else if code < 0x11_0000 then
      Some([Byte(0xF0 + code / 262144), Byte(0x80 + code / 4096 % 64),
            Byte(0x80 + code / 64 % 64), Byte(0x80 + code % 64)])
    else Some([])
  }

  function Prepend(a: string, b: Option<string>): Option<string> {
    match b
    case None => None
    case Some(s) => Some(a + s)
  }

  /** The value of the `n` hexadecimal digits that follow the first two characters of `s`. */
  function HexEscape(s: string, n: nat): Option<string> {
    if |s| >= n + 2 && HexDigits(s[2..n + 2]) then Codepoint(HexValue(s[2..n + 2])) else None
  }

  /** The characters that the escape at the front of `s` stands for and its length, or None when
      remove_escaped_characters throws. */
  function Unescape(s: string): Option<(string, nat)>
    requires s != [] && s[0] == BACKSLASH
    ensures Unescape(s).Some? ==> 2 <= Unescape(s).value.1 <= |s|
  {
    if |s| < 2 then None
    else if Find(ESCAPED_CHARS_CODE, s[1]) < 7 then Some(([ESCAPED_CHARS[Find(ESCAPED_CHARS_CODE, s[1])]], 2))
    else if s[1] == 'u' then
      match HexEscape(s, 4) { case None => None case Some(t) => Some((t, 6)) }
    else if s[1] == 'U' then
      match HexEscape(s, 8) { case None => None case Some(t) => Some((t, 10)) }
    else if s[1] == '0' then Some(("\0", 2))
    else None
  }

  function Unescaped(s: string): Option<string> {
    if s == [] then Some([])
    else if s[0] != BACKSLASH then Prepend([s[0]], Unescaped(s[1..]))
    else match Unescape(s)
      case None => None
      case Some(e) => Prepend(e.0, Unescaped(s[e.1..]))
  }

  lemma EscapedFrom(str: string, loc: nat)
    requires loc < |str|
    ensures Escaped(str[loc..]) == Escape(str[loc]) + Escaped(str[loc + 1..])
  {
    assert str[loc..][1..] == str[loc + 1..];
  }

  method AddEscapedCharacters(str: string) returns (out: string)
    ensures out == Escaped(str)
  {
    out := [];
    var loc := 0;
    assert str[0..] == str && out + Escaped(str) == Escaped(str);
    while loc < |str|
      invariant 0 <= loc <= |str|
      invariant out + Escaped(str[loc..]) == Escaped(str)
    {
      EscapedFrom(str, loc);
      Associative(out, Escape(str[loc]), Escaped(str[loc + 1..]));
      var sloc := Find(ESCAPED_CHARS, str[loc]);
      ghost var before := out;
      if sloc < |ESCAPED_CHARS| {
        out := out + [BACKSLASH];
        out := out + [ESCAPED_CHARS_CODE[sloc]];
      } else {
        out := out + [str[loc]];
      }
      assert out == before + Escape(str[loc]);
      loc := loc + 1;
    }
    assert out + Escaped(str[loc..]) == out;
  }

  /** The digits read before digit `ii` of `n`, their value in place, and the next place value. */
  ghost predicate ReadSoFar(digits: string, ii: nat, value: nat, mplier: nat) {
    && ii <= |digits|
    && HexDigits(digits[..ii])
    && value == HexValue(digits[..ii]) * Power16(|digits| - ii)
    && mplier == (if ii < |digits| then Power16(|digits| - ii - 1) else 0)
  }

  lemma ReadOne(digits: string, ii: nat, value: nat, mplier: nat)
    requires ReadSoFar(digits, ii, value, mplier) && ii < |digits| && HexConvert(digits[ii]) >= 0
    ensures ReadSoFar(digits, ii + 1, value + HexConvert(digits[ii]) * mplier, mplier / 16)
  {
    HexStep(digits[..ii], digits[ii], |digits| - ii);
    assert digits[..ii + 1] == digits[..ii] + [digits[ii]];
  }

  /** The loop over the digits of \u and \U, with the place values of the source. */
  method ReadHex(str: string, loc: nat, n: nat) returns (code: Option<nat>)
    requires loc + n <= |str| && n in {4, 8}
    ensures code == if HexDigits(str[loc..loc + n]) then Some(HexValue(str[loc..loc + n])) else None
  {
    ghost var digits := str[loc..loc + n];
    var value: nat := 0;
    var mplier: nat := if n == 4 then 0x1000 else 0x1000_0000;
    var ii := 0;
    PlaceValues();
    while ii < n
      invariant 0 <= ii <= n && ReadSoFar(digits, ii, value, mplier)
    {
      var res := HexConvert(str[loc + ii]);
      assert digits[ii] == str[loc + ii];
      if res < 0 { return None; }
      ReadOne(digits, ii, value, mplier);
      value := value + res * mplier;
      mplier := mplier / 16;
      ii := ii + 1;
    }
    assert digits[..n] == digits;
    code := Some(value);
  }

  lemma HexStep(s: string, c: char, k: nat)
    requires HexDigits(s) && HexConvert(c) >= 0 && k >= 1
    ensures HexDigits(s + [c])
    ensures HexValue(s + [c]) * Power16(k - 1) == HexValue(s) * Power16(k) + HexConvert(c) * Power16(k - 1)
    ensures Power16(k - 1) / 16 == if k >= 2 then Power16(k - 2) else 0
  {
    assert (s + [c])[..|s|] == s;
    var v, d, p := HexValue(s), HexConvert(c), Power16(k - 1);
    assert (16 * v + d) * p == v * (16 * p) + d * p;
  }

  function Power16(n: nat): nat { if n == 0 then 1 else 16 * Power16(n - 1) }

  lemma PlaceValues()
    ensures Power16(3) == 0x1000 && Power16(7) == 0x1000_0000
  {
    assert Power16(4) == 0x1_0000;
  }

  /** One pass of the loop at a backslash: what it appends and how far it goes. */
  method ReadEscape(str: string, loc: nat) returns (e: Option<(string, nat)>)
    requires loc < |str| && str[loc] == BACKSLASH
    ensures e == Unescape(str[loc..])
  {
    if |str| - loc < 2 { return None; }
    assert str[loc..][1] == str[loc + 1];
    var ecloc := Find(ESCAPED_CHARS_CODE, str[loc + 1]);
    if ecloc < |ESCAPED_CHARS_CODE| {
      e := Some(([ESCAPED_CHARS[ecloc]], 2));
    } else if str[loc + 1] == 'u' {
      if |str| - loc < 6 { return None; }
      e := ReadCodepoint(str, loc, 4);
    } else if str[loc + 1] == 'U' {
      if |str| - loc < 10 { return None; }
      e := ReadCodepoint(str, loc, 8);
    } else if str[loc + 1] == '0' {
      e := Some(("\0", 2));
    } else {
      e := None;
    }
  }

  method ReadCodepoint(str: string, loc: nat, n: nat) returns (e: Option<(string, nat)>)
    requires loc + 2 + n <= |str| && n in {4, 8}
    ensures e == match HexEscape(str[loc..], n) { case None => None case Some(t) => Some((t, n + 2)) }
  {
    SliceOfRest(str, loc, 2, n + 2);
    assert loc + (n + 2) == loc + 2 + n;
    var code := ReadHex(str, loc + 2, n);
    if code == None { return None; }
    match Codepoint(code.value) {
      case None => e := None;
      case Some(bytes) => e := Some((bytes, n + 2));
    }
  }

  lemma PrependTwice(a: string, b: string, c: Option<string>)
    ensures Prepend(a, Prepend(b, c)) == Prepend(a + b, c)
  {
    if c.Some? { assert a + (b + c.value) == (a + b) + c.value; }
  }

  lemma PrependNothing(c: Option<string>)
    ensures Prepend([], c) == c
  {
    if c.Some? { assert [] + c.value == c.value; }
  }

  method RemoveEscapedCharacters(str: string) returns (r: Option<string>)
    ensures r == Unescaped(str)
  {
    var out := [];
    var loc := 0;
    PrependNothing(Unescaped(str));
    assert str[0..] == str;
    while loc < |str|
      invariant 0 <= loc <= |str|
      invariant Prepend(out, Unescaped(str[loc..])) == Unescaped(str)
    {
      if str[loc] == BACKSLASH {
        var e := ReadEscape(str, loc);
        if e == None { return None; }
        assert str[loc..][e.value.1..] == str[loc + e.value.1..];
        PrependTwice(out, e.value.0, Unescaped(str[loc + e.value.1..]));
        out, loc := out + e.value.0, loc + e.value.1;
      } else {
        assert str[loc..][1..] == str[loc + 1..];
        PrependTwice(out, [str[loc]], Unescaped(str[loc + 1..]));
        out, loc := out + [str[loc]], loc + 1;
      }
    }
    assert out + [] == out;
    r := Some(out);
  }

  /** Removing the escapes restores every string that was escaped. */
  lemma {:induction false} UnescapedOfEscaped(s: string)
    ensures Unescaped(Escaped(s)) == Some(s)
  {
    if s != [] {
      UnescapedOfEscaped(s[1..]);
      EscapeUndone(s[0], Escaped(s[1..]));
      assert s == [s[0]] + s[1..];
    }
  }

  lemma EscapeUndone(c: char, rest: string)
    ensures Unescaped(Escape(c) + rest) == Prepend([c], Unescaped(rest))
  {
    var all := Escape(c) + rest;
    var at := Find(ESCAPED_CHARS, c);
    if at < 7 {
      CodeFound(at);
      assert all[0] == BACKSLASH && all[1] == ESCAPED_CHARS_CODE[at] && all[2..] == rest;
      assert Unescape(all) == Some(([c], 2));
    } else {
      assert c != BACKSLASH by { assert ESCAPED_CHARS[6] == BACKSLASH; }
      assert all[0] == c && all[1..] == rest;
    }
  }

  lemma CodeFound(at: nat)
    requires at < 7
    ensures Find(ESCAPED_CHARS_CODE, ESCAPED_CHARS_CODE[at]) == at
  {
    assert forall i, j :: 0 <= i < j < 7 ==> ESCAPED_CHARS_CODE[i] != ESCAPED_CHARS_CODE[j];
  }

  /** An escaped string has no control character that has a code, no quote without a backslash before
      it, and nothing of it changes when there is nothing to escape. */
  lemma {:induction false} EscapedIsSafe(s: string)
    ensures forall i :: 0 <= i < |Escaped(s)| ==> Escaped(s)[i] !in ESCAPED_CHARS[..5]
    ensures forall i :: 0 <= i < |Escaped(s)| && Escaped(s)[i] == '"' ==> i > 0 && Escaped(s)[i - 1] == BACKSLASH
    ensures !HasEscapable(s) ==> Escaped(s) == s
  {
    if s != [] {
      EscapedIsSafe(s[1..]);
      EscapeIsSafe(s[0]);
      assert !HasEscapable(s) ==> s[0] !in ESCAPED_CHARS && !HasEscapable(s[1..]);
      assert s == [s[0]] + s[1..];
    }
  }

  lemma EscapeIsSafe(c: char)
    ensures forall d :: d in Escape(c) ==> d !in ESCAPED_CHARS[..5]
    ensures forall i :: 0 <= i < |Escape(c)| && Escape(c)[i] == '"' ==> i > 0 && Escape(c)[i - 1] == BACKSLASH
    ensures c !in ESCAPED_CHARS ==> Escape(c) == [c]
  {
    var at := Find(ESCAPED_CHARS, c);
    if at < 7 {
      assert ESCAPED_CHARS_CODE[at] !in ESCAPED_CHARS[..5];
    } else {
      assert ESCAPED_CHARS[5] == '"' && c != '"';
      assert ESCAPED_CHARS[..5] <= ESCAPED_CHARS;
    }
  }

  lemma {:induction false} NothingToEscape(s: string)
    requires BACKSLASH !in s
    ensures Unescaped(s) == Some(s)
  {
    if s != [] {
      NothingToEscape(s[1..]);
      assert s == [s[0]] + s[1..];
    }
  }

  predicate HasEscapable(s: string) { exists i :: 0 <= i < |s| && s[i] in ESCAPED_CHARS }

  /** The reference reading of UTF-8: the code point of a well-formed byte sequence. Overlong forms, the
      surrogates and numbers beyond the last code point have none. */
  function Utf8(b: string): Option<nat> {
    var n := |b|;
    if n == 1 && b[0] as int < 0x80 then Some(b[0] as int)
    else if n == 2 && 0xC0 <= b[0] as int < 0xE0 && Tail(b[1]) then
      InRange((b[0] as int - 0xC0) * 64 + Bits(b[1]), 0x80)
    else if n == 3 && 0xE0 <= b[0] as int < 0xF0 && Tail(b[1]) && Tail(b[2]) then
      InRange((b[0] as int - 0xE0) * 4096 + Bits(b[1]) * 64 + Bits(b[2]), 0x800)
    else if n == 4 && 0xF0 <= b[0] as int < 0xF8 && Tail(b[1]) && Tail(b[2]) && Tail(b[3]) then
      InRange((b[0] as int - 0xF0) * 262144 + Bits(b[1]) * 4096 + Bits(b[2]) * 64 + Bits(b[3]), 0x1_0000)
    else None
  }

  /** The code point, if it is one and needs as many bytes as it has, which it does from `least` on. */
  function InRange(code: nat, least: nat): Option<nat> {
    if least <= code < 0x11_0000 && !(0xD800 <= code <= 0xDFFF) then Some(code) else None
  }

  predicate Tail(c: char) { 0x80 <= c as int < 0xC0 }

  function Bits(c: char): nat
    requires Tail(c)
  {
    c as int - 0x80
  }

  lemma TwoBytes(code: nat)
    requires 0x80 <= code < 0x800
    ensures Codepoint(code).Some? && Utf8(Codepoint(code).value) == Some(code)
  {
    assert 2 <= code / 64 < 32;
  }

  lemma TailByte(b: nat)
    requires b < 64
    ensures Tail(Byte(0x80 + b)) && Bits(Byte(0x80 + b)) == b
  {
  }

  lemma Utf8Of3(a: nat, b: nat, c: nat)
    requires a < 16 && b < 64 && c < 64
    ensures Utf8([Byte(0xE0 + a), Byte(0x80 + b), Byte(0x80 + c)]) == InRange(a * 4096 + b * 64 + c, 0x800)
  {
    TailByte(b);
    TailByte(c);
    assert Byte(0xE0 + a) as int == 0xE0 + a;
  }

  lemma Utf8Of4(a: nat, b: nat, c: nat, d: nat)
    requires a <= 4 && b < 64 && c < 64 && d < 64
    ensures Utf8([Byte(0xF0 + a), Byte(0x80 + b), Byte(0x80 + c), Byte(0x80 + d)])
         == InRange(a * 262144 + b * 4096 + c * 64 + d, 0x1_0000)
  {
    TailByte(b);
    TailByte(c);
    TailByte(d);
    LeadByte(a);
    FourRead(Byte(0xF0 + a), Byte(0x80 + b), Byte(0x80 + c), Byte(0x80 + d), a);
  }

  lemma LeadByte(a: nat)
    requires a <= 4
    ensures Byte(0xF0 + a) as int == 0xF0 + a
  {
  }

  lemma FourRead(w: char, x: char, y: char, z: char, a: nat)
    requires w as int == 0xF0 + a && a <= 4 && Tail(x) && Tail(y) && Tail(z)
    ensures Utf8([w, x, y, z]) == InRange(a * 262144 + Bits(x) * 4096 + Bits(y) * 64 + Bits(z), 0x1_0000)
  {
  }

  lemma ThreeBytes(code: nat)
    requires 0x800 <= code < 0x1_0000 && !(0xD800 <= code <= 0xDFFF)
    ensures Codepoint(code).Some? && Utf8(Codepoint(code).value) == Some(code)
  {
    Parts(code);
    Utf8Of3(code / 4096, code / 64 % 64, code % 64);
  }

  lemma FourBytes(code: nat)
    requires 0x1_0000 <= code < 0x11_0000
    ensures Codepoint(code).Some? && Utf8(Codepoint(code).value) == Some(code)
  {
    Parts(code);
    Utf8Of4(code / 262144, code / 4096 % 64, code / 64 % 64, code % 64);
  }

  lemma Parts(code: nat)
    ensures code / 4096 * 4096 + code / 64 % 64 * 64 + code % 64 == code
    ensures code / 262144 * 262144 + code / 4096 % 64 * 4096 + code / 64 % 64 * 64 + code % 64 == code
  {
    assert code / 4096 == code / 64 / 64;
    assert code / 262144 == code / 4096 / 64;
  }

  /** A code point becomes its UTF-8 sequence: it fails for the surrogates alone, and a number that is
      no code point adds nothing. */
  lemma CodepointIsUtf8(code: nat)
    ensures Codepoint(code) == None <==> 0xD800 <= code <= 0xDFFF
    ensures code >= 0x11_0000 ==> Codepoint(code) == Some([])
    ensures code < 0x11_0000 && Codepoint(code).Some? ==> Utf8(Codepoint(code).value) == Some(code)
  {
    if 0x80 <= code < 0x800 { TwoBytes(code); }
    if 0x800 <= code < 0x1_0000 && !(0xD800 <= code <= 0xDFFF) { ThreeBytes(code); }
    if 0x1_0000 <= code < 0x11_0000 { FourBytes(code); }
  }
}
