/** How each kind of text is written, and what each kind of hand-written text reads as, with the characters
    written out. */
module QuotingLaws {
  import opened Options
  import opened Sequences
  import opened Escapes
  import opened BinaryStrings
  import opened EscapeLaws
  import opened Quoting

  // ---------------------------------------------------------------------------------------------
  // Writing

  /** The texts written without quotes: four words, what converts to a number and looks like one, and
      hexadecimal, octal and binary numbers. */
  lemma BareIs(s: string, isNumber: string -> bool)
    ensures IsBare(s, isNumber) <==>
              || s == "true" || s == "false" || s == "nan" || s == "inf"
              || (isNumber(s) && (forall i :: 0 <= i < |s| ==> s[i] in "0123456789.-+eE")
                  && !(|s| >= 2 && s[0] == '0' && (s[1] == 'x' || s[1] == 'X')))
              || (|s| >= 2 && s[0] == '0' && s[1] == 'x'
                  && forall i :: 2 <= i < |s| ==>
                       '0' <= s[i] <= '9' || 'a' <= s[i] <= 'f' || 'A' <= s[i] <= 'F')
              || (|s| >= 2 && s[0] == '0' && s[1] == 'o' && forall i :: 2 <= i < |s| ==> '0' <= s[i] <= '7')
              || (|s| >= 2 && s[0] == '0' && s[1] == 'b' && forall i :: 2 <= i < |s| ==> s[i] == '0' || s[i] == '1')
  {
    StartsIs(s, 'x');
    StartsIs(s, 'X');
  }

  lemma StartsIs(s: string, x: char)
    ensures StartsWith(s, ['0', x]) <==> |s| >= 2 && s[0] == '0' && s[1] == x
  {
    if |s| >= 2 { assert s[..2] == [s[0], s[1]]; }
  }

  /** A text that does not print, of one character or many, becomes a binary string. */
  lemma WrittenBinary(s: string, i: nat, disableMultiLine: bool, isNumber: string -> bool)
    requires !IsBare(s, isNumber)
    requires i < |s| && !(32 <= s[i] as int <= 126) && (|s| == 1 || (s[i] != '\n' && s[i] != '\t'))
    ensures Converted(s, disableMultiLine, isNumber) == "'B\"(" + ReplaceQuotes(BinaryChars(s)) + ")\"'"
  {
    WrittenEscaped(s, i, disableMultiLine, isNumber);
    NotAsIs(s, i);
    BinaryQuoted(ReplaceQuotes(BinaryChars(s)));
  }

  lemma WrittenEscaped(s: string, i: nat, disableMultiLine: bool, isNumber: string -> bool)
    requires !IsBare(s, isNumber)
    requires i < |s| && !(32 <= s[i] as int <= 126) && (|s| == 1 || (s[i] != '\n' && s[i] != '\t'))
    ensures Converted(s, disableMultiLine, isNumber) == BinaryEscaped(s) && !IsPrint(s[i])
  {
    assert !IsPrint(s[i]);
  }

  lemma BinaryQuoted(e: string)
    ensures "'" + BINARY_OPEN + e + BINARY_CLOSE + "'" == "'B\"(" + e + ")\"'"
  {
    assert "'" + BINARY_OPEN == "'B\"(" && BINARY_CLOSE + "'" == ")\"'";
    Associative("'B\"(" + e, BINARY_CLOSE, "'");
  }

  lemma {:induction false} NotAsIs(s: string, i: nat)
    requires i < |s| && !IsPrint(s[i])
    ensures BinaryChars(s) != s && |BinaryChars(s)| > |s|
    decreases |s|
  {
    if i > 0 {
      NotAsIs(s[1..], i - 1);
    } else {
      NoShorter(s[1..]);
    }
  }

  lemma {:induction false} NoShorter(s: string)
    ensures |BinaryChars(s)| >= |s|
  {
    if s != [] { NoShorter(s[1..]); }
  }

  /** Each character that prints stays, and any other becomes a backslash, an x and its two digits. */
  lemma BinaryCharAt(pre: string, c: char, h: nat, l: nat, post: string)
    requires c as int == 16 * h + l && h < 16 && l < 16
    ensures BinaryChars([]) == []
    ensures BinaryChars(pre + [c] + post)
         == BinaryChars(pre)
            + (if 32 <= c as int <= 126 then [c]
               else ['\\', 'x', "0123456789abcdef"[h], "0123456789abcdef"[l]])
            + BinaryChars(post)
  {
    BinaryCharIsParts(c, h, l);
    BinaryAt(pre, c, post);
  }

  lemma BinaryAt(pre: string, c: char, post: string)
    ensures BinaryChars(pre + [c] + post) == BinaryChars(pre) + BinaryChar(c) + BinaryChars(post)
  {
    BinaryAppend(pre + [c], post);
    BinaryAppend(pre, [c]);
    BinaryOne(c);
  }

  lemma BinaryCharIsParts(c: char, h: nat, l: nat)
    requires c as int == 16 * h + l && h < 16 && l < 16
    ensures BinaryChar(c) == if 32 <= c as int <= 126 then [c]
                             else ['\\', 'x', "0123456789abcdef"[h], "0123456789abcdef"[l]]
  {
    var digits := "0123456789abcdef";
    HexOfParts(c as int, h, l);
    if !(32 <= c as int <= 126) { TwoDigitsOf(c, digits[h], digits[l]); }
  }

  lemma TwoDigitsOf(c: char, x: char, y: char)
    requires !IsPrint(c) && c as int < 256
    requires (if |HexOf(c as int)| < 2 then "0" else "") + HexOf(c as int) == [x, y]
    ensures BinaryChar(c) == ['\\', 'x', x, y]
  {
    var code := HexOf(c as int);
    assert c as int % 256 == c as int;
    Associative("\\x", if |code| < 2 then "0" else "", code);
  }

  lemma HexOfParts(n: nat, h: nat, l: nat)
    requires n == 16 * h + l && h < 16 && l < 16
    ensures n < 256
    ensures (if |HexOf(n)| < 2 then "0" else "") + HexOf(n) == ["0123456789abcdef"[h], "0123456789abcdef"[l]]
  {
    assert n / 16 == h && n % 16 == l;
  }

  lemma FirstQuote(a: string, b: string)
    requires '\'' !in a
    ensures Find(a + "'" + b, LITERAL_QUOTE) == |a| && LITERAL_QUOTE in a + "'" + b
  {
    var e := a + "'" + b;
    assert e[|a|] == '\'';
    assert forall i :: 0 <= i < |a| ==> e[i] == a[i];
  }

  lemma QuoteAndSome(a: string, b: string, q: string)
    requires |q| == 1
    ensures (a + q + b)[..|a|] == a
    ensures |a| <= |b| ==> (a + q + b)[2 * |a| + 1..] == b[|a|..]
  {
  }

  lemma QuoteAt(e: string, a: string, b: string)
    requires LITERAL_QUOTE in e && Find(e, LITERAL_QUOTE) == |a| && |e| == |a| + 1 + |b| && e[..|a|] == a
    requires |a| <= |b| ==> e[2 * |a| + 1..] == b[|a|..]
    ensures ReplaceQuote(e) == a + "\\x27" + if |a| <= |b| then b[|a|..] else []
  {
  }

  /** The loop over the quotes takes out, with the first of them, as many characters as stand before it. */
  lemma FirstQuoteReplaced(a: string, b: string)
    requires '\'' !in a
    ensures ReplaceQuotes(a) == a
    ensures ReplaceQuotes(a + "'" + b) == ReplaceQuotes(a + "\\x27" + if |a| <= |b| then b[|a|..] else [])
  {
    var e := a + "'" + b;
    FirstQuote(a, b);
    QuoteAndSome(a, b, "'");
    QuoteAt(e, a, b);
    OnePass(e);
  }

  lemma OnePass(e: string)
    requires LITERAL_QUOTE in e
    ensures ReplaceQuotes(e) == ReplaceQuotes(ReplaceQuote(e))
  {
  }

  /** One character that prints is put between single quotes, and a single quote between double ones. */
  lemma WrittenSingle(c: char, disableMultiLine: bool, isNumber: string -> bool)
    requires !IsBare([c], isNumber) && 32 <= c as int <= 126
    ensures Converted([c], disableMultiLine, isNumber) == if c == '\'' then "\"'\"" else ['\'', c, '\'']
  {
    assert "'" + [c] + "'" == ['\'', c, '\''];
    if c == '\'' { assert [c] == "'"; } else { assert [c][0] != "'"[0]; }
  }

  /** Longer text of printing characters, newlines and tabs goes between double quotes as it is when none of
      tab, newline, quote and backslash is in it. With one of them it is escaped, or, when it has more than a
      hundred characters and is not kept from it, put between triple single quotes as it is. */
  lemma WrittenQuoted(s: string, disableMultiLine: bool, isNumber: string -> bool)
    requires |s| != 1 && !IsBare(s, isNumber)
    requires forall i :: 0 <= i < |s| ==> 32 <= s[i] as int <= 126 || s[i] == '\n' || s[i] == '\t'
    ensures Converted(s, disableMultiLine, isNumber) ==
            if '\t' !in s && '\n' !in s && '"' !in s && '\\' !in s then "\"" + s + "\""
            else if |s| > 100 && !disableMultiLine then "'''" + s + "'''"
            else "\"" + Escaped(s) + "\""
  {
    if s == [] {
      assert "\"" + s + "\"" == "\"\"";
    } else {
      EscapableIs(s);
      WrittenPrintable(s, disableMultiLine, isNumber);
    }
  }

  lemma WrittenPrintable(s: string, disableMultiLine: bool, isNumber: string -> bool)
    requires |s| > 1 && !IsBare(s, isNumber)
    requires forall i :: 0 <= i < |s| ==> 32 <= s[i] as int <= 126 || s[i] == '\n' || s[i] == '\t'
    ensures Converted(s, disableMultiLine, isNumber) ==
            if !HasEscapable(s) then "\"" + s + "\""
            else if |s| > 100 && !disableMultiLine then "'''" + s + "'''"
            else "\"" + Escaped(s) + "\""
  {
    assert IsPrintable(s);
  }

  lemma EscapableIs(s: string)
    requires forall i :: 0 <= i < |s| ==> 32 <= s[i] as int <= 126 || s[i] == '\n' || s[i] == '\t'
    ensures HasEscapable(s) <==> '\t' in s || '\n' in s || '"' in s || '\\' in s
  {
    assert ESCAPED_CHARS[1] == '\t' && ESCAPED_CHARS[2] == '\n' && ESCAPED_CHARS[5] == '"' && ESCAPED_CHARS[6] == '\\';
    forall i | 0 <= i < |s| ensures s[i] in ESCAPED_CHARS <==> s[i] in ['\t', '\n', '"', '\\'] {
      EscapableChar(s[i]);
    }
  }

  lemma EscapableChar(c: char)
    requires 32 <= c as int <= 126 || c == '\n' || c == '\t'
    ensures c in ESCAPED_CHARS <==> c in ['\t', '\n', '"', '\\']
  {
    EscapeIs(c);
  }

  // ---------------------------------------------------------------------------------------------
  // Reading what somebody wrote by hand

  /** Whatever stands between backtick quotes is read as it stands. */
  lemma BacktickReads(t: string)
    ensures Process("`" + t + "`") == Unquoted(t)
  {
    var s := "`" + t + "`";
    assert s[0] == '`' && s[|s| - 1] == '`' && s[1..|s| - 1] == t;
    NotBinary(s);
  }

  /** Whatever stands between single quotes likewise, unless it is a binary string. */
  lemma LiteralQuoteReads(t: string)
    requires !(|t| >= 5 && t[..3] == "B\"(" && t[|t| - 2..] == ")\"")
    ensures Process("'" + t + "'") == Unquoted(t)
  {
    var s := "'" + t + "'";
    assert s[0] == '\'' && s[|s| - 1] == '\'' && s[1..|s| - 1] == t;
    if IsBinary(s) { QuotedBinary(t); }
  }

  lemma QuotedBinary(t: string)
    requires IsBinary("'" + t + "'")
    ensures |t| >= 5 && t[..3] == "B\"(" && t[|t| - 2..] == ")\""
  {
    var s := "'" + t + "'";
    if StartsWith(s, BINARY_OPEN) {
      Prefix(s, BINARY_OPEN, 0);
    } else {
      QuotedCloseApart(s);
      assert s[..4][1..] == t[..3] && ("'" + BINARY_OPEN)[1..] == "B\"(";
      assert s[|s| - 3..][..2] == t[|t| - 2..] && (BINARY_CLOSE + "'")[..2] == ")\"";
    }
  }

  /** A binary string is decoded, with the single quotes around it or without. */
  lemma BinaryStringReads(e: string)
    ensures Process("B\"(" + e + ")\"") == Unquoted(Decoded(e))
    ensures Process("'B\"(" + e + ")\"'") == Unquoted(Decoded(e))
  {
    var s := "B\"(" + e + ")\"";
    assert s[..3] == BINARY_OPEN && s[|s| - 2..] == BINARY_CLOSE && s[3..|s| - 2] == e;
    BinaryReads(e);
    BinaryQuoted(e);
  }

  /** A backslash, x or X, and two hexadecimal digits, small or capital, decode to the byte they denote; without
      a backslash nothing changes. */
  lemma BinaryEscapeReads(pre: string, x: char, c: char, d: char, h: nat, l: nat, rest: string)
    requires '\\' !in pre && (x == 'x' || x == 'X') && h < 16 && l < 16
    requires c == "0123456789abcdef"[h] || c == "0123456789ABCDEF"[h]
    requires d == "0123456789abcdef"[l] || d == "0123456789ABCDEF"[l]
    ensures Decoded(pre) == pre
    ensures Decoded(pre + ['\\', x, c, d] + rest) == pre + [(16 * h + l) as char] + Decoded(rest)
  {
    DigitIs(c, h);
    DigitIs(d, l);
    var tail := ['\\', x, c, d] + rest;
    assert tail[4..] == rest && HexEscapeAt(tail, 0);
    assert Decoded(tail) == [(16 * h + l) as char] + Decoded(rest);
    DecodedAfter(pre, tail);
    DecodedAfter(pre, []);
    assert pre + [] == pre;
    Associative(pre, ['\\', x, c, d], rest);
    Associative(pre, [(16 * h + l) as char], Decoded(rest));
  }

  lemma {:induction false} DecodedAfter(pre: string, rest: string)
    requires '\\' !in pre
    ensures Decoded(pre + rest) == pre + Decoded(rest)
  {
    if pre == [] {
      assert pre + rest == rest;
    } else {
      DecodedAfter(pre[1..], rest);
      assert pre[0] in pre;
      assert (pre + rest)[0] == pre[0] && (pre + rest)[1..] == pre[1..] + rest;
      assert [pre[0]] + (pre[1..] + Decoded(rest)) == pre + Decoded(rest);
    }
  }

  /** A backslash that begins no such escape stays. */
  lemma OtherBackslashStays(pre: string, rest: string)
    requires '\\' !in pre
    requires |rest| < 3 || (rest[0] != 'x' && rest[0] != 'X')
             || (rest[1] !in "0123456789abcdef" && rest[1] !in "0123456789ABCDEF")
             || (rest[2] !in "0123456789abcdef" && rest[2] !in "0123456789ABCDEF")
    ensures Decoded(pre + "\\" + rest) == pre + "\\" + Decoded(rest)
  {
    var tail := "\\" + rest;
    if |rest| >= 3 && (rest[0] == 'x' || rest[0] == 'X') {
      if rest[1] !in "0123456789abcdef" && rest[1] !in "0123456789ABCDEF" { NotADigit(rest[1]); }
      else { NotADigit(rest[2]); }
    }
    assert !HexEscapeAt(tail, 0);
    assert tail[0] == '\\' && tail[1..] == rest;
    DecodedAfter(pre, tail);
    Associative(pre, "\\", rest);
    Associative(pre, "\\", Decoded(rest));
  }

  /** Text that does not begin and end with the same quote, and is no binary string, is left alone. */
  lemma UnquotedReads(s: string)
    requires |s| <= 1 || s[0] != s[|s| - 1] || (s[0] != '"' && s[0] != '\'' && s[0] != '`')
    requires !(|s| >= 5 && s[..3] == "B\"(" && s[|s| - 2..] == ")\"")
    ensures Process(s) == Plain(s)
  {
    if |s| > 1 && IsBinary(s) { BinaryIs(s); }
  }

  lemma BinaryIs(s: string)
    requires IsBinary(s)
    ensures (s[0] == s[|s| - 1] == '\'') || (|s| >= 5 && s[..3] == "B\"(" && s[|s| - 2..] == ")\"")
  {
    if StartsWith(s, BINARY_OPEN) && EndsWith(s, BINARY_CLOSE) {
      CloseApart(s);
    } else {
      QuotedCloseApart(s);
      Prefix(s, "'" + BINARY_OPEN, 0);
      Suffix(s, BINARY_CLOSE + "'", 2);
    }
  }

  /** Between double quotes, \u and four digits read as a UTF-8 sequence, and a surrogate makes the reading
      fail. */
  lemma QuotedUnicodeReads(pre: string, d: string, v: seq<nat>, post: string)
    requires '\\' !in pre && '\\' !in post && DigitsOf(d, v) && |d| == 4
    ensures var code := 0x1000 * v[0] + 0x100 * v[1] + 0x10 * v[2] + v[3];
            Process("\"" + (pre + ("\\u" + d) + post) + "\"")
            == if 0xD800 <= code <= 0xDFFF then Invalid else Unquoted(pre + Codepoint(code).value + post)
  {
    UnicodeRead(pre, d, v, post);
    NothingToEscape(post);
    QuotedReads(pre + ("\\u" + d) + post);
  }
}
