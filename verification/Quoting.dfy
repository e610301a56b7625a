/** How ConfigBase writes a string value into a configuration file and reads it back, with the quote
    characters it has by default. Whether a text converts to a double is the caller's predicate
    `isNumber`. */
module Quoting {
  import opened Options
  import opened Escapes
  import opened BinaryStrings

  const STRING_QUOTE: char := '"'

  predicate IsPrintable(s: string) {
    forall i :: 0 <= i < |s| ==> IsPrint(s[i]) || s[i] == '\n' || s[i] == '\t'
  }

  // ---------------------------------------------------------------------------------------------
  // Writing and reading a value

  predicate NumberChars(s: string) { forall i :: 0 <= i < |s| ==> s[i] in "0123456789.-+eE" }

  /** A hexadecimal, octal or binary number. */
  predicate IsRadix(s: string) {
    && |s| >= 2 && s[0] == '0'
    && match s[1] {
         case 'x' => forall i :: 2 <= i < |s| ==> HexConvert(s[i]) >= 0
         case 'o' => forall i :: 2 <= i < |s| ==> '0' <= s[i] <= '7'
         case 'b' => forall i :: 2 <= i < |s| ==> s[i] == '0' || s[i] == '1'
         case _ => false
       }
  }

  /** The texts that are written without quotes. */
  predicate IsBare(s: string, isNumber: string -> bool) {
    || s in ["true", "false", "nan", "inf"]
    || (!StartsWith(s, "0x") && !StartsWith(s, "0X") && isNumber(s) && NumberChars(s))
    || IsRadix(s)
  }

  /** convert_arg_for_ini */
  function Converted(s: string, disableMultiLine: bool, isNumber: string -> bool): string {
    if s == [] then "\"\""
    else if IsBare(s, isNumber) then s
    else if |s| == 1 && IsPrint(s[0]) then (if s == "'" then "\"'\"" else "'" + s + "'")
    else if |s| == 1 || !IsPrintable(s) then BinaryEscaped(s)
    else if HasEscapable(s) && |s| > 100 && !disableMultiLine then "'''" + s + "'''"
    else if HasEscapable(s) then "\"" + Escaped(s) + "\""
    else "\"" + s + "\""
  }

  /** What process_quoted_string does: nothing, remove quotes, or throw. */
  datatype Processed = Plain(text: string) | Unquoted(text: string) | Invalid

  /** process_quoted_string */
  function Process(s: string): Processed {
    if |s| <= 1 then Plain(s)
    else if IsBinary(s) then Unquoted(Extracted(s))
    else
      var inner, first := s[1..|s| - 1], s[0];
      if first == STRING_QUOTE == s[|s| - 1] then
        match Unescaped(inner) { case None => Invalid case Some(t) => Unquoted(t) }
      else if (first == LITERAL_QUOTE || first == '`') && s[|s| - 1] == first then Unquoted(inner)
      else Plain(s)
  }

  method ConvertArgForIni(arg: string, disableMultiLine: bool, isNumber: string -> bool) returns (r: string)
    ensures r == Converted(arg, disableMultiLine, isNumber)
  {
    if arg == [] { return [STRING_QUOTE, STRING_QUOTE]; }
    if arg == "true" || arg == "false" || arg == "nan" || arg == "inf" { return arg; }
    if !StartsWith(arg, "0x") && !StartsWith(arg, "0X") {
      if isNumber(arg) {
        if NumberChars(arg) { return arg; }
      }
    }
    if |arg| == 1 {
      if !IsPrint(arg[0]) {
        r := BinaryEscapeString(arg);
        return;
      }
      if arg == "'" { return [STRING_QUOTE] + "'" + [STRING_QUOTE]; }
      return [LITERAL_QUOTE] + arg + [LITERAL_QUOTE];
    }
    var radix := AllDigits(arg);
    if radix { return arg; }
    if !IsPrintable(arg) {
      r := BinaryEscapeString(arg);
      return;
    }
    if HasEscapable(arg) {
      if |arg| > 100 && !disableMultiLine { return "'''" + arg + "'''"; }
      var escaped := AddEscapedCharacters(arg);
      return [STRING_QUOTE] + escaped + [STRING_QUOTE];
    }
    r := [STRING_QUOTE] + arg + [STRING_QUOTE];
  }

  /** The test for hexadecimal, octal and binary numbers. */
  method AllDigits(arg: string) returns (r: bool)
    requires |arg| > 1
    ensures r == IsRadix(arg)
  {
    r := false;
    if arg[0] == '0' {
      if arg[1] == 'x' {
        r := forall i :: 2 <= i < |arg| ==> HexConvert(arg[i]) >= 0;
      } else if arg[1] == 'o' {
        r := forall i :: 2 <= i < |arg| ==> '0' <= arg[i] <= '7';
      } else if arg[1] == 'b' {
        r := forall i :: 2 <= i < |arg| ==> arg[i] == '0' || arg[i] == '1';
      }
    }
  }

  method RemoveOuter(str: string, key: char) returns (r: string)
    ensures r == if |str| > 1 && str[0] == key == str[|str| - 1] then str[1..|str| - 1] else str
  {
    r := str;
    if |r| > 1 && r[0] == key {
      if r[0] == r[|r| - 1] {
        r := r[..|r| - 1];
        r := r[1..];
      }
    }
  }

  method ProcessQuotedString(str: string) returns (r: Processed)
    ensures r == Process(str)
  {
    if |str| <= 1 { return Plain(str); }
    if IsBinary(str) {
      var text := ExtractBinaryString(str);
      return Unquoted(text);
    }
    if str[0] == STRING_QUOTE && str[|str| - 1] == STRING_QUOTE {
      var inner := RemoveOuter(str, STRING_QUOTE);
      if Find(inner, BACKSLASH) < |inner| {
        var text := RemoveEscapedCharacters(inner);
        if text == None { return Invalid; }
        return Unquoted(text.value);
      }
      NothingToEscape(inner);
      return Unquoted(inner);
    }
    if (str[0] == LITERAL_QUOTE || str[0] == '`') && str[|str| - 1] == str[0] {
      var inner := RemoveOuter(str, str[0]);
      return Unquoted(inner);
    }
    r := Plain(str);
  }

  // ---------------------------------------------------------------------------------------------
  // The round trip

  lemma BinaryReads(e: string)
    ensures Process("'" + BINARY_OPEN + e + BINARY_CLOSE + "'") == Unquoted(Decoded(e))
  {
    var s := "'" + BINARY_OPEN + e + BINARY_CLOSE + "'";
    assert s[..4] == "'" + BINARY_OPEN && s[|s| - 3..] == BINARY_CLOSE + "'" && s[4..|s| - 3] == e;
    assert s[..3][0] == '\'';
    assert !StartsWith(s, BINARY_OPEN);
  }

  /** A text that does not print reads back exactly when no quote stands inside it and it holds nothing
      that reads as an escape already. */
  lemma BinaryRoundTrip(s: string)
    requires Bytes(s) && exists i :: 0 <= i < |s| && !IsPrint(s[i])
    ensures Process(BinaryEscaped(s)) == Unquoted(s) <==> EndQuotes(s) && !HasHexEscape(s)
    ensures Process(BinaryEscaped(s)).Unquoted?
  {
    Longer(s);
    BinaryReads(ReplaceQuotes(BinaryChars(s)));
    BinaryExact(s);
  }

  lemma QuotedReads(t: string)
    ensures Process("\"" + t + "\"") == match Unescaped(t) { case None => Invalid case Some(u) => Unquoted(u) }
  {
    var s := "\"" + t + "\"";
    assert s[0] == '"' && s[|s| - 1] == '"' && s[1..|s| - 1] == t;
    NotBinary(s);
  }

  lemma LiteralReads(t: string)
    requires |t| <= 1 || t[0] != 'B'
    ensures Process("'" + t + "'") == Unquoted(t)
  {
    var s := "'" + t + "'";
    assert s[0] == '\'' && s[|s| - 1] == '\'' && s[1..|s| - 1] == t;
    assert t != [] ==> s[1] == t[0];
    NotBinary(s);
  }

  /** Binary strings start with a B, or a quote and a B. */
  lemma NotBinary(s: string)
    requires s != [] && s[0] != 'B' && (s[0] == LITERAL_QUOTE && |s| > 3 ==> s[1] != 'B')
    ensures !IsBinary(s)
  {
    if StartsWith(s, BINARY_OPEN) { Prefix(s, BINARY_OPEN, 0); }
    if StartsWith(s, "'" + BINARY_OPEN) {
      Prefix(s, "'" + BINARY_OPEN, 0);
      Prefix(s, "'" + BINARY_OPEN, 1);
    }
  }

  /** The characters of texts without quotes. */
  predicate BareChar(c: char) {
    'a' <= c <= 'z' || ('A' <= c <= 'Z' && c != 'B') || '0' <= c <= '9' || c == '.' || c == '-' || c == '+'
  }

  predicate IsPlain(s: string) {
    forall i :: 0 <= i < |s| ==> BareChar(s[i]) || (s[i] == 'B' && i > 0)
  }

  lemma NumberIsPlain(s: string)
    requires NumberChars(s)
    ensures IsPlain(s)
  {
    forall i | 0 <= i < |s| ensures BareChar(s[i]) { NumberChar(s[i]); }
  }

  lemma NumberChar(c: char)
    requires c in "0123456789.-+eE"
    ensures BareChar(c)
  {
  }

  lemma RadixIsPlain(s: string)
    requires IsRadix(s)
    ensures IsPlain(s)
  {
  }

  lemma BareIsPlain(s: string, isNumber: string -> bool)
    requires IsBare(s, isNumber)
    ensures IsPlain(s)
  {
    if IsRadix(s) { RadixIsPlain(s); } else if NumberChars(s) { NumberIsPlain(s); }
  }

  lemma PlainNeedsNothing(s: string)
    requires IsPlain(s)
    ensures IsPrintable(s) && !HasEscapable(s) && forall i :: 0 <= i < |s| ==> IsPrint(s[i])
  {
  }

  lemma BareReads(s: string, isNumber: string -> bool)
    requires s != [] && IsBare(s, isNumber)
    ensures Process(s) == Plain(s)
  {
    BareIsPlain(s, isNumber);
    assert BareChar(s[0]);
    NotBinary(s);
  }

  /** A text of printable characters that is written over several lines. */
  predicate MultiLine(s: string, disableMultiLine: bool) {
    HasEscapable(s) && |s| > 100 && !disableMultiLine
  }

  lemma BareRoundTrip(s: string, disableMultiLine: bool, isNumber: string -> bool)
    requires IsBare(s, isNumber) && s != []
    ensures Process(Converted(s, disableMultiLine, isNumber)) == Plain(s)
    ensures IsPrintable(s) && !MultiLine(s, disableMultiLine)
  {
    BareReads(s, isNumber);
    BareIsPlain(s, isNumber);
    PlainNeedsNothing(s);
  }

  lemma SingleRoundTrip(s: string, disableMultiLine: bool, isNumber: string -> bool)
    requires |s| == 1 && Bytes(s) && !IsBare(s, isNumber)
    ensures Process(Converted(s, disableMultiLine, isNumber)) == Unquoted(s)
  {
    if !IsPrint(s[0]) {
      assert !HasHexEscape(s);
      BinaryRoundTrip(s);
    } else if s == "'" {
      NothingToEscape(s);
      QuotedReads(s);
      assert "\"" + s + "\"" == "\"'\"";
    } else {
      LiteralReads(s);
    }
  }

  lemma NoEscapable(s: string)
    requires !HasEscapable(s)
    ensures BACKSLASH !in s
  {
    assert ESCAPED_CHARS[6] == BACKSLASH;
    assert forall i :: 0 <= i < |s| ==> s[i] !in ESCAPED_CHARS;
  }

  lemma PrintableRoundTrip(s: string, disableMultiLine: bool, isNumber: string -> bool)
    requires |s| > 1 && IsPrintable(s) && !IsBare(s, isNumber)
    ensures var r := Process(Converted(s, disableMultiLine, isNumber));
            r == if MultiLine(s, disableMultiLine) then Unquoted("''" + s + "''") else Unquoted(s)
  {
    if MultiLine(s, disableMultiLine) {
      LiteralReads("''" + s + "''");
      assert "'" + ("''" + s + "''") + "'" == "'''" + s + "'''";
    } else if HasEscapable(s) {
      QuotedReads(Escaped(s));
      UnescapedOfEscaped(s);
    } else {
      NoEscapable(s);
      NothingToEscape(s);
      QuotedReads(s);
    }
  }

  /** Reading back what was written for a value gives the value, whatever texts count as numbers: for
      printable text exactly when it is not written over several lines (then process_quoted_string
      is not what reads it), and for other text exactly when no quote stands inside it, other than as
      its first or last character, and it holds no backslash, x and two hexadecimal digits. */
  lemma RoundTrip(s: string, disableMultiLine: bool, isNumber: string -> bool)
    requires Bytes(s)
    ensures Process(Converted(s, disableMultiLine, isNumber)) in [Plain(s), Unquoted(s)] <==>
              if IsPrintable(s) then !MultiLine(s, disableMultiLine) else EndQuotes(s) && !HasHexEscape(s)
  {
    if s == [] {
      NothingToEscape(s);
      QuotedReads(s);
      assert "\"" + s + "\"" == "\"\"";
    } else if IsBare(s, isNumber) {
      BareRoundTrip(s, disableMultiLine, isNumber);
    } else if |s| == 1 {
      SingleRoundTrip(s, disableMultiLine, isNumber);
      assert !HasHexEscape(s);
    } else if IsPrintable(s) {
      PrintableRoundTrip(s, disableMultiLine, isNumber);
      assert |"''" + s + "''"| > |s|;
    } else {
      BinaryRoundTrip(s);
    }
  }

  lemma QuoteReplaced()
    ensures ReplaceQuotes("a'b\\x01") == "a\\x27\\x01"
  {
    var e := "a'b\\x01";
    var at := Find(e, LITERAL_QUOTE);
    assert e[0] != LITERAL_QUOTE && e[1] == LITERAL_QUOTE;
    assert at == 1;
    assert ReplaceQuote(e) == "a\\x27\\x01";
  }

  lemma OneEscaped(c: char)
    requires c == '\U{1}'
    ensures BinaryChars([c]) == "\\x01"
  {
    assert HexOf(1) == "1" && BinaryChar(c) == "\\x" + "0" + "1";
  }

  lemma {:induction false} PrintsAsIs(s: string)
    requires AllPrint(s)
    ensures BinaryChars(s) == s
  {
    if s != [] { PrintsAsIs(s[1..]); }
  }

  lemma TextEscaped()
    ensures BinaryChars("a'b\U{1}") == "a'b\\x01"
  {
    assert "a'b\U{1}" == "a'b" + ['\U{1}'];
    BinaryAppend("a'b", ['\U{1}']);
    PrintsAsIs("a'b");
    OneEscaped('\U{1}');
  }

  lemma TextDecoded()
    ensures Decoded("a\\x27\\x01") == "a'\U{1}"
  {
    EscapeDecodes('0', '1', "");
    EscapeDecodes('2', '7', "\\x01");
    assert "a\\x27\\x01"[1..] == "\\x27\\x01" == "\\x27" + "\\x01";
    assert "\\x01" == "\\x01" + "";
  }

  /** The text a'b with a character that does not print comes back without the b. */
  lemma BinaryLosesText()
    ensures Process(BinaryEscaped("a'b\U{1}")) == Unquoted("a'\U{1}")
  {
    TextEscaped();
    QuoteReplaced();
    TextDecoded();
    BinaryReads("a\\x27\\x01");
  }
}
