/** internal/mcpserver/pull.go: `kdlQuote`, against a reader of quoted strings as section 3.11 of the KDL
    2.0 specification defines them. */
module KdlQuote {
  import opened Wrappers

  // ---------------------------------------------------------------- the writer

  /** `unicode.IsControl`. */
  predicate IsControl(c: char) {
    var n := c as int; n <= 0x1F || 0x7F <= n <= 0x9F
  }

  function HexDigit(n: nat): char
    requires n < 16
  {
    "0123456789abcdef"[n]
  }

  function Hex(n: nat): string {
    if n < 16 then [HexDigit(n)] else Hex(n / 16) + [HexDigit(n % 16)]
  }

  function Escape(c: char): string {
    if c == '\\' then "\\\\"
    else if c == '"' then "\\\""
    else if c == '\n' then "\\n"
    else if c == '\r' then "\\r"
    else if c == '\t' then "\\t"
    else if IsControl(c) then "\\u{" + Hex(c as int) + "}"
    else [c]
  }

  function Body(s: string): string {
    if s == "" then "" else Escape(s[0]) + Body(s[1..])
  }

  function Quote(s: string): string { "\"" + Body(s) + "\"" }

  method WriteQuoted(s: string) returns (b: string)
    ensures b == Quote(s)
  {
    b := "\"";
    var i := 0;
    while i < |s|
      invariant 0 <= i <= |s|
      invariant b + Body(s[i..]) == "\"" + Body(s)
    {
      assert s[i..][1..] == s[i + 1..];
      ghost var rest := Body(s[i + 1..]);
      assert b + (Escape(s[i]) + rest) == (b + Escape(s[i])) + rest;
      b := b + Escape(s[i]);
      i := i + 1;
    }
    assert s[|s|..] == "";
    b := b + "\"";
  }

  // ---------------------------------------------------------------- the reader

  predicate IsNewline(c: char) {
    var n := c as int; 0x0A <= n <= 0x0D || n == 0x85 || n == 0x2028 || n == 0x2029
  }

  predicate IsBlank(c: char) {
    var n := c as int;
    n == 0x09 || n == 0x20 || n == 0xA0 || n == 0x1680 || 0x2000 <= n <= 0x200A || n == 0x202F || n == 0x205F || n == 0x3000
  }

  /** Code points a document may not hold literally. */
  predicate IsDisallowed(c: char) {
    var n := c as int;
    || n <= 0x08 || 0x0E <= n <= 0x1F || n == 0x7F
    || 0x200E <= n <= 0x200F || 0x202A <= n <= 0x202E || 0x2066 <= n <= 0x2069 || n == 0xFEFF
  }

  function HexValue(c: char): Option<nat> {
    if '0' <= c <= '9' then Some(c as int - '0' as int)
    else if 'a' <= c <= 'f' then Some(c as int - 'a' as int + 10)
    else if 'A' <= c <= 'F' then Some(c as int - 'A' as int + 10)
    else None
  }

  /** One to six hex digits and a closing brace. */
  function ScanHex(t: string, digits: nat, acc: nat): Option<(nat, string)> {
    if t == "" then None
    else if t[0] == '}' then (if digits > 0 then Some((acc, t[1..])) else None)
    else if digits < 6 && HexValue(t[0]).Some? then ScanHex(t[1..], digits + 1, acc * 16 + HexValue(t[0]).value)
    else None
  }

  lemma {:induction false} ScanHexShrinks(t: string, digits: nat, acc: nat)
    ensures ScanHex(t, digits, acc).Some? ==> |ScanHex(t, digits, acc).value.1| < |t|
  {
    if t != "" && t[0] != '}' && digits < 6 && HexValue(t[0]).Some? {
      ScanHexShrinks(t[1..], digits + 1, acc * 16 + HexValue(t[0]).value);
    }
  }

  predicate IsScalar(n: nat) { n < 0xD800 || 0xE000 <= n < 0x11_0000 }

  /** What a backslash stands for: the text it denotes, and what follows it. */
  function ScanEscape(t: string): (r: Option<(string, string)>)
    ensures r.Some? ==> |r.value.1| < |t|
  {
    if t == "" then None
    else if t[0] == 'n' then Some(("\n", t[1..]))
    else if t[0] == 'r' then Some(("\r", t[1..]))
    else if t[0] == 't' then Some(("\t", t[1..]))
    else if t[0] == '\\' then Some(("\\", t[1..]))
    else if t[0] == '"' then Some(("\"", t[1..]))
    else if t[0] == 'b' then Some(([0x08 as char], t[1..]))
    else if t[0] == 'f' then Some(([0x0C as char], t[1..]))
    else if t[0] == 's' then Some((" ", t[1..]))
    else if IsBlank(t[0]) || IsNewline(t[0]) then Some(("", SkipSpace(t[1..])))
    else if |t| > 1 && t[0] == 'u' && t[1] == '{' then
      ScanHexShrinks(t[2..], 0, 0);
      var r := ScanHex(t[2..], 0, 0);
      if r.Some? && IsScalar(r.value.0) then Some(([r.value.0 as char], r.value.1)) else None
    else None
  }

  function SkipSpace(t: string): (r: string)
    ensures |r| <= |t|
  {
    if t != "" && (IsBlank(t[0]) || IsNewline(t[0])) then SkipSpace(t[1..]) else t
  }

  /** From just inside the opening quote: the string's value, and the text after the closing quote. */
  function Scan(t: string): Option<(string, string)>
    decreases |t|
  {
    if t == "" then None
    else if t[0] == '"' then Some(("", t[1..]))
    else if t[0] == '\\' then
      match ScanEscape(t[1..])
      case None => None
      case Some((part, rest)) =>
        match Scan(rest)
        case None => None
        case Some((value, after)) => Some((part + value, after))
    else if IsNewline(t[0]) || IsDisallowed(t[0]) then None
    else
      match Scan(t[1..])
      case None => None
      case Some((value, after)) => Some(([t[0]] + value, after))
  }

  function Unquote(t: string): Option<string> {
    if t == "" || t[0] != '"' then None
    else
      match Scan(t[1..])
      case None => None
      case Some((value, after)) => if after == "" then Some(value) else None
  }

  // ---------------------------------------------------------------- the round trip

  /** Banned as a literal, and not escaped by the writer: the line and paragraph separators, the
      direction marks, and the byte order mark. */
  predicate Unwritable(c: char) { (IsNewline(c) || IsDisallowed(c)) && !IsControl(c) }

  lemma UnwritableIff(c: char)
    ensures Unwritable(c) <==>
      var n := c as int; 0x200E <= n <= 0x200F || 0x2028 <= n <= 0x202E || 0x2066 <= n <= 0x2069 || n == 0xFEFF
  {
  }

  /** The writer leaves a code point bare exactly when it is no quote, no backslash and no control. */
  lemma WrittenBareIff(c: char)
    ensures Escape(c) == [c] <==> c != '"' && c != '\\' && c as int > 0x1F && !(0x7F <= c as int <= 0x9F)
  {
  }

  lemma HexDigitReads(n: nat)
    requires n < 16
    ensures HexValue(HexDigit(n)) == Some(n) && HexDigit(n) != '}'
  {
  }

  lemma {:induction false} HexReadsBack(n: nat, rest: string)
    requires n < 0x100
    ensures ScanHex(Hex(n) + "}" + rest, 0, 0) == Some((n, rest))
  {
    var t := Hex(n) + "}" + rest;
    if n < 16 {
      HexDigitReads(n);
      assert t[1..] == "}" + rest;
      assert ("}" + rest)[1..] == rest;
    } else {
      var hi, lo := n / 16, n % 16;
      HexDigitReads(hi);
      HexDigitReads(lo);
      assert Hex(n) == [HexDigit(hi)] + [HexDigit(lo)];
      assert t[0] == HexDigit(hi) && t[1..] == [HexDigit(lo)] + ("}" + rest);
      assert t[1..][1..] == "}" + rest;
      assert ("}" + rest)[1..] == rest;
      assert ScanHex(t[1..][1..], 2, n) == Some((n, rest));
      assert ScanHex(t[1..], 1, hi) == ScanHex(t[1..][1..], 2, hi * 16 + lo);
    }
  }

  lemma {:induction false} EscapeReadsBack(c: char, rest: string)
    requires !Unwritable(c)
    ensures Scan(Escape(c) + rest) == match Scan(rest)
                                      case None => None
                                      case Some((value, after)) => Some(([c] + value, after))
  {
    var t := Escape(c) + rest;
    if Escape(c) == [c] {
      assert t[1..] == rest;
    } else {
      EscapeDenotes(c, rest);
      assert t[0] == '\\' && t[1..] == Escape(c)[1..] + rest;
    }
  }

  lemma EscapeDenotes(c: char, rest: string)
    requires Escape(c) != [c]
    ensures |Escape(c)| >= 2 && Escape(c)[0] == '\\' && ScanEscape(Escape(c)[1..] + rest) == Some(([c], rest))
  {
    if c == '\\' || c == '"' || c == '\n' || c == '\r' || c == '\t' {
      assert (Escape(c)[1..] + rest)[1..] == rest;
    } else {
      assert Escape(c)[1..] + rest == "u{" + (Hex(c as int) + "}" + rest);
      CodePointReadsBack(c, rest);
    }
  }

  lemma {:induction false} CodePointReadsBack(c: char, rest: string)
    requires c as int < 0x100
    ensures ScanEscape("u{" + (Hex(c as int) + "}" + rest)) == Some(([c], rest))
  {
    var hex := Hex(c as int) + "}" + rest;
    HexReadsBack(c as int, rest);
    assert ("u{" + hex)[2..] == hex;
  }

  lemma {:induction false} UnwritableStopsScan(c: char, rest: string)
    requires Unwritable(c)
    ensures Scan(Escape(c) + rest).None?
  {
    assert Escape(c) == [c] && (Escape(c) + rest)[0] == c;
  }

  ghost predicate HoldsUnwritable(s: string) { exists i :: 0 <= i < |s| && Unwritable(s[i]) }

  lemma HoldsUnwritableSplits(c: char, rest: string)
    ensures HoldsUnwritable([c] + rest) <==> Unwritable(c) || HoldsUnwritable(rest)
  {
    var s := [c] + rest;
    if i :| 0 <= i < |s| && Unwritable(s[i]) {
      assert i > 0 ==> s[i] == rest[i - 1];
    }
    if Unwritable(c) { assert Unwritable(s[0]); }
    if i :| 0 <= i < |rest| && Unwritable(rest[i]) {
      assert Unwritable(s[i + 1]);
    }
  }

  /** Reading a quoted string back gives the string and stops exactly at its closing quote, whatever
      follows; a single unwritable code point makes the document unreadable instead. */
  lemma {:induction false} BodyReadsBack(s: string, rest: string)
    ensures Scan(Body(s) + "\"" + rest) == if HoldsUnwritable(s) then None else Some((s, rest))
  {
    if s == "" {
      assert Body(s) + "\"" + rest == "\"" + rest;
      assert ("\"" + rest)[1..] == rest;
    } else {
      var tail := Body(s[1..]) + "\"" + rest;
      assert Body(s) + "\"" + rest == Escape(s[0]) + tail;
      BodyReadsBack(s[1..], rest);
      assert s == [s[0]] + s[1..];
      HoldsUnwritableSplits(s[0], s[1..]);
      if Unwritable(s[0]) {
        UnwritableStopsScan(s[0], tail);
      } else {
        EscapeReadsBack(s[0], tail);
      }
    }
  }

  /** A string survives quoting exactly when it holds nothing unwritable. */
  lemma QuoteRoundTripIff(s: string)
    ensures Unquote(Quote(s)) == Some(s) <==> !HoldsUnwritable(s)
    ensures Unquote(Quote(s)) == Some(s) || Unquote(Quote(s)) == None
  {
    BodyReadsBack(s, "");
    assert Quote(s)[1..] == Body(s) + "\"" + "";
  }
}
