/**
 JSON string literals: how they are written (json_util.c) and read back (json_reader.c). Characters stand for bytes; a
 text is a C string, so position |t|, like a NUL byte, is its end.
 */
module JsonStrings {
  import opened Decimals

  const NUL: char := 0 as char

  function Peek(t: string, p: nat): char {
    if p < |t| then t[p] else NUL
  }

  // ---- writing ----------------------------------------------------------------------------------

  function HexChar(d: nat): (c: char)
    requires d < 16
    ensures HexDigit(c) == d
  {
    if d < 10 then ('0' as int + d) as char else ('a' as int + (d - 10)) as char
  }

  /** What json_write_string emits for one character. */
  function Esc(c: char): (w: string)
    ensures w != ""
  {
    if c == '"' then "\\\""
    else if c == '\\' then "\\\\"
    else if c == '\n' then "\\n"
    else if c == '\r' then "\\r"
    else if c == '\t' then "\\t"
    else if c as int < 0x20 then ControlText(c)
    else [c]
  }

  /** A control character in hexadecimal. */
  function ControlText(c: char): (w: string)
    requires c as int < 0x20
    ensures |w| == 6
  {
    "\\u00" + [HexChar(c as int / 16), HexChar(c as int % 16)]
  }

  /** What it emits for the first m characters of s. */
  function Escaped(s: string, m: nat): string
    requires m <= |s|
  {
    if m == 0 then "" else Escaped(s, m - 1) + Esc(s[m - 1])
  }

  /** The whole literal. */
  function Quoted(s: string): string {
    "\"" + Escaped(s, |s|) + "\""
  }

  predicate NulFree(s: string) {
    forall i :: 0 <= i < |s| ==> s[i] != NUL
  }

  /** json_write_string onto the text written so far. */
  method WriteString(out: string, s: string) returns (out': string)
    requires NulFree(s)
    ensures out' == out + Quoted(s)
  {
    hide Esc, NulFree;
    out' := out + "\"";
    for i := 0 to |s|
      invariant out' == out + ("\"" + Escaped(s, i))
    {
      out' := out' + Esc(s[i]);
    }
    out' := out' + "\"";
  }

  // ---- reading ----------------------------------------------------------------------------------

  datatype ErrorKind = ExpectedQuote | BadUnicode | BadEscape | Unterminated | BadNumber | UnexpectedChar
                     | UnexpectedEnd | ExpectedArrayEnd | ExpectedColon | ExpectedObjectEnd | TrailingData

  datatype Error = Error(kind: ErrorKind, line: nat)

  /** A parsed value with the position and line behind it, or the first error. */
  datatype Parsed<T> = Ok(value: T, next: nat, line: nat) | Failed(error: Error)

  function HexDigit(c: char): int {
    if '0' <= c <= '9' then c as int - '0' as int
    else if 'a' <= c <= 'f' then c as int - 'a' as int + 10
    else if 'A' <= c <= 'F' then c as int - 'A' as int + 10
    else -1
  }

  const DIGITS := "0123456789abcdef"
  const CAPITALS := "0123456789ABCDEF"

  /** A hexadecimal digit is a character of either list, and counts by its place there. */
  lemma HexDigitIs(c: char, d: nat)
    requires d < 16
    ensures HexDigit(c) == d <==> c == DIGITS[d] || c == CAPITALS[d]
    ensures -1 <= HexDigit(c) < 16
  {
  }

  /** The bytes a \u escape stands for. */
  function Utf8(cp: nat): (bytes: string)
    requires cp < 0x1_0000
    ensures 1 <= |bytes| <= 3
  {
    if cp < 0x80 then [cp as char]
    else if cp < 0x800 then [(0xc0 + cp / 64) as char, (0x80 + cp % 64) as char]
    else [(0xe0 + cp / 4096) as char, (0x80 + cp / 64 % 64) as char, (0x80 + cp % 64) as char]
  }

  /** The bytes are the UTF-8 encoding of a code point, as in section 3 of RFC 3629. */
  predicate EncodesUtf8(bytes: string, cp: nat) {
    match |bytes|
    case 1 => cp < 0x80 && bytes[0] as int == cp
    case 2 => 0x80 <= cp && Lead(bytes[0], 0xc0, 32) && Trail(bytes[1])
              && cp == 64 * (bytes[0] as int - 0xc0) + (bytes[1] as int - 0x80)
    case 3 => 0x800 <= cp && Lead(bytes[0], 0xe0, 16) && Trail(bytes[1]) && Trail(bytes[2])
              && cp == 4096 * (bytes[0] as int - 0xe0) + 64 * (bytes[1] as int - 0x80) + (bytes[2] as int - 0x80)
    case _ => false
  }

  predicate Lead(c: char, base: nat, n: nat) {
    base <= c as int < base + n
  }

  predicate Trail(c: char) {
    0x80 <= c as int < 0xc0
  }

  lemma Utf8Encodes(cp: nat)
    requires cp < 0x1_0000
    ensures EncodesUtf8(Utf8(cp), cp)
  {
  }

  /** One plain character or escape inside a literal. */
  datatype Unit = Unit(bytes: string, next: nat, newline: bool) | BadUnit(kind: ErrorKind)

  predicate Inside(t: string, p: nat) {
    Peek(t, p) != NUL && Peek(t, p) != '"'
  }

  function UnicodeAt(t: string, p: nat): (u: Unit)
    requires p <= |t|
    ensures u.Unit? ==> u.next == p + 4 <= |t| && 1 <= |u.bytes| <= 3 && !u.newline
  {
    var d0, d1 := HexDigit(Peek(t, p)), HexDigit(Peek(t, p + 1));
    var d2, d3 := HexDigit(Peek(t, p + 2)), HexDigit(Peek(t, p + 3));
    if d0 < 0 || d1 < 0 || d2 < 0 || d3 < 0 then BadUnit(BadUnicode)
    else Unit(Utf8(d0 * 4096 + d1 * 256 + d2 * 16 + d3), p + 4, false)
  }

  function SimpleEscape(c: char): string {
    match c
    case '"' => "\""
    case '\\' => "\\"
    case '/' => "/"
    case 'b' => [8 as char]
    case 'f' => [12 as char]
    case 'n' => "\n"
    case 'r' => "\r"
    case 't' => "\t"
    case _ => ""
  }

  function UnitAt(t: string, p: nat): (u: Unit)
    requires Inside(t, p)
    ensures u.Unit? ==> p < u.next <= |t|
  {
    if t[p] != '\\' then Unit([t[p]], p + 1, t[p] == '\n')
    else if Peek(t, p + 1) == 'u' then UnicodeAt(t, p + 2)
    else
      var e := SimpleEscape(Peek(t, p + 1));
      if e == "" then BadUnit(BadEscape) else Unit(e, p + 2, false)
  }

  /** The rest of a literal from inside it, up to and with the closing quote. */
  function BodyAt(t: string, p: nat, line: nat): (r: Parsed<string>)
    requires p <= |t|
    ensures r.Ok? ==> p < r.next <= |t|
    decreases |t| - p
  {
    if Peek(t, p) == '"' then Ok("", p + 1, line)
    else if Peek(t, p) == NUL then Failed(Error(Unterminated, line))
    else
      match UnitAt(t, p)
      case BadUnit(kind) => Failed(Error(kind, line))
      case Unit(bytes, next, newline) =>
        match BodyAt(t, next, if newline then line + 1 else line)
        case Failed(e) => Failed(e)
        case Ok(s, end, line') => Ok(bytes + s, end, line')
  }

  /** A literal, from its opening quote. */
  function StringAt(t: string, p: nat, line: nat): (r: Parsed<string>)
    requires p <= |t|
    ensures r.Ok? ==> p < r.next <= |t|
  {
    if Peek(t, p) != '"' then Failed(Error(ExpectedQuote, line)) else BodyAt(t, p + 1, line)
  }

  // ---- the length scan before decoding ----------------------------------------------------------

  /** Where one step of the scan goes. */
  function ScanStep(t: string, p: nat): (next: nat)
    requires Inside(t, p)
    ensures p < next <= |t|
  {
    if t[p] == '\\' && Peek(t, p + 1) != NUL then p + 2 else p + 1
  }

  /** Steps of the scan up to a quote or the end of the text. */
  function ScanCount(t: string, p: nat): nat
    requires p <= |t|
    decreases |t| - p
  {
    if Inside(t, p) then 1 + ScanCount(t, ScanStep(t, p)) else 0
  }

  function ScanEnd(t: string, p: nat): (end: nat)
    requires p <= |t|
    ensures p <= end <= |t| && !Inside(t, end)
    decreases |t| - p
  {
    if Inside(t, p) then ScanEnd(t, ScanStep(t, p)) else p
  }

  lemma HexIsPlain(t: string, p: nat)
    requires p <= |t| && HexDigit(Peek(t, p)) >= 0
    ensures Inside(t, p) && ScanStep(t, p) == p + 1
    ensures ScanCount(t, p) == 1 + ScanCount(t, p + 1) && ScanEnd(t, p) == ScanEnd(t, p + 1)
  {
  }

  /** Decoding a unit keeps to the scan's steps and writes no more bytes than the scan counted. */
  lemma UnitWithinScan(t: string, p: nat)
    requires Inside(t, p) && UnitAt(t, p).Unit?
    ensures var u := UnitAt(t, p);
            ScanEnd(t, p) == ScanEnd(t, u.next) && ScanCount(t, p) >= ScanCount(t, u.next) + |u.bytes|
  {
    if t[p] == '\\' {
      assert ScanStep(t, p) == p + 2;
      assert ScanCount(t, p) == 1 + ScanCount(t, p + 2) && ScanEnd(t, p) == ScanEnd(t, p + 2);
      if t[p + 1] == 'u' {
        HexIsPlain(t, p + 2);
        HexIsPlain(t, p + 3);
        HexIsPlain(t, p + 4);
        HexIsPlain(t, p + 5);
      }
    }
  }

  /** For every accepted literal the scan stops at the closing quote, and the decoded text fits what it counted. */
  lemma {:induction false} ScanAgrees(t: string, p: nat, line: nat)
    requires p <= |t| && BodyAt(t, p, line).Ok?
    ensures var r := BodyAt(t, p, line);
            ScanEnd(t, p) + 1 == r.next && t[ScanEnd(t, p)] == '"' && |r.value| <= ScanCount(t, p)
    decreases |t| - p
  {
    if Peek(t, p) != '"' {
      var u := UnitAt(t, p);
      UnitWithinScan(t, p);
      ScanAgrees(t, u.next, if u.newline then line + 1 else line);
    }
  }

  // ---- how far decoding looks -------------------------------------------------------------------

  /** The last position looked at to decode one unit; all four places of a \u escape are. */
  function UnitReach(t: string, p: nat): nat
    requires Inside(t, p)
  {
    if t[p] != '\\' then p else if Peek(t, p + 1) == 'u' then p + 5 else p + 1
  }

  /** The last position looked at from inside a literal on. */
  function BodyReach(t: string, p: nat): (r: nat)
    requires p <= |t|
    ensures r >= p
    decreases |t| - p
  {
    if !Inside(t, p) then p
    else
      match UnitAt(t, p)
      case BadUnit(_) => UnitReach(t, p)
      case Unit(_, next, _) =>
        var r := BodyReach(t, next);
        if UnitReach(t, p) > r then UnitReach(t, p) else r
  }

  /** A good unit is looked at no further than where it ends. */
  lemma UnitWithinNext(t: string, p: nat)
    requires Inside(t, p) && UnitAt(t, p).Unit?
    ensures UnitReach(t, p) < UnitAt(t, p).next <= |t|
  {
  }

  /** Of an accepted literal nothing behind the closing quote is looked at. */
  lemma {:induction false} ReachOfAccepted(t: string, p: nat, line: nat)
    requires p <= |t| && BodyAt(t, p, line).Ok?
    ensures BodyReach(t, p) + 1 == BodyAt(t, p, line).next <= |t|
    decreases |t| - p
  {
    if Inside(t, p) {
      var u := UnitAt(t, p);
      UnitWithinNext(t, p);
      ReachOfAccepted(t, u.next, if u.newline then line + 1 else line);
    }
  }

  /** Decoding looks behind the terminator only for a \u escape that starts less than four places before it. */
  lemma {:induction false} ReachBehindEnd(t: string, p: nat)
    requires p <= |t| && BodyReach(t, p) > |t|
    ensures BodyReach(t, p) <= |t| + 3
    ensures var q := BodyReach(t, p) - 5; p <= q && q + 2 <= |t| && t[q] == '\\' && t[q + 1] == 'u'
    decreases |t| - p
  {
    var u := UnitAt(t, p);
    if u.Unit? {
      UnitWithinNext(t, p);
      ReachBehindEnd(t, u.next);
    }
  }

  // ---- lines ------------------------------------------------------------------------------------

  /** Newlines of t between positions p and q. */
  function Newlines(t: string, p: nat, q: nat): nat
    requires p <= q <= |t|
  {
    if q == p then 0 else Newlines(t, p, q - 1) + (if t[q - 1] == '\n' then 1 else 0)
  }

  lemma {:induction false} NewlinesSplit(t: string, p: nat, q: nat, r: nat)
    requires p <= q <= r <= |t|
    ensures Newlines(t, p, r) == Newlines(t, p, q) + Newlines(t, q, r)
  {
    if r > q {
      NewlinesSplit(t, p, q, r - 1);
    }
  }

  lemma {:induction false} NoNewlines(t: string, p: nat, q: nat)
    requires p <= q <= |t| && forall i :: p <= i < q ==> t[i] != '\n'
    ensures Newlines(t, p, q) == 0
  {
    if q > p {
      NoNewlines(t, p, q - 1);
    }
  }

  lemma UnitLines(t: string, p: nat)
    requires Inside(t, p) && UnitAt(t, p).Unit?
    ensures Newlines(t, p, UnitAt(t, p).next) == if UnitAt(t, p).newline then 1 else 0
  {
    if t[p] != '\\' {
      assert Newlines(t, p, p) == 0;
    } else {
      NoNewlines(t, p, UnitAt(t, p).next);
    }
  }

  /** The line count moves by the newlines inside the literal. */
  lemma {:induction false} BodyLines(t: string, p: nat, line: nat)
    requires p <= |t| && BodyAt(t, p, line).Ok?
    ensures var r := BodyAt(t, p, line); r.line == line + Newlines(t, p, r.next)
    decreases |t| - p
  {
    if Peek(t, p) == '"' {
      NoNewlines(t, p, p + 1);
    } else {
      var u, end := UnitAt(t, p), BodyAt(t, p, line).next;
      UnitLines(t, p);
      BodyLines(t, u.next, if u.newline then line + 1 else line);
      NewlinesSplit(t, p, u.next, end);
    }
  }

  // ---- round trip -------------------------------------------------------------------------------

  /** A backslash and a letter. */
  lemma UnitOfLetter(t: string, p: nat, e: char, c: char)
    requires HasAt(t, p, ['\\', e]) && SimpleEscape(e) == [c]
    ensures Inside(t, p) && UnitAt(t, p) == Unit([c], p + 2, false)
  {
    CharAt(t, p, ['\\', e], 0);
    CharAt(t, p, ['\\', e], 1);
  }

  /** A control character as four hexadecimal digits. */
  lemma UnitOfControl(t: string, p: nat, c: char)
    requires c as int < 0x20 && HasAt(t, p, ControlText(c))
    ensures Inside(t, p) && UnitAt(t, p) == Unit([c], p + 6, false)
  {
    var w := ControlText(c);
    CharAt(t, p, w, 0);
    CharAt(t, p, w, 1);
    CharAt(t, p, w, 2);
    CharAt(t, p, w, 3);
    CharAt(t, p, w, 4);
    CharAt(t, p, w, 5);
    hide HasAt, ControlText, Utf8;
    FourDigits(t, p + 2, c as int / 16, c as int % 16);
    Utf8OfControl(c);
  }

  lemma Utf8OfControl(c: char)
    requires c as int < 0x20
    ensures Utf8(c as int / 16 * 16 + c as int % 16) == [c]
  {
  }

  lemma FourDigits(t: string, p: nat, hi: nat, lo: nat)
    requires p + 4 <= |t| && hi < 16 && lo < 16
    requires t[p] == t[p + 1] == '0' && t[p + 2] == HexChar(hi) && t[p + 3] == HexChar(lo)
    ensures UnicodeAt(t, p) == Unit(Utf8(hi * 16 + lo), p + 4, false)
  {
    hide Utf8, HexChar;
  }

  /** A written character is read back as that character. */
  lemma UnitOfEsc(t: string, p: nat, c: char)
    requires HasAt(t, p, Esc(c))
    ensures Inside(t, p) && UnitAt(t, p) == Unit([c], p + |Esc(c)|, false)
  {
    hide HasAt, UnicodeAt, UnitAt, ControlText;
    if c == '"' {
      UnitOfLetter(t, p, '"', c);
    } else if c == '\\' {
      UnitOfLetter(t, p, '\\', c);
    } else if c == '\n' {
      UnitOfLetter(t, p, 'n', c);
    } else if c == '\r' {
      UnitOfLetter(t, p, 'r', c);
    } else if c == '\t' {
      UnitOfLetter(t, p, 't', c);
    } else if c as int < 0x20 {
      UnitOfControl(t, p, c);
    } else {
      UnitOfPlain(t, p, c);
    }
  }

  lemma UnitOfPlain(t: string, p: nat, c: char)
    requires HasAt(t, p, [c]) && c as int >= 0x20 && c != '"' && c != '\\'
    ensures Inside(t, p) && UnitAt(t, p) == Unit([c], p + 1, false)
  {
    CharAt(t, p, [c], 0);
  }

  lemma {:induction false} EscapedAt(t: string, p: nat, s: string, n: nat, i: nat)
    requires i < n <= |s| && HasAt(t, p, Escaped(s, n))
    ensures HasAt(t, p + |Escaped(s, i)|, Esc(s[i]))
    ensures |Escaped(s, i + 1)| == |Escaped(s, i)| + |Esc(s[i])|
  {
    hide Esc, HasAt;
    HasBoth(t, p, Escaped(s, n - 1), Esc(s[n - 1]));
    if i < n - 1 {
      EscapedAt(t, p, s, n - 1, i);
    }
  }

  lemma {:induction false} BodyRoundTrip(t: string, p: nat, s: string, i: nat, line: nat)
    requires i <= |s| && HasAt(t, p, Escaped(s, |s|)) && Peek(t, p + |Escaped(s, |s|)|) == '"'
    ensures p + |Escaped(s, i)| <= |t|
    ensures BodyAt(t, p + |Escaped(s, i)|, line) == Ok(s[i..], p + |Escaped(s, |s|)| + 1, line)
    decreases |s| - i
  {
    hide Esc, UnitAt, HasAt, Escaped;
    if i == |s| {
      assert s[i..] == "";
    } else {
      EscapedAt(t, p, s, |s|, i);
      UnitOfEsc(t, p + |Escaped(s, i)|, s[i]);
      BodyRoundTrip(t, p, s, i + 1, line);
      assert [s[i]] + s[i + 1..] == s[i..];
    }
  }

  /**
   Reading what json_write_string wrote gives the same bytes, uses up exactly the literal and stays on the line. A C
   string has no NUL byte, but the law does not need that.
   */
  lemma StringRoundTrip(t: string, p: nat, s: string, line: nat)
    requires HasAt(t, p, Quoted(s))
    ensures StringAt(t, p, line) == Ok(s, p + |Quoted(s)|, line)
  {
    HasBoth(t, p, "\"" + Escaped(s, |s|), "\"");
    HasBoth(t, p, "\"", Escaped(s, |s|));
    HasChar(t, p, '"');
    HasChar(t, p + 1 + |Escaped(s, |s|)|, '"');
    BodyRoundTrip(t, p + 1, s, 0, line);
    assert s[0..] == s;
  }
}
