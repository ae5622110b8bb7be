/**
 The recursive-descent JSON parser (json_reader.c). The functions say what is parsed at a position; the class is the
 parser with its moving cursor, line count and first error.
 */
module JsonReader {
  import opened Decimals
  import opened JsonStrings
  import opened Options
  import Sums

  datatype Json =
    | JNull
    | JBool(b: bool)
    | JNumber(n: real)
    | JString(s: string)
    | JArray(items: seq<Json>)
    | JObject(members: seq<Member>)

  datatype Member = Member(key: string, value: Json)

  // ---- white space, numbers and literals --------------------------------------------------------

  /** Where the white space at p ends. */
  function SkipEnd(t: string, p: nat): (q: nat)
    requires p <= |t|
    ensures p <= q <= |t| && !IsSpace(Peek(t, q))
    decreases |t| - p
  {
    if IsSpace(Peek(t, p)) then SkipEnd(t, p + 1) else p
  }

  /** The line there, after starting on the given one. */
  function SkipLine(t: string, p: nat, line: nat): nat
    requires p <= |t|
    decreases |t| - p
  {
    if !IsSpace(Peek(t, p)) then line
    else SkipLine(t, p + 1, if t[p] == '\n' then line + 1 else line)
  }

  function Pow10(e: int): real
    decreases if e < 0 then -e else e
  {
    if e == 0 then 1.0 else if e > 0 then Pow10(e - 1) * 10.0 else Pow10(e + 1) / 10.0
  }

  /** End of the optional fraction at p. */
  function FractionEnd(t: string, p: nat): (q: nat)
    requires p <= |t|
    ensures p <= q <= |t| && (q > p ==> AreDigits(t, p + 1, q))
  {
    if Peek(t, p) == '.' then DigitsEnd(t, p + 1) else p
  }

  /** c is a letter, in either case; letter is in lower case. */
  predicate IsLetter(c: char, letter: char) {
    c == letter || ('A' <= c <= 'Z' && c as int + 32 == letter as int)
  }

  /** The exponent after a letter at p, if there is one, and where it ends. */
  function ExponentAt(t: string, p: nat, letter: char): (r: (int, nat))
    requires p <= |t| && 'a' <= letter <= 'z'
    ensures p <= r.1 <= |t|
  {
    if !IsLetter(Peek(t, p), letter) then (0, p)
    else
      var d := if Peek(t, p + 1) == '-' || Peek(t, p + 1) == '+' then p + 2 else p + 1;
      var e := if d <= |t| then DigitsEnd(t, d) else d;
      if e == d then (0, p)
      else (if Peek(t, p + 1) == '-' then 0 - ValueOf(t, d, e) else ValueOf(t, d, e), e)
  }

  /** What the digits behind a point at w add, up to f. */
  function FractionAt(t: string, w: nat, f: nat): real
    requires w <= f <= |t| && (f > w ==> AreDigits(t, w + 1, f))
  {
    if f == w then 0.0 else ValueOf(t, w + 1, f) as real * Pow10(w + 1 - f)
  }

  /** An unsigned decimal number at d: digits, fraction, exponent. */
  function UnsignedAt(t: string, d: nat): (r: (real, nat))
    requires d < |t| && IsDigit(t[d])
    ensures d < r.1 <= |t|
  {
    var w := DigitsEnd(t, d);
    var f := FractionEnd(t, w);
    var whole := ValueOf(t, d, w) as real;
    var (exponent, end) := ExponentAt(t, f, 'e');
    (Sums.Times(whole + FractionAt(t, w, f), Pow10(exponent)), end)
  }

  /** Where the hexadecimal digits at p end. */
  function HexEnd(t: string, p: nat): (e: nat)
    requires p <= |t|
    ensures p <= e <= |t| && AreHex(t, p, e) && HexDigit(Peek(t, e)) < 0
    decreases |t| - p
  {
    if HexDigit(Peek(t, p)) >= 0 then HexEnd(t, p + 1) else p
  }

  predicate AreHex(t: string, p: nat, e: nat)
    requires e <= |t|
  {
    forall i :: p <= i < e ==> HexDigit(t[i]) >= 0
  }

  /** The number denoted by the hexadecimal digits at positions p to e of t. */
  function HexValueOf(t: string, p: nat, e: nat): nat
    requires p <= e <= |t| && AreHex(t, p, e)
  {
    if p == e then 0 else HexValueOf(t, p, e - 1) * 16 + HexDigit(t[e - 1])
  }

  function Pow2(e: int): real
    decreases if e < 0 then -e else e
  {
    if e == 0 then 1.0 else if e > 0 then Pow2(e - 1) * 2.0 else Pow2(e + 1) / 2.0
  }

  /** A hexadecimal number starts at d: 0x and a digit, with or without a point before it. */
  predicate IsHexAt(t: string, d: nat) {
    && Peek(t, d) == '0' && IsLetter(Peek(t, d + 1), 'x')
    && (HexDigit(Peek(t, d + 2)) >= 0 || (Peek(t, d + 2) == '.' && HexDigit(Peek(t, d + 3)) >= 0))
  }

  /** End of the optional hexadecimal fraction at p. */
  function HexFractionEnd(t: string, p: nat): (q: nat)
    requires p <= |t|
    ensures p <= q <= |t| && (q > p ==> AreHex(t, p + 1, q))
  {
    if Peek(t, p) == '.' then HexEnd(t, p + 1) else p
  }

  function HexFractionAt(t: string, w: nat, f: nat): real
    requires w <= f <= |t| && (f > w ==> AreHex(t, w + 1, f))
  {
    if f == w then 0.0 else HexValueOf(t, w + 1, f) as real * Pow2(4 * (w + 1 - f))
  }

  /** An unsigned hexadecimal number at d: digits, fraction, power of two. */
  function HexAt(t: string, d: nat): (r: (real, nat))
    requires IsHexAt(t, d)
    ensures d < r.1 <= |t|
  {
    var w := HexEnd(t, d + 2);
    var f := HexFractionEnd(t, w);
    var whole := HexValueOf(t, d + 2, w) as real;
    var (exponent, end) := ExponentAt(t, f, 'p');
    (Sums.Times(whole + HexFractionAt(t, w, f), Pow2(exponent)), end)
  }

  /** What strtod reads at a digit. */
  function MagnitudeAt(t: string, d: nat): (r: (real, nat))
    requires d < |t| && IsDigit(t[d])
    ensures d < r.1 <= |t|
  {
    if IsHexAt(t, d) then HexAt(t, d) else UnsignedAt(t, d)
  }

  function NumberAt(t: string, p: nat, line: nat): (r: Parsed<Json>)
    requires p <= |t|
    ensures r.Ok? ==> p < r.next <= |t|
  {
    var d := if Peek(t, p) == '-' then p + 1 else p;
    if !IsDigit(Peek(t, d)) then Failed(Error(BadNumber, line))
    else
      var (n, end) := MagnitudeAt(t, d);
      Ok(JNumber(if d > p then -n else n), end, line)
  }

  function LiteralAt(t: string, p: nat, line: nat): (r: Parsed<Json>)
    requires p <= |t|
    ensures r.Ok? ==> p < r.next <= |t|
  {
    if HasAt(t, p, "true") then Ok(JBool(true), p + 4, line)
    else if HasAt(t, p, "false") then Ok(JBool(false), p + 5, line)
    else if HasAt(t, p, "null") then Ok(JNull, p + 4, line)
    else Failed(Error(UnexpectedChar, line))
  }

  // ---- values -----------------------------------------------------------------------------------

  /** The value at p, with white space before it. */
  function ValueAt(t: string, p: nat, line: nat): (r: Parsed<Json>)
    requires p <= |t|
    ensures r.Ok? ==> p < r.next <= |t|
    decreases |t| - p, 1
  {
    var q, l := SkipEnd(t, p), SkipLine(t, p, line);
    var c := Peek(t, q);
    if c == '{' then ObjectAt(t, q, l)
    else if c == '[' then ArrayAt(t, q, l)
    else if c == '"' then
      match StringAt(t, q, l)
      case Ok(s, next, l') => Ok(JString(s), next, l')
      case Failed(e) => Failed(e)
    else if c == 't' || c == 'f' || c == 'n' then LiteralAt(t, q, l)
    else if c == NUL then Failed(Error(UnexpectedEnd, l))
    else if c == '-' || IsDigit(c) then NumberAt(t, q, l)
    else Failed(Error(UnexpectedChar, l))
  }

  function ArrayAt(t: string, p: nat, line: nat): (r: Parsed<Json>)
    requires p < |t|
    ensures r.Ok? ==> p < r.next <= |t|
    decreases |t| - p, 0
  {
    var q, l := SkipEnd(t, p + 1), SkipLine(t, p + 1, line);
    if Peek(t, q) == ']' then Ok(JArray([]), q + 1, l)
    else
      match ItemsAt(t, q, l)
      case Ok(items, next, l') => Ok(JArray(items), next, l')
      case Failed(e) => Failed(e)
  }

  /** The items from p on, and the closing bracket. */
  function ItemsAt(t: string, p: nat, line: nat): (r: Parsed<seq<Json>>)
    requires p <= |t|
    ensures r.Ok? ==> p < r.next <= |t|
    decreases |t| - p, 2
  {
    match ValueAt(t, p, line)
    case Failed(e) => Failed(e)
    case Ok(item, next, line') =>
      var q, l := SkipEnd(t, next), SkipLine(t, next, line');
      if Peek(t, q) == ',' then
        match ItemsAt(t, q + 1, l)
        case Ok(items, end, l') => Ok([item] + items, end, l')
        case Failed(e) => Failed(e)
      else if Peek(t, q) == ']' then Ok([item], q + 1, l)
      else Failed(Error(ExpectedArrayEnd, l))
  }

  function ObjectAt(t: string, p: nat, line: nat): (r: Parsed<Json>)
    requires p < |t|
    ensures r.Ok? ==> p < r.next <= |t|
    decreases |t| - p, 0
  {
    var q, l := SkipEnd(t, p + 1), SkipLine(t, p + 1, line);
    if Peek(t, q) == '}' then Ok(JObject([]), q + 1, l)
    else
      match MembersAt(t, q, l)
      case Ok(members, next, l') => Ok(JObject(members), next, l')
      case Failed(e) => Failed(e)
  }

  /** One key, colon and value. */
  function MemberAt(t: string, p: nat, line: nat): (r: Parsed<Member>)
    requires p <= |t|
    ensures r.Ok? ==> p < r.next <= |t|
    decreases |t| - p, 2
  {
    match StringAt(t, SkipEnd(t, p), SkipLine(t, p, line))
    case Failed(e) => Failed(e)
    case Ok(key, next, line') =>
      var q, l := SkipEnd(t, next), SkipLine(t, next, line');
      if Peek(t, q) != ':' then Failed(Error(ExpectedColon, l))
      else
        match ValueAt(t, q + 1, l)
        case Failed(e) => Failed(e)
        case Ok(v, end, l') => Ok(Member(key, v), end, l')
  }

  /** The members from p on, and the closing brace. */
  function MembersAt(t: string, p: nat, line: nat): (r: Parsed<seq<Member>>)
    requires p <= |t|
    ensures r.Ok? ==> p < r.next <= |t|
    decreases |t| - p, 3
  {
    match MemberAt(t, p, line)
    case Failed(e) => Failed(e)
    case Ok(m, next, line') =>
      var q, l := SkipEnd(t, next), SkipLine(t, next, line');
      if Peek(t, q) == ',' then
        match MembersAt(t, q + 1, l)
        case Ok(members, end, l') => Ok([m] + members, end, l')
        case Failed(e) => Failed(e)
      else if Peek(t, q) == '}' then Ok([m], q + 1, l)
      else Failed(Error(ExpectedObjectEnd, l))
  }

  /** A whole document: one value, and nothing behind it but white space. */
  function Document(t: string): Parsed<Json> {
    match ValueAt(t, 0, 1)
    case Failed(e) => Failed(e)
    case Ok(v, next, line) =>
      var q, l := SkipEnd(t, next), SkipLine(t, next, line);
      if Peek(t, q) != NUL then Failed(Error(TrailingData, l)) else Ok(v, q, l)
  }

  // ---- the parser -------------------------------------------------------------------------------

  class Parser {
    const text: string
    var p: nat
    var line: nat
    var failed: bool
    var error: Error

    ghost predicate Valid()
      reads this
    {
      p <= |text| && !failed
    }

    /** The call that started in the old state did what r says: moved the cursor over a value, or recorded the error. */
    ghost predicate Did<T(!new)>(r: Parsed<T>, result: Option<T>)
      reads this
    {
      match r
      case Ok(v, next, line') => result == Some(v) && p == next && line == line' && !failed
      case Failed(e) => result == None && failed && error == e
    }

    constructor (text: string)
      ensures this.text == text && p == 0 && line == 1 && Valid()
    {
      this.text, p, line, failed := text, 0, 1, false;
      error := Error(UnexpectedEnd, 0);
    }

    /** set_error: the first error is kept. */
    method SetError(kind: ErrorKind)
      modifies this`failed, this`error
      ensures failed && error == if old(failed) then old(error) else Error(kind, line)
    {
      if failed {
        return;
      }
      failed := true;
      error := Error(kind, line);
    }

    method SkipWs()
      requires Valid()
      modifies this`p, this`line
      ensures p == SkipEnd(text, old(p)) && line == SkipLine(text, old(p), old(line))
    {
      while IsSpace(Peek(text, p))
        invariant p <= |text| && SkipEnd(text, p) == SkipEnd(text, old(p))
        invariant SkipLine(text, p, line) == SkipLine(text, old(p), old(line))
        decreases |text| - p
      {
        if Peek(text, p) == '\n' {
          line := line + 1;
        }
        p := p + 1;
      }
    }

    /** The scan that sizes the output buffer. */
    method ScanLength() returns (cap: nat)
      requires Valid()
      ensures cap == ScanCount(text, p)
    {
      cap := 0;
      var s := p;
      while Inside(text, s)
        invariant s <= |text| && cap + ScanCount(text, s) == ScanCount(text, p)
        decreases |text| - s
      {
        s := ScanStep(text, s);
        cap := cap + 1;
      }
    }

    /** Decode one character or escape into the buffer at o. */
    method DecodeUnit(out: array<char>, o: nat) returns (o': nat)
      requires Valid() && Inside(text, p) && o + ScanCount(text, p) <= out.Length
      modifies this, out
      ensures match UnitAt(text, old(p))
              case BadUnit(kind) => failed && error == Error(kind, old(line))
              case Unit(bytes, next, newline) =>
                && Valid() && p == next && line == old(line) + (if newline then 1 else 0)
                && o' == o + |bytes| && o' + ScanCount(text, p) <= out.Length
                && out[..o'] == old(out[..o]) + bytes
    {
      ghost var u := UnitAt(text, p);
      if u.Unit? {
        UnitWithinScan(text, p);
      }
      o' := o;
      match UnitAt(text, p) {
        case BadUnit(kind) =>
          SetError(kind);
        case Unit(bytes, next, newline) =>
          if newline {
            line := line + 1;
          }
          p := next;
          o' := Store(out, o, bytes);
      }
    }

    method Store(out: array<char>, o: nat, bytes: string) returns (o': nat)
      requires o + |bytes| <= out.Length
      modifies out
      ensures o' == o + |bytes| && out[..o'] == old(out[..o]) + bytes
    {
      for i := 0 to |bytes|
        invariant out[..o + i] == old(out[..o]) + bytes[..i]
      {
        out[o + i] := bytes[i];
        assert out[..o + i + 1] == out[..o + i] + [bytes[i]];
      }
      assert bytes[..|bytes|] == bytes;
      return o + |bytes|;
    }

    /** parse_string_raw: the buffer is sized by the scan, and decoding never writes past it. */
    method ParseStringRaw() returns (r: Option<string>)
      requires Valid()
      modifies this
      ensures Did(StringAt(text, old(p), old(line)), r)
    {
      if Peek(text, p) != '"' {
        SetError(ExpectedQuote);
        return None;
      }
      p := p + 1;
      var cap := ScanLength();
      var out := new char[cap * 4 + 1](_ => NUL);
      var o: nat := 0;
      ghost var start, first := p, line;
      assert out[..o] == "";
      PrependNothing(BodyAt(text, p, line));
      while Inside(text, p)
        invariant Valid() && o + ScanCount(text, p) <= out.Length
        invariant BodyAt(text, start, first) == Prepended(out[..o], BodyAt(text, p, line))
        decreases |text| - p
      {
        ghost var here, sofar := p, out[..o];
        o := DecodeUnit(out, o);
        if failed {
          return None;
        }
        PrependTwice(sofar, UnitAt(text, here).bytes, BodyAt(text, p, line));
      }
      if Peek(text, p) != '"' {
        SetError(Unterminated);
        return None;
      }
      p := p + 1;
      assert out[..o] + "" == out[..o];
      return Some(out[..o]);
    }

    method ParseString() returns (r: Option<Json>)
      requires Valid() && Peek(text, p) == '"'
      modifies this
      ensures match StringAt(text, old(p), old(line))
              case Ok(s, next, line') => Did(Ok(JString(s), next, line'), r)
              case Failed(e) => Did(Failed(e), r)
    {
      var s := ParseStringRaw();
      if s.None? {
        return None;
      }
      return Some(JString(s.value));
    }

    /** What follows the sign is strtod's to read. */
    method ParseNumber() returns (r: Option<Json>)
      requires Valid()
      modifies this
      ensures Did(NumberAt(text, old(p), old(line)), r)
    {
      var start := p;
      if Peek(text, p) == '-' {
        p := p + 1;
      }
      if !IsDigit(Peek(text, p)) {
        SetError(BadNumber);
        return None;
      }
      var (n, end) := MagnitudeAt(text, p);
      r := Some(JNumber(if p > start then -n else n));
      p := end;
    }

    method ParseLiteral() returns (r: Option<Json>)
      requires Valid()
      modifies this
      ensures Did(LiteralAt(text, old(p), old(line)), r)
    {
      if HasAt(text, p, "true") {
        p := p + 4;
        return Some(JBool(true));
      }
      if HasAt(text, p, "false") {
        p := p + 5;
        return Some(JBool(false));
      }
      if HasAt(text, p, "null") {
        p := p + 4;
        return Some(JNull);
      }
      SetError(UnexpectedChar);
      return None;
    }

    method ParseArray() returns (r: Option<Json>)
      requires Valid() && Peek(text, p) == '['
      modifies this
      ensures Did(ArrayAt(text, old(p), old(line)), r)
      decreases |text| - p, 0
    {
      hide ValueAt, ItemsAt;
      p := p + 1;
      SkipWs();
      if Peek(text, p) == ']' {
        p := p + 1;
        return Some(JArray([]));
      }
      var items: seq<Json> := [];
      ghost var start, first := p, line;
      PrependNothing(ItemsAt(text, p, line));
      while true
        invariant Valid() && old(p) < p
        invariant ItemsAt(text, start, first) == Prepended(items, ItemsAt(text, p, line))
        decreases |text| - p
      {
        ghost var here, at := p, line;
        ItemsFrom(text, p, line);
        SkipWs();
        var item := ParseValue();
        if item.None? {
          return None;
        }
        SkipWs();
        PrependTwice(items, [item.value], ItemsAt(text, if p < |text| then p + 1 else p, line));
        items := items + [item.value];
        if Peek(text, p) == ',' {
          p := p + 1;
          continue;
        }
        if Peek(text, p) == ']' {
          p := p + 1;
          return Some(JArray(items));
        }
        SetError(ExpectedArrayEnd);
        return None;
      }
    }

    /** The part of the loop of parse_object that reads one key and value. */
    method ParseMember() returns (r: Option<Member>)
      requires Valid()
      modifies this
      ensures Did(MemberAt(text, old(p), old(line)), r)
      decreases |text| - p, 2
    {
      hide ValueAt, StringAt;
      SkipWs();
      var key := ParseStringRaw();
      if key.None? {
        return None;
      }
      SkipWs();
      if Peek(text, p) != ':' {
        SetError(ExpectedColon);
        return None;
      }
      p := p + 1;
      ValueAfterSpace(text, p, line);
      SkipWs();
      var val := ParseValue();
      if val.None? {
        return None;
      }
      return Some(Member(key.value, val.value));
    }

    method ParseObject() returns (r: Option<Json>)
      requires Valid() && Peek(text, p) == '{'
      modifies this
      ensures Did(ObjectAt(text, old(p), old(line)), r)
      decreases |text| - p, 0
    {
      hide MemberAt, MembersAt;
      p := p + 1;
      SkipWs();
      if Peek(text, p) == '}' {
        p := p + 1;
        return Some(JObject([]));
      }
      var members: seq<Member> := [];
      ghost var start, first := p, line;
      PrependNothing(MembersAt(text, p, line));
      while true
        invariant Valid() && old(p) < p
        invariant MembersAt(text, start, first) == Prepended(members, MembersAt(text, p, line))
        decreases |text| - p
      {
        MembersFrom(text, p, line);
        var m := ParseMember();
        if m.None? {
          return None;
        }
        SkipWs();
        PrependTwice(members, [m.value], MembersAt(text, if p < |text| then p + 1 else p, line));
        members := members + [m.value];
        if Peek(text, p) == ',' {
          p := p + 1;
          continue;
        }
        if Peek(text, p) == '}' {
          p := p + 1;
          return Some(JObject(members));
        }
        SetError(ExpectedObjectEnd);
        return None;
      }
    }

    method ParseValue() returns (r: Option<Json>)
      requires Valid()
      modifies this
      ensures Did(ValueAt(text, old(p), old(line)), r)
      decreases |text| - p, 1
    {
      hide ObjectAt, ArrayAt, StringAt, LiteralAt, NumberAt;
      SkipWs();
      var c := Peek(text, p);
      if c == '{' {
        r := ParseObject();
      } else if c == '[' {
        r := ParseArray();
      } else if c == '"' {
        r := ParseString();
      } else if c == 't' || c == 'f' || c == 'n' {
        r := ParseLiteral();
      } else if c == NUL {
        SetError(UnexpectedEnd);
        r := None;
      } else if c == '-' || IsDigit(c) {
        r := ParseNumber();
      } else {
        SetError(UnexpectedChar);
        r := None;
      }
    }
  }

  /** json_parse */
  method JsonParse(text: string) returns (r: Option<Json>, error: Error)
    ensures match Document(text)
            case Ok(v, _, _) => r == Some(v)
            case Failed(e) => r == None && error == e
  {
    hide ValueAt;
    var ps := new Parser(text);
    r := ps.ParseValue();
    error := ps.error;
    if r.None? {
      return;
    }
    ps.SkipWs();
    if Peek(text, ps.p) != NUL {
      ps.SetError(TrailingData);
      return None, ps.error;
    }
  }

  ghost function Prepended<T>(s: seq<T>, r: Parsed<seq<T>>): Parsed<seq<T>> {
    match r
    case Ok(v, next, line) => Ok(s + v, next, line)
    case Failed(e) => Failed(e)
  }

  lemma PrependNothing<T>(r: Parsed<seq<T>>)
    ensures Prepended([], r) == r
  {
    if r.Ok? {
      assert [] + r.value == r.value;
    }
  }

  lemma PrependTwice<T>(s: seq<T>, w: seq<T>, r: Parsed<seq<T>>)
    ensures Prepended(s, Prepended(w, r)) == Prepended(s + w, r)
  {
    if r.Ok? {
      assert s + (w + r.value) == s + w + r.value;
    }
  }

  lemma SkipTwice(t: string, p: nat, line: nat)
    requires p <= |t|
    ensures SkipEnd(t, SkipEnd(t, p)) == SkipEnd(t, p)
    ensures SkipLine(t, SkipEnd(t, p), line) == line
  {
  }

  /** White space before a value makes no difference to it. */
  lemma ValueAfterSpace(t: string, p: nat, line: nat)
    requires p <= |t|
    ensures ValueAt(t, p, line) == ValueAt(t, SkipEnd(t, p), SkipLine(t, p, line))
  {
    SkipTwice(t, p, SkipLine(t, p, line));
  }

  /** What the items from p on are, said step by step. */
  lemma ItemsFrom(t: string, p: nat, line: nat)
    requires p <= |t|
    ensures var first := ValueAt(t, SkipEnd(t, p), SkipLine(t, p, line));
            match first
            case Failed(e) => ItemsAt(t, p, line) == Failed(e)
            case Ok(item, next, line') =>
              var q, l := SkipEnd(t, next), SkipLine(t, next, line');
              ItemsAt(t, p, line) == if Peek(t, q) == ',' then Prepended([item], ItemsAt(t, q + 1, l))
                                     else if Peek(t, q) == ']' then Ok([item], q + 1, l)
                                     else Failed(Error(ExpectedArrayEnd, l))
  {
    ValueAfterSpace(t, p, line);
  }

  lemma MembersFrom(t: string, p: nat, line: nat)
    requires p <= |t|
    ensures match MemberAt(t, p, line)
            case Failed(e) => MembersAt(t, p, line) == Failed(e)
            case Ok(m, next, line') =>
              var q, l := SkipEnd(t, next), SkipLine(t, next, line');
              MembersAt(t, p, line) == if Peek(t, q) == ',' then Prepended([m], MembersAt(t, q + 1, l))
                                       else if Peek(t, q) == '}' then Ok([m], q + 1, l)
                                       else Failed(Error(ExpectedObjectEnd, l))
  {
  }

  // ---- white space ------------------------------------------------------------------------------

  /** White space is skipped up to the first other character. */
  lemma {:induction false} SpacesSkipped(t: string, p: nat, blanks: string)
    requires HasAt(t, p, blanks) && (forall i :: 0 <= i < |blanks| ==> IsSpace(blanks[i]))
    requires !IsSpace(Peek(t, p + |blanks|))
    ensures p <= |t| && SkipEnd(t, p) == p + |blanks|
    decreases |blanks|
  {
    hide IsSpace;
    if blanks != "" {
      assert blanks == [blanks[0]] + blanks[1..];
      HasBoth(t, p, [blanks[0]], blanks[1..]);
      HasChar(t, p, blanks[0]);
      SpacesSkipped(t, p + 1, blanks[1..]);
    }
  }

  // ---- hexadecimal digits -----------------------------------------------------------------------

  lemma {:induction false} HexDigitsAt(t: string, p: nat, s: string, m: nat)
    requires HasAt(t, p, s) && m <= |s| && AreHex(s, 0, |s|)
    ensures p + m <= |t| && AreHex(t, p, p + m) && HexValueOf(t, p, p + m) == HexValueOf(s, 0, m)
  {
    if m > 0 {
      HexDigitsAt(t, p, s, m - 1);
      CharAt(t, p, s, m - 1);
    }
  }

  lemma {:induction false} HexEndAt(t: string, p: nat, e: nat)
    requires p <= e <= |t| && AreHex(t, p, e) && HexDigit(Peek(t, e)) < 0
    ensures HexEnd(t, p) == e
    decreases e - p
  {
    if p < e {
      HexEndAt(t, p + 1, e);
    }
  }

  /** Digits with no x behind them are not hexadecimal. */
  lemma NotHex(t: string, p: nat)
    requires p < |t| && IsDigit(t[p]) && !IsLetter(Peek(t, DigitsEnd(t, p)), 'x')
    ensures !IsHexAt(t, p)
  {
    if !IsDigit(Peek(t, p + 1)) {
      assert DigitsEnd(t, p + 1) == p + 1;
    }
  }

  // ---- accessors --------------------------------------------------------------------------------

  /** The first of the members from i on with the given key. */
  function FindMember(members: seq<Member>, key: string, i: nat): (v: Option<Json>)
    requires i <= |members|
    ensures v.Some? ==> exists k :: i <= k < |members| && members[k] == Member(key, v.value)
    ensures v.None? ==> forall k :: i <= k < |members| ==> members[k].key != key
    decreases |members| - i
  {
    if i == |members| then None
    else if members[i].key == key then Some(members[i].value)
    else FindMember(members, key, i + 1)
  }

  function ObjectGet(j: Json, key: string): Option<Json> {
    if j.JObject? then FindMember(j.members, key, 0) else None
  }

  function ArrayItems(j: Option<Json>): seq<Json> {
    if j.Some? && j.value.JArray? then j.value.items else []
  }

  function GetString(j: Json, key: string, default: string): string {
    var v := ObjectGet(j, key);
    if v.Some? && v.value.JString? then v.value.s else default
  }

  function GetNumber(j: Json, key: string, default: real): real {
    var v := ObjectGet(j, key);
    if v.Some? && v.value.JNumber? then v.value.n else default
  }

  function GetBool(j: Json, key: string, default: bool): bool {
    var v := ObjectGet(j, key);
    if v.Some? && v.value.JBool? then v.value.b else default
  }

  /** The member at position k is the one found when no earlier one has its key. */
  lemma {:induction false} FindsFirst(members: seq<Member>, i: nat, k: nat)
    requires i <= k < |members| && forall j :: i <= j < k ==> members[j].key != members[k].key
    ensures FindMember(members, members[k].key, i) == Some(members[k].value)
    decreases k - i
  {
    if i < k {
      FindsFirst(members, i + 1, k);
    }
  }

  // ---- the line count ---------------------------------------------------------------------------

  lemma {:induction false} SkipLines(t: string, p: nat, line: nat)
    requires p <= |t|
    ensures SkipLine(t, p, line) == line + Newlines(t, p, SkipEnd(t, p))
    decreases |t| - p
  {
    if IsSpace(Peek(t, p)) {
      SkipLines(t, p + 1, if t[p] == '\n' then line + 1 else line);
      NewlinesSplit(t, p, p + 1, SkipEnd(t, p));
      assert Newlines(t, p, p + 1) == Newlines(t, p, p) + (if t[p] == '\n' then 1 else 0);
    } else {
      assert Newlines(t, p, p) == 0;
    }
  }

  lemma OneMore(t: string, p: nat)
    requires p < |t| && t[p] != '\n'
    ensures Newlines(t, p, p + 1) == 0
  {
    NoNewlines(t, p, p + 1);
  }

  lemma NumberLines(t: string, p: nat, line: nat)
    requires p <= |t| && NumberAt(t, p, line).Ok?
    ensures Newlines(t, p, NumberAt(t, p, line).next) == 0
  {
    hide MagnitudeAt;
    var d := if Peek(t, p) == '-' then p + 1 else p;
    MagnitudeLines(t, d);
    if d > p {
      OneMore(t, p);
      NewlinesSplit(t, p, d, NumberAt(t, p, line).next);
    }
  }

  lemma MagnitudeLines(t: string, d: nat)
    requires d < |t| && IsDigit(t[d])
    ensures Newlines(t, d, MagnitudeAt(t, d).1) == 0
  {
    hide HexAt, UnsignedAt, IsHexAt, Newlines;
    if IsHexAt(t, d) {
      HexLines(t, d);
    } else {
      UnsignedLines(t, d);
    }
  }

  lemma HexLines(t: string, d: nat)
    requires IsHexAt(t, d)
    ensures Newlines(t, d, HexAt(t, d).1) == 0
  {
    hide Pow2, HexValueOf, ExponentAt, Newlines;
    var w := HexEnd(t, d + 2);
    var f := HexFractionEnd(t, w);
    ExponentLines(t, f, 'p');
    NoNewlines(t, d, f);
    NewlinesSplit(t, d, f, HexAt(t, d).1);
  }

  lemma UnsignedLines(t: string, d: nat)
    requires d < |t| && IsDigit(t[d])
    ensures Newlines(t, d, UnsignedAt(t, d).1) == 0
  {
    hide Pow10, ValueOf, ExponentAt, Newlines;
    var w := DigitsEnd(t, d);
    var f := FractionEnd(t, w);
    ExponentLines(t, f, 'e');
    NoNewlines(t, d, f);
    NewlinesSplit(t, d, f, UnsignedAt(t, d).1);
  }

  lemma ExponentLines(t: string, p: nat, letter: char)
    requires p <= |t| && 'a' <= letter <= 'z'
    ensures Newlines(t, p, ExponentAt(t, p, letter).1) == 0
  {
    hide ValueOf, Newlines;
    NoNewlines(t, p, ExponentAt(t, p, letter).1);
  }

  lemma LiteralLines(t: string, p: nat, line: nat)
    requires p <= |t| && LiteralAt(t, p, line).Ok?
    ensures Newlines(t, p, LiteralAt(t, p, line).next) == 0
  {
    var end := LiteralAt(t, p, line).next;
    var w := t[p..end];
    assert w == "true" || w == "false" || w == "null";
    forall i | p <= i < end
      ensures t[i] != '\n'
    {
      assert t[i] == w[i - p];
    }
    NoNewlines(t, p, end);
  }

  lemma StringLines(t: string, p: nat, line: nat)
    requires p <= |t| && StringAt(t, p, line).Ok?
    ensures var r := StringAt(t, p, line); r.line == line + Newlines(t, p, r.next)
  {
    BodyLines(t, p + 1, line);
    OneMore(t, p);
    NewlinesSplit(t, p, p + 1, StringAt(t, p, line).next);
  }

  /** The line after a value is the line before it plus the newlines it took in. */
  lemma {:induction false} ValueLines(t: string, p: nat, line: nat)
    requires p <= |t| && ValueAt(t, p, line).Ok?
    ensures var r := ValueAt(t, p, line); r.line == line + Newlines(t, p, r.next)
    decreases |t| - p, 1
  {
    hide ObjectAt, ArrayAt, StringAt, LiteralAt, NumberAt, Newlines;
    var q, l, next := SkipEnd(t, p), SkipLine(t, p, line), ValueAt(t, p, line).next;
    var c := Peek(t, q);
    SkipLines(t, p, line);
    if c == '{' {
      ObjectLines(t, q, l);
    } else if c == '[' {
      ArrayLines(t, q, l);
    } else if c == '"' {
      StringLines(t, q, l);
    } else if c == 't' || c == 'f' || c == 'n' {
      LiteralLines(t, q, l);
      LiteralKeepsLine(t, q, l);
    } else {
      NumberLines(t, q, l);
      NumberKeepsLine(t, q, l);
    }
    NewlinesSplit(t, p, q, next);
  }

  lemma LiteralKeepsLine(t: string, p: nat, line: nat)
    requires p <= |t| && LiteralAt(t, p, line).Ok?
    ensures LiteralAt(t, p, line).line == line
  {
  }

  lemma NumberKeepsLine(t: string, p: nat, line: nat)
    requires p <= |t| && NumberAt(t, p, line).Ok?
    ensures NumberAt(t, p, line).line == line
  {
  }

  lemma {:induction false} ArrayLines(t: string, p: nat, line: nat)
    requires Peek(t, p) == '[' && ArrayAt(t, p, line).Ok?
    ensures var r := ArrayAt(t, p, line); r.line == line + Newlines(t, p, r.next)
    decreases |t| - p, 0
  {
    hide ItemsAt, Newlines;
    var q, l, next := SkipEnd(t, p + 1), SkipLine(t, p + 1, line), ArrayAt(t, p, line).next;
    OneMore(t, p);
    SkipLines(t, p + 1, line);
    NewlinesSplit(t, p, p + 1, q);
    NewlinesSplit(t, p, q, next);
    if Peek(t, q) == ']' {
      OneMore(t, q);
    } else {
      ItemsLines(t, q, l);
    }
  }

  lemma {:induction false} ItemsLines(t: string, p: nat, line: nat)
    requires p <= |t| && ItemsAt(t, p, line).Ok?
    ensures var r := ItemsAt(t, p, line); r.line == line + Newlines(t, p, r.next)
    decreases |t| - p, 2
  {
    hide ValueAt, Newlines;
    var v, end := ValueAt(t, p, line), ItemsAt(t, p, line).next;
    var q, l := SkipEnd(t, v.next), SkipLine(t, v.next, v.line);
    ValueLines(t, p, line);
    SkipLines(t, v.next, v.line);
    OneMore(t, q);
    NewlinesSplit(t, p, v.next, q);
    NewlinesSplit(t, p, q, q + 1);
    if Peek(t, q) == ',' {
      ItemsLines(t, q + 1, l);
      NewlinesSplit(t, p, q + 1, end);
    }
  }

  lemma {:induction false} ObjectLines(t: string, p: nat, line: nat)
    requires Peek(t, p) == '{' && ObjectAt(t, p, line).Ok?
    ensures var r := ObjectAt(t, p, line); r.line == line + Newlines(t, p, r.next)
    decreases |t| - p, 0
  {
    hide MembersAt, Newlines;
    var q, l, next := SkipEnd(t, p + 1), SkipLine(t, p + 1, line), ObjectAt(t, p, line).next;
    OneMore(t, p);
    SkipLines(t, p + 1, line);
    NewlinesSplit(t, p, p + 1, q);
    NewlinesSplit(t, p, q, next);
    if Peek(t, q) == '}' {
      OneMore(t, q);
    } else {
      MembersLines(t, q, l);
    }
  }

  lemma {:induction false} MemberLines(t: string, p: nat, line: nat)
    requires p <= |t| && MemberAt(t, p, line).Ok?
    ensures var r := MemberAt(t, p, line); r.line == line + Newlines(t, p, r.next)
    decreases |t| - p, 2
  {
    hide ValueAt, StringAt, Newlines;
    var k, l := SkipEnd(t, p), SkipLine(t, p, line);
    var s := StringAt(t, k, l);
    var q, l' := SkipEnd(t, s.next), SkipLine(t, s.next, s.line);
    SkipLines(t, p, line);
    StringLines(t, k, l);
    SkipLines(t, s.next, s.line);
    OneMore(t, q);
    ValueLines(t, q + 1, l');
    NewlinesSplit(t, p, k, s.next);
    NewlinesSplit(t, p, s.next, q);
    NewlinesSplit(t, p, q, q + 1);
    NewlinesSplit(t, p, q + 1, MemberAt(t, p, line).next);
  }

  lemma {:induction false} MembersLines(t: string, p: nat, line: nat)
    requires p <= |t| && MembersAt(t, p, line).Ok?
    ensures var r := MembersAt(t, p, line); r.line == line + Newlines(t, p, r.next)
    decreases |t| - p, 3
  {
    hide MemberAt, Newlines;
    var v, end := MemberAt(t, p, line), MembersAt(t, p, line).next;
    var q, l := SkipEnd(t, v.next), SkipLine(t, v.next, v.line);
    MemberLines(t, p, line);
    SkipLines(t, v.next, v.line);
    OneMore(t, q);
    NewlinesSplit(t, p, v.next, q);
    NewlinesSplit(t, p, q, q + 1);
    if Peek(t, q) == ',' {
      MembersLines(t, q + 1, l);
      NewlinesSplit(t, p, q + 1, end);
    }
  }

  /** After a whole document the parser is on line 1 plus the newlines of all it read. */
  lemma DocumentLines(t: string)
    requires Document(t).Ok?
    ensures var r := Document(t); r.next <= |t| && r.line == 1 + Newlines(t, 0, r.next) && Peek(t, r.next) == NUL
  {
    hide ValueAt, Newlines;
    var v := ValueAt(t, 0, 1);
    ValueLines(t, 0, 1);
    SkipLines(t, v.next, v.line);
    NewlinesSplit(t, 0, v.next, Document(t).next);
  }
}
