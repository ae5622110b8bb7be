/**
 What the program's JSON printers emit, and that the parser reads it back: numbers with %u or %.6f, literals,
 strings, arrays and objects without white space. Numbers with six decimals are kept in millionths.
 */
module JsonPrint {
  import opened Decimals
  import opened JsonReader
  import opened JsonStrings

  datatype Doc =
    | DNull
    | DInt(n: nat)
    | DFixed(micros: int)
    | DString(s: string)
    | DArray(items: seq<Doc>)
    | DObject(fields: seq<Field>)

  datatype Field = Field(key: string, value: Doc)

  // ---- text -------------------------------------------------------------------------------------

  function TenTo(w: nat): (n: nat)
    ensures n > 0
  {
    if w == 0 then 1 else TenTo(w - 1) * 10
  }

  /** n in exactly w digits. */
  function Padded(n: nat, w: nat): (s: string)
    ensures |s| == w
  {
    if w == 0 then "" else Padded(n / 10, w - 1) + [DigitChar(n % 10)]
  }

  /** "%.6f" of a non-negative number of millionths. */
  function FixedText(micros: nat): string {
    Decimal(micros / 1_000_000) + "." + Padded(micros % 1_000_000, 6)
  }

  function Text(d: Doc): string {
    match d
    case DNull => "null"
    case DInt(n) => Decimal(n)
    case DFixed(micros) => if micros < 0 then "-" + FixedText(-micros) else FixedText(micros)
    case DString(s) => Quoted(s)
    case DArray(items) => if items == [] then "[]" else "[" + ItemsText(items, 0)
    case DObject(fields) => if fields == [] then "{}" else "{" + FieldsText(fields, 0)
  }

  /** Items from i on, with their separators and the closing bracket. */
  function ItemsText(items: seq<Doc>, i: nat): string
    requires i < |items|
    decreases items, |items| - i
  {
    Text(items[i]) + (if i + 1 == |items| then "]" else "," + ItemsText(items, i + 1))
  }

  function FieldText(f: Field): string {
    Quoted(f.key) + ":" + Text(f.value)
  }

  function FieldsText(fields: seq<Field>, i: nat): string
    requires i < |fields|
    decreases fields, |fields| - i
  {
    FieldText(fields[i]) + (if i + 1 == |fields| then "}" else "," + FieldsText(fields, i + 1))
  }

  // ---- meaning ----------------------------------------------------------------------------------

  function Meaning(d: Doc): Json {
    match d
    case DNull => JNull
    case DInt(n) => JNumber(n as real)
    case DFixed(micros) => JNumber(micros as real / 1_000_000.0)
    case DString(s) => JString(s)
    case DArray(items) => JArray(Meanings(items, 0))
    case DObject(fields) => JObject(FieldMeanings(fields, 0))
  }

  function Meanings(items: seq<Doc>, i: nat): (js: seq<Json>)
    requires i <= |items|
    ensures |js| == |items| - i
    decreases items, |items| - i
  {
    if i == |items| then [] else [Meaning(items[i])] + Meanings(items, i + 1)
  }

  function FieldMeanings(fields: seq<Field>, i: nat): (ms: seq<Member>)
    requires i <= |fields|
    ensures |ms| == |fields| - i
    decreases fields, |fields| - i
  {
    if i == |fields| then []
    else [Member(fields[i].key, Meaning(fields[i].value))] + FieldMeanings(fields, i + 1)
  }

  // ---- numbers ----------------------------------------------------------------------------------

  /** A character that does not go on with a number. */
  predicate EndsNumber(c: char) {
    !IsDigit(c) && c != '.' && !IsLetter(c, 'e') && !IsLetter(c, 'x')
  }

  lemma {:induction false} PaddedAt(t: string, p: nat, n: nat, w: nat)
    requires HasAt(t, p, Padded(n, w)) && n < TenTo(w)
    ensures AreDigits(t, p, p + w) && ValueOf(t, p, p + w) == n
  {
    if w > 0 {
      HasBoth(t, p, Padded(n / 10, w - 1), [DigitChar(n % 10)]);
      HasChar(t, p + w - 1, DigitChar(n % 10));
      PaddedAt(t, p, n / 10, w - 1);
    }
  }

  lemma DecimalEndsAt(t: string, p: nat, n: nat)
    requires HasAt(t, p, Decimal(n)) && !IsDigit(Peek(t, p + |Decimal(n)|))
    ensures p < |t| && IsDigit(t[p]) && DigitsEnd(t, p) == p + |Decimal(n)|
    ensures ValueOf(t, p, p + |Decimal(n)|) == n
  {
    DecimalAt(t, p, n);
    hide Decimal;
    DigitsEndAt(t, p, p + |Decimal(n)|);
    assert IsDigit(t[p]);
  }

  lemma IntAt(t: string, p: nat, n: nat)
    requires HasAt(t, p, Decimal(n)) && EndsNumber(Peek(t, p + |Decimal(n)|))
    ensures p < |t| && IsDigit(t[p]) && MagnitudeAt(t, p) == (n as real, p + |Decimal(n)|)
  {
    hide Decimal;
    DecimalEndsAt(t, p, n);
    NotHex(t, p);
  }

  lemma Micros(whole: nat, fraction: nat, e: int)
    requires e == -6
    ensures (whole as real + fraction as real * Pow10(e)) * Pow10(0)
            == (whole * 1_000_000 + fraction) as real / 1_000_000.0
  {
    assert Pow10(-1) == 0.1;
    assert Pow10(-2) == 0.01;
    assert Pow10(-3) == 0.001;
    assert Pow10(-4) == 0.000_1;
    assert Pow10(-5) == 0.000_01;
    assert Pow10(e) == Pow10(e + 1) / 10.0 == 0.000_001;
  }

  lemma UnsignedIs(t: string, d: nat, w: nat, f: nat, whole: nat, fraction: nat)
    requires d < |t| && IsDigit(t[d]) && DigitsEnd(t, d) == w && FractionEnd(t, w) == f > w
    requires ValueOf(t, d, w) == whole && ValueOf(t, w + 1, f) == fraction && ExponentAt(t, f, 'e') == (0, f)
    requires f == w + 7
    ensures UnsignedAt(t, d) == ((whole * 1_000_000 + fraction) as real / 1_000_000.0, f)
  {
    Micros(whole, fraction, w + 1 - f);
  }

  lemma FixedAt(t: string, p: nat, micros: nat)
    requires HasAt(t, p, FixedText(micros)) && EndsNumber(Peek(t, p + |FixedText(micros)|))
    ensures p < |t| && IsDigit(t[p])
    ensures MagnitudeAt(t, p) == (micros as real / 1_000_000.0, p + |FixedText(micros)|)
  {
    hide Decimal, Padded, UnsignedAt, HasAt, ValueOf, FractionEnd, DigitsEnd, IsHexAt;
    var whole, fraction := micros / 1_000_000, micros % 1_000_000;
    var w := p + |Decimal(whole)|;
    FixedParts(t, p, whole, fraction);
    NoExponentAt(t, w + 7);
    UnsignedIs(t, p, w, w + 7, whole, fraction);
    NotHex(t, p);
    assert whole * 1_000_000 + fraction == micros;
  }

  lemma NoExponentAt(t: string, p: nat)
    requires p <= |t| && EndsNumber(Peek(t, p))
    ensures ExponentAt(t, p, 'e') == (0, p)
  {
  }

  /** The digits before and behind the point. */
  lemma FixedParts(t: string, p: nat, whole: nat, fraction: nat)
    requires fraction < 1_000_000 && HasAt(t, p, Decimal(whole) + "." + Padded(fraction, 6))
    requires !IsDigit(Peek(t, p + |Decimal(whole)| + 7))
    ensures var w := p + |Decimal(whole)|;
            && p < |t| && IsDigit(t[p]) && DigitsEnd(t, p) == w && ValueOf(t, p, w) == whole
            && w + 7 <= |t| && t[w] == '.' && FractionEnd(t, w) == w + 7 && ValueOf(t, w + 1, w + 7) == fraction
  {
    hide Decimal, Padded, HasAt, ValueOf, DigitsEnd;
    var w := p + |Decimal(whole)|;
    HasBoth(t, p, Decimal(whole) + ".", Padded(fraction, 6));
    HasBoth(t, p, Decimal(whole), ".");
    HasChar(t, w, '.');
    DecimalEndsAt(t, p, whole);
    SixDigits();
    PaddedAt(t, w + 1, fraction, 6);
    DigitsEndAt(t, w + 1, w + 7);
  }

  lemma SixDigits()
    ensures TenTo(6) == 1_000_000
  {
    assert TenTo(1) == 10 && TenTo(2) == 100 && TenTo(3) == 1000 && TenTo(4) == 10_000 && TenTo(5) == 100_000;
  }

  // ---- parsing what was printed -----------------------------------------------------------------

  /** Printed text starts with neither white space nor a closing bracket. */
  predicate Opens(c: char) {
    !IsSpace(c) && c != ']' && c != '}'
  }

  lemma TextOpens(t: string, p: nat, d: Doc)
    requires HasAt(t, p, Text(d))
    ensures p < |t| && Opens(t[p])
  {
    assert |Text(d)| > 0;
    assert t[p..p + |Text(d)|][0] == t[p];
  }

  lemma NoSpaceAt(t: string, p: nat, line: nat)
    requires p <= |t| && !IsSpace(Peek(t, p))
    ensures SkipEnd(t, p) == p && SkipLine(t, p, line) == line
  {
  }

  lemma FixedParses(t: string, p: nat, micros: int, line: nat)
    requires HasAt(t, p, Text(DFixed(micros))) && EndsNumber(Peek(t, p + |Text(DFixed(micros))|))
    ensures p <= |t| && ValueAt(t, p, line) == Ok(Meaning(DFixed(micros)), p + |Text(DFixed(micros))|, line)
  {
    hide FixedText, MagnitudeAt;
    if micros < 0 {
      HasBoth(t, p, "-", FixedText(-micros));
      HasChar(t, p, '-');
      FixedAt(t, p + 1, -micros);
    } else {
      FixedAt(t, p, micros);
    }
    NoSpaceAt(t, p, line);
  }

  lemma IntParses(t: string, p: nat, n: nat, line: nat)
    requires HasAt(t, p, Decimal(n)) && EndsNumber(Peek(t, p + |Decimal(n)|))
    ensures p <= |t| && ValueAt(t, p, line) == Ok(JNumber(n as real), p + |Decimal(n)|, line)
  {
    hide Decimal, MagnitudeAt;
    IntAt(t, p, n);
    NoSpaceAt(t, p, line);
  }

  lemma QuotedParses(t: string, p: nat, s: string, line: nat)
    requires HasAt(t, p, Quoted(s))
    ensures p <= |t| && ValueAt(t, p, line) == Ok(JString(s), p + |Quoted(s)|, line)
  {
    hide Quoted, BodyAt;
    StringRoundTrip(t, p, s, line);
    NoSpaceAt(t, p, line);
  }

  lemma NullParses(t: string, p: nat, line: nat)
    requires HasAt(t, p, "null")
    ensures p <= |t| && ValueAt(t, p, line) == Ok(JNull, p + 4, line)
  {
    var w := t[p..p + 4];
    assert t[p] == w[0] == 'n';
    NoSpaceAt(t, p, line);
    assert t[p..p + 4] != "true";
    if p + 5 <= |t| {
      assert t[p..p + 5][0] == 'n';
    }
  }

  /** A printed document is parsed to its meaning, up to its last character, without moving the line count. */
  lemma {:induction false} TextParses(t: string, p: nat, d: Doc, line: nat)
    requires HasAt(t, p, Text(d)) && EndsNumber(Peek(t, p + |Text(d)|))
    ensures p <= |t| && ValueAt(t, p, line) == Ok(Meaning(d), p + |Text(d)|, line)
    decreases d, 1
  {
    hide ValueAt, Decimal, FixedText, Quoted;
    match d {
      case DNull => NullParses(t, p, line);
      case DInt(n) => IntParses(t, p, n, line);
      case DFixed(micros) => FixedParses(t, p, micros, line);
      case DString(s) => QuotedParses(t, p, s, line);
      case DArray(items) => ArrayParses(t, p, items, line);
      case DObject(fields) => ObjectParses(t, p, fields, line);
    }
  }

  lemma {:induction false} ArrayParses(t: string, p: nat, items: seq<Doc>, line: nat)
    requires HasAt(t, p, Text(DArray(items)))
    ensures p <= |t| && ValueAt(t, p, line) == Ok(Meaning(DArray(items)), p + |Text(DArray(items))|, line)
    decreases items, |items| + 1
  {
    hide ItemsText, ItemsAt, Meanings;
    if items == [] {
      HasBoth(t, p, "[", "]");
      HasChar(t, p + 1, ']');
      assert Meanings(items, 0) == [];
    } else {
      HasBoth(t, p, "[", ItemsText(items, 0));
      ItemsParse(t, p + 1, items, 0, line);
      ItemsOpen(t, p + 1, items, 0);
      NoSpaceAt(t, p + 1, line);
    }
    HasChar(t, p, '[');
    NoSpaceAt(t, p, line);
  }

  lemma ItemsTextIs(items: seq<Doc>, i: nat)
    requires i < |items|
    ensures ItemsText(items, i)
            == Text(items[i]) + (if i + 1 == |items| then [']'] + "" else [','] + ItemsText(items, i + 1))
  {
    hide Text;
  }

  lemma FieldsTextIs(fields: seq<Field>, i: nat)
    requires i < |fields|
    ensures FieldsText(fields, i)
            == FieldText(fields[i]) + (if i + 1 == |fields| then ['}'] + "" else [','] + FieldsText(fields, i + 1))
  {
    hide FieldText;
  }

  lemma ItemsOpen(t: string, p: nat, items: seq<Doc>, i: nat)
    requires i < |items| && HasAt(t, p, ItemsText(items, i))
    ensures HasAt(t, p, Text(items[i])) && p < |t| && Opens(t[p])
    ensures var next := p + |Text(items[i])|;
            if i + 1 == |items| then next < |t| && t[next] == ']' && |ItemsText(items, i)| == |Text(items[i])| + 1
            else && next < |t| && t[next] == ',' && HasAt(t, next + 1, ItemsText(items, i + 1))
                 && |ItemsText(items, i)| == |Text(items[i])| + 1 + |ItemsText(items, i + 1)|
  {
    ItemsTextIs(items, i);
    hide Text, ItemsText, HasAt, Opens;
    if i + 1 == |items| {
      HasCharBehind(t, p, Text(items[i]), ']', "");
    } else {
      HasCharBehind(t, p, Text(items[i]), ',', ItemsText(items, i + 1));
    }
    TextOpens(t, p, items[i]);
  }

  lemma {:induction false} ItemsParse(t: string, p: nat, items: seq<Doc>, i: nat, line: nat)
    requires i < |items| && HasAt(t, p, ItemsText(items, i))
    ensures p <= |t| && ItemsAt(t, p, line) == Ok(Meanings(items, i), p + |ItemsText(items, i)|, line)
    decreases items, |items| - i
  {
    hide Text, ItemsText, ValueAt, Meaning;
    var next := p + |Text(items[i])|;
    ItemsOpen(t, p, items, i);
    TextParses(t, p, items[i], line);
    NoSpaceAt(t, next, line);
    if i + 1 < |items| {
      ItemsParse(t, next + 1, items, i + 1, line);
    } else {
      assert Meanings(items, i + 1) == [];
      assert Meanings(items, i) == [Meaning(items[i])];
    }
  }

  lemma {:induction false} ObjectParses(t: string, p: nat, fields: seq<Field>, line: nat)
    requires HasAt(t, p, Text(DObject(fields)))
    ensures p <= |t| && ValueAt(t, p, line) == Ok(Meaning(DObject(fields)), p + |Text(DObject(fields))|, line)
    decreases fields, |fields| + 1
  {
    hide FieldsText, MembersAt, FieldMeanings;
    if fields == [] {
      HasBoth(t, p, "{", "}");
      HasChar(t, p + 1, '}');
      assert FieldMeanings(fields, 0) == [];
    } else {
      HasBoth(t, p, "{", FieldsText(fields, 0));
      FieldsParse(t, p + 1, fields, 0, line);
      FieldsOpen(t, p + 1, fields, 0);
      NoSpaceAt(t, p + 1, line);
    }
    HasChar(t, p, '{');
    NoSpaceAt(t, p, line);
  }

  lemma FieldsOpen(t: string, p: nat, fields: seq<Field>, i: nat)
    requires i < |fields| && HasAt(t, p, FieldsText(fields, i))
    ensures HasAt(t, p, FieldText(fields[i])) && p < |t| && t[p] == '"'
    ensures var next := p + |FieldText(fields[i])|;
            if i + 1 == |fields| then
              next < |t| && t[next] == '}' && |FieldsText(fields, i)| == |FieldText(fields[i])| + 1
            else && next < |t| && t[next] == ',' && HasAt(t, next + 1, FieldsText(fields, i + 1))
                 && |FieldsText(fields, i)| == |FieldText(fields[i])| + 1 + |FieldsText(fields, i + 1)|
  {
    FieldsTextIs(fields, i);
    hide FieldText, FieldsText, Quoted, HasAt;
    if i + 1 == |fields| {
      HasCharBehind(t, p, FieldText(fields[i]), '}', "");
    } else {
      HasCharBehind(t, p, FieldText(fields[i]), ',', FieldsText(fields, i + 1));
    }
    FieldOpens(t, p, fields[i]);
  }

  lemma FieldOpens(t: string, p: nat, f: Field)
    requires HasAt(t, p, FieldText(f))
    ensures p < |t| && t[p] == '"'
    ensures HasAt(t, p, Quoted(f.key))
    ensures var q := p + |Quoted(f.key)|;
            && q < |t| && t[q] == ':' && HasAt(t, q + 1, Text(f.value))
            && q + 1 + |Text(f.value)| == p + |FieldText(f)|
  {
    hide Text;
    HasBoth(t, p, Quoted(f.key) + ":", Text(f.value));
    HasBoth(t, p, Quoted(f.key), ":");
    HasChar(t, p + |Quoted(f.key)|, ':');
    HasBoth(t, p, "\"" + Escaped(f.key, |f.key|), "\"");
    HasBoth(t, p, "\"", Escaped(f.key, |f.key|));
    HasChar(t, p, '"');
  }

  lemma {:induction false} FieldParses(t: string, p: nat, f: Field, line: nat)
    requires HasAt(t, p, FieldText(f)) && EndsNumber(Peek(t, p + |FieldText(f)|))
    ensures p <= |t|
    ensures MemberAt(t, p, line) == Ok(Member(f.key, Meaning(f.value)), p + |FieldText(f)|, line)
    decreases f, 2
  {
    hide Text, Quoted, FieldText, ValueAt, StringAt, Meaning;
    var q := p + |Quoted(f.key)|;
    FieldOpens(t, p, f);
    NoSpaceAt(t, p, line);
    StringRoundTrip(t, p, f.key, line);
    NoSpaceAt(t, q, line);
    TextParses(t, q + 1, f.value, line);
  }

  lemma {:induction false} FieldsParse(t: string, p: nat, fields: seq<Field>, i: nat, line: nat)
    requires i < |fields| && HasAt(t, p, FieldsText(fields, i))
    ensures p <= |t| && MembersAt(t, p, line) == Ok(FieldMeanings(fields, i), p + |FieldsText(fields, i)|, line)
    decreases fields, |fields| - i
  {
    hide FieldText, FieldsText, MemberAt, Meaning;
    var next := p + |FieldText(fields[i])|;
    FieldsOpen(t, p, fields, i);
    FieldParses(t, p, fields[i], line);
    NoSpaceAt(t, next, line);
    if i + 1 < |fields| {
      FieldsParse(t, next + 1, fields, i + 1, line);
    } else {
      assert FieldMeanings(fields, i + 1) == [];
      assert FieldMeanings(fields, i) == [Member(fields[i].key, Meaning(fields[i].value))];
    }
  }

  /** Parsing a printed document gives back what it means. */
  lemma DocumentRoundTrip(d: Doc)
    ensures Document(Text(d)) == Ok(Meaning(d), |Text(d)|, 1)
  {
    var t := Text(d);
    assert t[0..0 + |t|] == t;
    TextParses(t, 0, d, 1);
    NoSpaceAt(t, |t|, 1);
  }
}
