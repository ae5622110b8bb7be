/**
 The language of the JSON parser (json_reader.c): which texts it takes, and what they mean. That is JSON as RFC 8259 has
 it and, beyond it, what the code lets through as well: raw control characters in strings, numbers with leading zeros or
 nothing behind the point, hexadecimal numbers, and vertical tabs and form feeds as white space.
 */
module JsonGrammar {
  import opened Decimals
  import opened JsonReader
  import opened JsonStrings
  import opened Options
  import Sums

  // ---- white space ------------------------------------------------------------------------------

  predicate IsBlank(c: char) {
    c in {' ', TAB, '\n', VERTICAL_TAB, FORM_FEED, '\r'}
  }

  predicate AreBlanks(s: string) {
    forall i :: 0 <= i < |s| ==> IsBlank(s[i])
  }

  // ---- numbers ----------------------------------------------------------------------------------

  datatype Exponent = Exponent(letter: char, sign: string, digits: string)

  /** An unsigned number; hexadecimal when it has a prefix. */
  datatype Number = Number(prefix: string, whole: string, fraction: Option<string>, exponent: Option<Exponent>)

  predicate Digits(s: string) {
    AreDigits(s, 0, |s|)
  }

  predicate HexDigits(s: string) {
    AreHex(s, 0, |s|)
  }

  predicate ValidExponent(o: Option<Exponent>, lower: char, upper: char) {
    o.Some? ==>
      && (o.value.letter == lower || o.value.letter == upper)
      && o.value.sign in {"", "+", "-"}
      && o.value.digits != "" && Digits(o.value.digits)
  }

  predicate ValidNumber(n: Number) {
    if n.prefix == "" then
      && n.whole != "" && Digits(n.whole) && (n.fraction.Some? ==> Digits(n.fraction.value))
      && ValidExponent(n.exponent, 'e', 'E')
    else
      && n.prefix in {"0x", "0X"}
      && HexDigits(n.whole) && (n.fraction.Some? ==> HexDigits(n.fraction.value))
      && (n.whole != "" || (n.fraction.Some? && n.fraction.value != ""))
      && ValidExponent(n.exponent, 'p', 'P')
  }

  function FractionText(o: Option<string>): string {
    if o.Some? then "." + o.value else ""
  }

  function ExponentText(o: Option<Exponent>): string {
    if o.Some? then [o.value.letter] + o.value.sign + o.value.digits else ""
  }

  function NumberText(n: Number): string {
    n.prefix + n.whole + FractionText(n.fraction) + ExponentText(n.exponent)
  }

  function Power(base: nat, n: nat): (r: nat)
    requires base > 0
    ensures r > 0
  {
    if n == 0 then 1 else base * Power(base, n - 1)
  }

  /** x with its point moved e places of the base. */
  function Scaled(x: real, base: nat, e: int): real
    requires base > 0
  {
    if e >= 0 then x * Power(base, e) as real else x / Power(base, -e) as real
  }

  function ExponentMeaning(o: Option<Exponent>): int
    requires o.Some? ==> Digits(o.value.digits)
  {
    if o.None? then 0
    else if o.value.sign == "-" then 0 - ValueOf(o.value.digits, 0, |o.value.digits|)
    else ValueOf(o.value.digits, 0, |o.value.digits|)
  }

  /** The digits behind a point. */
  function FractionMeaning(o: Option<string>): real
    requires o.Some? ==> Digits(o.value)
  {
    if o.None? then 0.0 else Scaled(ValueOf(o.value, 0, |o.value|) as real, 10, -|o.value|)
  }

  function HexFractionMeaning(o: Option<string>): real
    requires o.Some? ==> HexDigits(o.value)
  {
    if o.None? then 0.0 else Scaled(HexValueOf(o.value, 0, |o.value|) as real, 16, -|o.value|)
  }

  /** A decimal number counts in powers of ten; a hexadecimal one has digits of sixteen and an exponent of two. */
  function NumberMeaning(n: Number): real
    requires ValidNumber(n)
  {
    if n.prefix == "" then
      Scaled(ValueOf(n.whole, 0, |n.whole|) as real + FractionMeaning(n.fraction), 10, ExponentMeaning(n.exponent))
    else
      Scaled(HexValueOf(n.whole, 0, |n.whole|) as real + HexFractionMeaning(n.fraction), 2, ExponentMeaning(n.exponent))
  }

  // ---- literals ---------------------------------------------------------------------------------

  /** A character of a literal as it is written: itself, a letter behind a backslash, or four hexadecimal digits. */
  datatype Piece = Plain(c: char) | Letter(e: char) | Unicode(digits: string)

  /** What the letters behind a backslash stand for. */
  const ESCAPES: map<char, char> := map['"' := '"', '\\' := '\\', '/' := '/', 'b' := 8 as char, 'f' := FORM_FEED,
                                        'n' := '\n', 'r' := '\r', 't' := TAB]

  predicate ValidPiece(piece: Piece) {
    match piece
    case Plain(c) => c != '"' && c != '\\' && c != NUL
    case Letter(e) => e in ESCAPES
    case Unicode(digits) => |digits| == 4 && HexDigits(digits)
  }

  predicate ValidPieces(pieces: seq<Piece>) {
    forall i :: 0 <= i < |pieces| ==> ValidPiece(pieces[i])
  }

  function PieceText(piece: Piece): string {
    match piece
    case Plain(c) => [c]
    case Letter(e) => ['\\', e]
    case Unicode(digits) => "\\u" + digits
  }

  function PieceMeaning(piece: Piece): string
    requires ValidPiece(piece)
  {
    match piece
    case Plain(c) => [c]
    case Letter(e) => [ESCAPES[e]]
    case Unicode(digits) => FourHexBound(digits); Utf8(HexValueOf(digits, 0, 4))
  }

  lemma FourHexBound(digits: string)
    requires |digits| == 4 && HexDigits(digits)
    ensures HexValueOf(digits, 0, 4)
            == HexDigit(digits[0]) * 4096 + HexDigit(digits[1]) * 256 + HexDigit(digits[2]) * 16 + HexDigit(digits[3])
    ensures HexValueOf(digits, 0, 4) < 0x1_0000
  {
    hide HexDigit;
    forall i | 0 <= i < 4
      ensures HexDigit(digits[i]) < 16
    {
      HexDigitIs(digits[i], 0);
    }
    assert HexValueOf(digits, 0, 1) == HexDigit(digits[0]);
    assert HexValueOf(digits, 0, 2) == HexDigit(digits[0]) * 16 + HexDigit(digits[1]);
    assert HexValueOf(digits, 0, 3) == HexValueOf(digits, 0, 2) * 16 + HexDigit(digits[2]);
  }

  function PiecesText(pieces: seq<Piece>): string {
    if pieces == [] then "" else PieceText(pieces[0]) + PiecesText(pieces[1..])
  }

  function PiecesMeaning(pieces: seq<Piece>): string
    requires ValidPieces(pieces)
  {
    if pieces == [] then "" else PieceMeaning(pieces[0]) + PiecesMeaning(pieces[1..])
  }

  // ---- values -----------------------------------------------------------------------------------

  datatype Syntax =
    | True
    | False
    | Null
    | Numeral(minus: bool, n: Number)
    | Literal(pieces: seq<Piece>)
    | Items(blanks: string, items: seq<Item>)    // blanks stand behind the opening bracket
    | Fields(blanks: string, fields: seq<FieldSyntax>)

  /** A value with the white space around it. */
  datatype Item = Item(before: string, value: Syntax, after: string)

  /** A key with the white space around it, and its value behind a colon. */
  datatype FieldSyntax = FieldSyntax(before: string, key: seq<Piece>, after: string, item: Item)

  predicate Valid(v: Syntax) {
    match v
    case Numeral(_, n) => ValidNumber(n)
    case Literal(pieces) => ValidPieces(pieces)
    case Items(blanks, items) => AreBlanks(blanks) && forall i :: 0 <= i < |items| ==> ValidItem(items[i])
    case Fields(blanks, fields) => AreBlanks(blanks) && forall i :: 0 <= i < |fields| ==> ValidField(fields[i])
    case _ => true
  }

  predicate ValidItem(item: Item) {
    AreBlanks(item.before) && Valid(item.value) && AreBlanks(item.after)
  }

  predicate ValidField(f: FieldSyntax) {
    AreBlanks(f.before) && ValidPieces(f.key) && AreBlanks(f.after) && ValidItem(f.item)
  }

  function LiteralText(pieces: seq<Piece>): string {
    "\"" + (PiecesText(pieces) + "\"")
  }

  function Text(v: Syntax): string {
    match v
    case True => "true"
    case False => "false"
    case Null => "null"
    case Numeral(minus, n) => (if minus then "-" else "") + NumberText(n)
    case Literal(pieces) => LiteralText(pieces)
    case Items(blanks, items) => "[" + (blanks + ItemsText(items))
    case Fields(blanks, fields) => "{" + (blanks + FieldsText(fields))
  }

  function ItemText(item: Item): string {
    item.before + (Text(item.value) + item.after)
  }

  /** Items with their separators and the closing bracket. */
  function ItemsText(items: seq<Item>): string {
    if items == [] then "]"
    else ItemText(items[0]) + (if |items| == 1 then "]" else "," + ItemsText(items[1..]))
  }

  function FieldText(f: FieldSyntax): string {
    f.before + (LiteralText(f.key) + (f.after + (":" + ItemText(f.item))))
  }

  function FieldsText(fields: seq<FieldSyntax>): string {
    if fields == [] then "}"
    else FieldText(fields[0]) + (if |fields| == 1 then "}" else "," + FieldsText(fields[1..]))
  }

  function Meaning(v: Syntax): Json
    requires Valid(v)
  {
    match v
    case True => JBool(true)
    case False => JBool(false)
    case Null => JNull
    case Numeral(minus, n) => JNumber(if minus then -NumberMeaning(n) else NumberMeaning(n))
    case Literal(pieces) => JString(PiecesMeaning(pieces))
    case Items(_, items) => JArray(ItemMeanings(items))
    case Fields(_, fields) => JObject(FieldMeanings(fields))
  }

  function ItemMeanings(items: seq<Item>): (js: seq<Json>)
    requires forall i :: 0 <= i < |items| ==> ValidItem(items[i])
  {
    if items == [] then []
    else
      assert ValidItem(items[0]);
      [Meaning(items[0].value)] + ItemMeanings(items[1..])
  }

  function FieldMeanings(fields: seq<FieldSyntax>): (ms: seq<Member>)
    requires forall i :: 0 <= i < |fields| ==> ValidField(fields[i])
  {
    if fields == [] then []
    else
      assert ValidField(fields[0]) && ValidItem(fields[0].item);
      [Member(PiecesMeaning(fields[0].key), Meaning(fields[0].item.value))] + FieldMeanings(fields[1..])
  }

  // ---- numbers are read for what they mean ------------------------------------------------------

  lemma {:induction false} Pow10Is(e: int)
    ensures Pow10(e) == Scaled(1.0, 10, e)
    decreases if e < 0 then -e else e
  {
    if e > 0 {
      Pow10Is(e - 1);
    } else if e < 0 {
      Pow10Is(e + 1);
    }
  }

  lemma {:induction false} Pow2Is(e: int)
    ensures Pow2(e) == Scaled(1.0, 2, e)
    decreases if e < 0 then -e else e
  {
    if e > 0 {
      Pow2Is(e - 1);
    } else if e < 0 {
      Pow2Is(e + 1);
    }
  }

  lemma ScaledTimes(x: real, base: nat, e: int, power: real)
    requires base > 0 && power == Scaled(1.0, base, e)
    ensures Sums.Times(x, power) == Scaled(x, base, e)
  {
  }

  /** Sixteen to the n-th is two to the 4n-th. */
  lemma {:induction false} SixteenIsFourTwos(n: nat)
    ensures Power(16, n) == Power(2, 4 * n)
  {
    if n > 0 {
      SixteenIsFourTwos(n - 1);
      var m := 4 * (n - 1);
      assert Power(2, m + 1) == 2 * Power(2, m);
      assert Power(2, m + 2) == 2 * Power(2, m + 1);
      assert Power(2, m + 3) == 2 * Power(2, m + 2);
      assert Power(2, m + 4) == 2 * Power(2, m + 3);
    }
  }

  /** What may stand behind a value. */
  predicate Closes(c: char) {
    c == NUL || IsBlank(c) || c in {',', ']', '}'}
  }

  /** Where the parts of an exponent stand. */
  lemma ExponentParts(t: string, p: nat, x: Exponent)
    requires x.sign in {"", "+", "-"} && x.digits != "" && Digits(x.digits) && HasAt(t, p, ExponentText(Some(x)))
    ensures var d := p + 1 + |x.sign|;
            && Peek(t, p) == x.letter && HasAt(t, d, x.digits) && IsDigit(Peek(t, d))
            && (x.sign == "-" <==> Peek(t, p + 1) == '-') && (x.sign == "+" <==> Peek(t, p + 1) == '+')
  {
    hide HasAt;
    HasBoth(t, p, [x.letter] + x.sign, x.digits);
    HasBoth(t, p, [x.letter], x.sign);
    HasChar(t, p, x.letter);
    CharAt(t, p + 1 + |x.sign|, x.digits, 0);
    if x.sign != "" {
      CharAt(t, p + 1, x.sign, 0);
    }
  }

  lemma ExponentReads(t: string, p: nat, o: Option<Exponent>, lower: char, upper: char)
    requires 'a' <= lower <= 'z' && upper as int + 32 == lower as int
    requires ValidExponent(o, lower, upper) && HasAt(t, p, ExponentText(o))
    requires !IsDigit(Peek(t, p + |ExponentText(o)|)) && (o.None? ==> !IsLetter(Peek(t, p), lower))
    ensures ExponentAt(t, p, lower) == (ExponentMeaning(o), p + |ExponentText(o)|)
  {
    hide HasAt, DigitsEnd, ValueOf;
    if o.Some? {
      var x := o.value;
      var d := p + 1 + |x.sign|;
      ExponentParts(t, p, x);
      DigitsAt(t, d, x.digits, |x.digits|);
      DigitsEndAt(t, d, d + |x.digits|);
    } else {
      NothingAt(t, p);
    }
  }

  lemma NothingAt(t: string, p: nat)
    requires HasAt(t, p, "")
    ensures p <= |t|
  {
  }

  lemma PeekIs(t: string, p: nat)
    ensures p < |t| ==> Peek(t, p) == t[p]
  {
  }

  lemma FractionReads(t: string, p: nat, o: Option<string>)
    requires HasAt(t, p, FractionText(o)) && (o.Some? ==> Digits(o.value))
    requires !IsDigit(Peek(t, p + |FractionText(o)|)) && (o.None? ==> Peek(t, p) != '.')
    ensures p <= |t| && FractionEnd(t, p) == p + |FractionText(o)|
    ensures o.Some? ==> ValueOf(t, p + 1, p + |FractionText(o)|) == ValueOf(o.value, 0, |o.value|)
  {
    hide HasAt;
    if o.Some? {
      HasBoth(t, p, ".", o.value);
      HasChar(t, p, '.');
      DigitsAt(t, p + 1, o.value, |o.value|);
      DigitsEndAt(t, p + 1, p + 1 + |o.value|);
    } else {
      NothingAt(t, p);
    }
  }

  /** The character behind a fraction and an exponent, seen from before them. */
  lemma PeekBehind(t: string, p: nat, s: string)
    requires HasAt(t, p, s)
    ensures Peek(t, p) == if s == "" then Peek(t, p + |s|) else s[0]
  {
    if s != "" {
      CharAt(t, p, s, 0);
    }
  }

  /** What stands behind a value goes on with no number, and neither do the letters of exponents and points. */
  lemma NoMoreDigits(c: char)
    ensures Closes(c) ==> c != '.' && !IsLetter(c, 'e') && !IsLetter(c, 'p')
    ensures Closes(c) || c in {'.', 'p', 'P'} ==> !IsDigit(c) && HexDigit(c) < 0 && !IsLetter(c, 'x')
    ensures c in {'e', 'E'} ==> !IsDigit(c) && !IsLetter(c, 'x') && c != '.'
    ensures c in {'p', 'P'} ==> c != '.'
  {
  }

  /** The four parts of a number one behind the other, and what stands behind the digits. */
  lemma PartsAt(t: string, p: nat, n: Number)
    requires HasAt(t, p, NumberText(n)) && Closes(Peek(t, p + |NumberText(n)|))
    ensures var d := p + |n.prefix|;
            var w := d + |n.whole|;
            var f := w + |FractionText(n.fraction)|;
            && HasAt(t, p, n.prefix) && HasAt(t, d, n.whole) && HasAt(t, w, FractionText(n.fraction))
            && HasAt(t, f, ExponentText(n.exponent)) && f + |ExponentText(n.exponent)| == p + |NumberText(n)|
            && (if n.exponent.Some? then Peek(t, f) == n.exponent.value.letter else Closes(Peek(t, f)))
            && (if n.fraction.Some? then Peek(t, w) == '.' else Peek(t, w) == Peek(t, f))
  {
    hide HasAt, Closes, FractionText, ExponentText, Peek;
    HasBoth(t, p, n.prefix + n.whole + FractionText(n.fraction), ExponentText(n.exponent));
    HasBoth(t, p, n.prefix + n.whole, FractionText(n.fraction));
    HasBoth(t, p, n.prefix, n.whole);
    var w := p + |n.prefix| + |n.whole|;
    TextsOpen(n);
    PeekBehind(t, w + |FractionText(n.fraction)|, ExponentText(n.exponent));
    PeekBehind(t, w, FractionText(n.fraction));
  }

  lemma TextsOpen(n: Number)
    ensures var text := ExponentText(n.exponent);
            if n.exponent.Some? then text != "" && text[0] == n.exponent.value.letter else text == ""
    ensures var text := FractionText(n.fraction);
            if n.fraction.Some? then text != "" && text[0] == '.' else text == ""
  {
  }

  lemma DecimalReads(t: string, p: nat, n: Number)
    requires ValidNumber(n) && n.prefix == "" && HasAt(t, p, NumberText(n)) && Closes(Peek(t, p + |NumberText(n)|))
    ensures p < |t| && IsDigit(t[p]) && MagnitudeAt(t, p) == (NumberMeaning(n), p + |NumberText(n)|)
  {
    hide HasAt, ValueOf, DigitsEnd, ExponentMeaning, ExponentAt, NumberMeaning, FractionEnd, IsHexAt, UnsignedAt;
    hide NumberText, ExponentText, FractionText, Closes, HexDigit, IsLetter, Peek;
    var w := p + |n.whole|;
    var f := w + |FractionText(n.fraction)|;
    PartsAt(t, p, n);
    NoMoreDigits(Peek(t, w));
    NoMoreDigits(Peek(t, f));
    NoMoreDigits(Peek(t, p + |NumberText(n)|));
    PeekIs(t, w);
    CharAt(t, p, n.whole, 0);
    DigitsAt(t, p, n.whole, |n.whole|);
    DigitsEndAt(t, p, w);
    FractionReads(t, w, n.fraction);
    ExponentReads(t, f, n.exponent, 'e', 'E');
    NotHex(t, p);
    DecimalIs(t, p, n, w, f);
  }

  /** A decimal number in its parts: whole digits up to w, a fraction up to f, an exponent. */
  lemma DecimalIs(t: string, d: nat, n: Number, w: nat, f: nat)
    requires ValidNumber(n) && n.prefix == ""
    requires d < |t| && IsDigit(t[d]) && DigitsEnd(t, d) == w == d + |n.whole| && FractionEnd(t, w) == f
    requires f == w + |FractionText(n.fraction)|
    requires ValueOf(t, d, w) == ValueOf(n.whole, 0, |n.whole|)
    requires n.fraction.Some? ==> ValueOf(t, w + 1, f) == ValueOf(n.fraction.value, 0, |n.fraction.value|)
    requires ExponentAt(t, f, 'e').0 == ExponentMeaning(n.exponent)
    ensures UnsignedAt(t, d) == (NumberMeaning(n), ExponentAt(t, f, 'e').1)
  {
    hide ValueOf, DigitsEnd, ExponentMeaning, ExponentAt, FractionEnd, Scaled, FractionMeaning, UnsignedAt, Pow10;
    hide FractionAt, Sums.Times;
    UnsignedParts(t, d, w, f);
    FractionIs(t, n.fraction, w, f);
    var e := ExponentMeaning(n.exponent);
    Pow10Is(e);
    ScaledTimes(ValueOf(n.whole, 0, |n.whole|) as real + FractionMeaning(n.fraction), 10, e, Pow10(e));
  }

  lemma UnsignedParts(t: string, d: nat, w: nat, f: nat)
    requires d < |t| && IsDigit(t[d]) && DigitsEnd(t, d) == w && FractionEnd(t, w) == f
    ensures var (e, end) := ExponentAt(t, f, 'e');
            UnsignedAt(t, d) == (Sums.Times(ValueOf(t, d, w) as real + FractionAt(t, w, f), Pow10(e)), end)
  {
    hide ValueOf, DigitsEnd, ExponentAt, FractionEnd, Pow10, FractionAt, Sums.Times;
  }

  lemma FractionIs(t: string, o: Option<string>, w: nat, f: nat)
    requires (o.Some? ==> Digits(o.value)) && f == w + |FractionText(o)| <= |t| && (f > w ==> AreDigits(t, w + 1, f))
    requires o.Some? ==> ValueOf(t, w + 1, f) == ValueOf(o.value, 0, |o.value|)
    ensures FractionAt(t, w, f) == FractionMeaning(o)
  {
    hide ValueOf, Scaled, Pow10;
    if o.Some? {
      Pow10Is(w + 1 - f);
      ScaledTimes(ValueOf(t, w + 1, f) as real, 10, w + 1 - f, Pow10(w + 1 - f));
    }
  }

  lemma HexFractionReads(t: string, p: nat, o: Option<string>)
    requires HasAt(t, p, FractionText(o)) && (o.Some? ==> HexDigits(o.value))
    requires HexDigit(Peek(t, p + |FractionText(o)|)) < 0 && (o.None? ==> Peek(t, p) != '.')
    ensures p <= |t| && HexFractionEnd(t, p) == p + |FractionText(o)|
    ensures o.Some? ==> HexValueOf(t, p + 1, p + |FractionText(o)|) == HexValueOf(o.value, 0, |o.value|)
  {
    hide HasAt, HexDigit, AreHex, HexValueOf, HexEnd;
    if o.Some? {
      HasBoth(t, p, ".", o.value);
      HasChar(t, p, '.');
      HexDigitsAt(t, p + 1, o.value, |o.value|);
      HexEndAt(t, p + 1, p + 1 + |o.value|);
    } else {
      NothingAt(t, p);
    }
  }

  lemma HexFractionIs(t: string, o: Option<string>, w: nat, f: nat)
    requires (o.Some? ==> HexDigits(o.value)) && f == w + |FractionText(o)| <= |t| && (f > w ==> AreHex(t, w + 1, f))
    requires o.Some? ==> HexValueOf(t, w + 1, f) == HexValueOf(o.value, 0, |o.value|)
    ensures HexFractionAt(t, w, f) == HexFractionMeaning(o)
  {
    hide HexValueOf, Pow2;
    if o.Some? {
      Pow2Is(4 * (w + 1 - f));
      SixteenIsFourTwos(|o.value|);
      ScaledTimes(HexValueOf(t, w + 1, f) as real, 16, w + 1 - f, Pow2(4 * (w + 1 - f)));
    }
  }

  /** A hexadecimal number in its parts. */
  lemma HexIs(t: string, d: nat, n: Number, w: nat, f: nat)
    requires ValidNumber(n) && n.prefix != "" && IsHexAt(t, d)
    requires HexEnd(t, d + 2) == w == d + 2 + |n.whole| && HexFractionEnd(t, w) == f == w + |FractionText(n.fraction)|
    requires HexValueOf(t, d + 2, w) == HexValueOf(n.whole, 0, |n.whole|)
    requires n.fraction.Some? ==> HexValueOf(t, w + 1, f) == HexValueOf(n.fraction.value, 0, |n.fraction.value|)
    requires ExponentAt(t, f, 'p').0 == ExponentMeaning(n.exponent)
    ensures HexAt(t, d) == (NumberMeaning(n), ExponentAt(t, f, 'p').1)
  {
    hide HexValueOf, HexEnd, ExponentMeaning, ExponentAt, Scaled, HexFractionMeaning, HexFractionEnd, HexAt, Pow2;
    hide IsHexAt, HexFractionAt, Sums.Times;
    HexParts(t, d, w, f);
    HexFractionIs(t, n.fraction, w, f);
    var e := ExponentMeaning(n.exponent);
    Pow2Is(e);
    ScaledTimes(HexValueOf(n.whole, 0, |n.whole|) as real + HexFractionMeaning(n.fraction), 2, e, Pow2(e));
  }

  lemma HexParts(t: string, d: nat, w: nat, f: nat)
    requires IsHexAt(t, d) && HexEnd(t, d + 2) == w && HexFractionEnd(t, w) == f
    ensures var (e, end) := ExponentAt(t, f, 'p');
            HexAt(t, d) == (Sums.Times(HexValueOf(t, d + 2, w) as real + HexFractionAt(t, w, f), Pow2(e)), end)
  {
    hide HexValueOf, HexEnd, ExponentAt, HexFractionEnd, Pow2, HexFractionAt, Sums.Times;
  }

  lemma HexPrefixAt(t: string, p: nat, n: Number)
    requires ValidNumber(n) && n.prefix != ""
    requires HasAt(t, p, n.prefix) && HasAt(t, p + 2, n.whole) && HasAt(t, p + 2 + |n.whole|, FractionText(n.fraction))
    ensures p < |t| && IsDigit(t[p]) && IsHexAt(t, p)
  {
    hide HasAt;
    CharAt(t, p, n.prefix, 0);
    CharAt(t, p, n.prefix, 1);
    if n.whole == "" {
      CharAt(t, p + 2, FractionText(n.fraction), 0);
      CharAt(t, p + 2, FractionText(n.fraction), 1);
    } else {
      CharAt(t, p + 2, n.whole, 0);
    }
  }

  /** The digits of a hexadecimal number, before and behind its point. */
  lemma HexPlaces(t: string, p: nat, n: Number)
    requires ValidNumber(n) && n.prefix != "" && HasAt(t, p, NumberText(n)) && Closes(Peek(t, p + |NumberText(n)|))
    ensures var w := p + 2 + |n.whole|;
            var f := w + |FractionText(n.fraction)|;
            && p < |t| && IsDigit(t[p]) && IsHexAt(t, p)
            && HexEnd(t, p + 2) == w && HexValueOf(t, p + 2, w) == HexValueOf(n.whole, 0, |n.whole|)
            && w <= |t| && HexFractionEnd(t, w) == f
            && (n.fraction.Some? ==> HexValueOf(t, w + 1, f) == HexValueOf(n.fraction.value, 0, |n.fraction.value|))
  {
    hide HasAt, HexValueOf, HexEnd, HexFractionEnd, IsHexAt, AreHex, ExponentText, FractionText;
    var w := p + 2 + |n.whole|;
    PartsAt(t, p, n);
    hide NumberText, Closes, HexDigit, Peek, IsDigit, IsLetter;
    NoMoreDigits(Peek(t, w));
    NoMoreDigits(Peek(t, w + |FractionText(n.fraction)|));
    NoMoreDigits(Peek(t, p + |NumberText(n)|));
    HexPrefixAt(t, p, n);
    HexDigitsAt(t, p + 2, n.whole, |n.whole|);
    HexEndAt(t, p + 2, w);
    HexFractionReads(t, w, n.fraction);
  }

  lemma HexReads(t: string, p: nat, n: Number)
    requires ValidNumber(n) && n.prefix != "" && HasAt(t, p, NumberText(n)) && Closes(Peek(t, p + |NumberText(n)|))
    ensures p < |t| && IsDigit(t[p]) && MagnitudeAt(t, p) == (NumberMeaning(n), p + |NumberText(n)|)
  {
    hide HasAt, HexValueOf, HexEnd, ExponentMeaning, ExponentAt, NumberMeaning, HexFractionEnd, IsHexAt, HexAt;
    hide UnsignedAt, AreHex, AreDigits, ExponentText, FractionText;
    var w := p + 2 + |n.whole|;
    var f := w + |FractionText(n.fraction)|;
    HexPlaces(t, p, n);
    PartsAt(t, p, n);
    hide NumberText, Closes, HexDigit, Peek, IsDigit, IsLetter;
    NoMoreDigits(Peek(t, f));
    NoMoreDigits(Peek(t, p + |NumberText(n)|));
    ExponentReads(t, f, n.exponent, 'p', 'P');
    HexIs(t, p, n, w, f);
  }

  // ---- what is read as a number is one ----------------------------------------------------------

  lemma PartsJoin(t: string, p: nat, n: Number)
    requires HasAt(t, p, n.prefix) && HasAt(t, p + |n.prefix|, n.whole)
    requires HasAt(t, p + |n.prefix| + |n.whole|, FractionText(n.fraction))
    requires HasAt(t, p + |n.prefix| + |n.whole| + |FractionText(n.fraction)|, ExponentText(n.exponent))
    ensures HasAt(t, p, NumberText(n))
    ensures |NumberText(n)| == |n.prefix| + |n.whole| + |FractionText(n.fraction)| + |ExponentText(n.exponent)|
  {
    hide HasAt, FractionText, ExponentText;
    JoinAt(t, p, n.prefix, n.whole);
    JoinAt(t, p, n.prefix + n.whole, FractionText(n.fraction));
    JoinAt(t, p, n.prefix + n.whole + FractionText(n.fraction), ExponentText(n.exponent));
  }

  lemma ExponentDerives(t: string, p: nat, lower: char, upper: char) returns (o: Option<Exponent>)
    requires p <= |t| && 'a' <= lower <= 'z' && upper as int + 32 == lower as int
    ensures ValidExponent(o, lower, upper) && HasAt(t, p, ExponentText(o))
    ensures ExponentAt(t, p, lower) == (ExponentMeaning(o), p + |ExponentText(o)|)
  {
    hide ValueOf, DigitsEnd, HasAt;
    var end := ExponentAt(t, p, lower).1;
    if end == p {
      NothingHere(t, p);
      return None;
    }
    var d := if Peek(t, p + 1) == '-' || Peek(t, p + 1) == '+' then p + 2 else p + 1;
    o := Some(Exponent(t[p], t[p + 1..d], t[d..end]));
    Slice(t, d, end);
    DigitsAt(t, d, t[d..end], end - d);
    ShortSlice(t, p + 1, d);
    ThreeSlices(t, p, d, end);
  }

  lemma ShortSlice(t: string, p: nat, e: nat)
    requires p <= e <= p + 1 && e <= |t|
    ensures t[p..e] == if e == p then "" else [t[p]]
  {
  }

  lemma NothingHere(t: string, p: nat)
    requires p <= |t|
    ensures HasAt(t, p, "")
  {
  }

  lemma ThreeSlices(t: string, p: nat, d: nat, e: nat)
    requires p < d <= e <= |t|
    ensures HasAt(t, p, [t[p]] + t[p + 1..d] + t[d..e]) && |[t[p]] + t[p + 1..d] + t[d..e]| == e - p
  {
    assert t[p..p + 1] == [t[p]];
    SliceInTwo(t, p, p + 1, d);
    SliceInTwo(t, p, d, e);
  }

  lemma FractionDerives(t: string, p: nat) returns (o: Option<string>)
    requires p <= |t|
    ensures (o.Some? ==> Digits(o.value)) && HasAt(t, p, FractionText(o))
    ensures FractionEnd(t, p) == p + |FractionText(o)|
    ensures o.Some? ==> ValueOf(t, p + 1, p + |FractionText(o)|) == ValueOf(o.value, 0, |o.value|)
  {
    if Peek(t, p) == '.' {
      var e := FractionEnd(t, p);
      Slice(t, p + 1, e);
      Slice(t, p, p + 1);
      JoinAt(t, p, ".", t[p + 1..e]);
      DigitsAt(t, p + 1, t[p + 1..e], e - (p + 1));
      o := Some(t[p + 1..e]);
    } else {
      o := None;
    }
  }

  lemma HexFractionDerives(t: string, p: nat) returns (o: Option<string>)
    requires p <= |t|
    ensures (o.Some? ==> HexDigits(o.value)) && HasAt(t, p, FractionText(o))
    ensures HexFractionEnd(t, p) == p + |FractionText(o)|
    ensures o.Some? ==> HexValueOf(t, p + 1, p + |FractionText(o)|) == HexValueOf(o.value, 0, |o.value|)
  {
    if Peek(t, p) == '.' {
      var e := HexFractionEnd(t, p);
      Slice(t, p + 1, e);
      Slice(t, p, p + 1);
      JoinAt(t, p, ".", t[p + 1..e]);
      HexDigitsAt(t, p + 1, t[p + 1..e], e - (p + 1));
      o := Some(t[p + 1..e]);
    } else {
      o := None;
    }
  }

  lemma DecimalDerives(t: string, d: nat) returns (n: Number)
    requires d < |t| && IsDigit(t[d])
    ensures ValidNumber(n) && HasAt(t, d, NumberText(n)) && UnsignedAt(t, d) == (NumberMeaning(n), d + |NumberText(n)|)
  {
    hide HasAt, ValueOf, ExponentMeaning, ExponentAt, FractionEnd, NumberMeaning, UnsignedAt, NumberText, ExponentText;
    hide FractionText;
    var w := DigitsEnd(t, d);
    Slice(t, d, d);
    Slice(t, d, w);
    DigitsAt(t, d, t[d..w], w - d);
    var fraction := FractionDerives(t, w);
    var f := w + |FractionText(fraction)|;
    var exponent := ExponentDerives(t, f, 'e', 'E');
    n := Number("", t[d..w], fraction, exponent);
    DecimalIs(t, d, n, w, f);
    PartsJoin(t, d, n);
  }

  lemma HexHasDigits(t: string, d: nat)
    requires IsHexAt(t, d)
    ensures var w := HexEnd(t, d + 2); w > d + 2 || HexFractionEnd(t, w) > w + 1
  {
    if HexEnd(t, d + 2) == d + 2 {
      assert HexEnd(t, d + 3) > d + 3;
    }
  }

  lemma HexDerives(t: string, d: nat) returns (n: Number)
    requires IsHexAt(t, d)
    ensures ValidNumber(n) && HasAt(t, d, NumberText(n)) && HexAt(t, d) == (NumberMeaning(n), d + |NumberText(n)|)
  {
    hide HasAt, HexValueOf, ExponentMeaning, ExponentAt, NumberMeaning, HexAt, NumberText, ExponentText, HexEnd;
    hide HexFractionEnd;
    var w := HexEnd(t, d + 2);
    Slice(t, d, d + 2);
    Slice(t, d + 2, w);
    HexDigitsAt(t, d + 2, t[d + 2..w], w - (d + 2));
    var fraction := HexFractionDerives(t, w);
    var f := w + |FractionText(fraction)|;
    var exponent := ExponentDerives(t, f, 'p', 'P');
    n := Number(t[d..d + 2], t[d + 2..w], fraction, exponent);
    assert t[d..d + 2] == [t[d], t[d + 1]];
    HexHasDigits(t, d);
    HexIs(t, d, n, w, f);
    PartsJoin(t, d, n);
  }

  // ---- literals ---------------------------------------------------------------------------------

  /** The escapes of the reader are those of the table. */
  lemma EscapesAre(e: char)
    ensures SimpleEscape(e) == if e in ESCAPES then [ESCAPES[e]] else ""
  {
  }

  lemma HexDigitsAhead(t: string, p: nat, digits: string)
    requires HasAt(t, p, digits) && |digits| == 4 && HexDigits(digits)
    ensures UnicodeAt(t, p) == (FourHexBound(digits); Unit(Utf8(HexValueOf(digits, 0, 4)), p + 4, false))
  {
    hide HasAt, Utf8, HexDigit;
    CharAt(t, p, digits, 0);
    CharAt(t, p, digits, 1);
    CharAt(t, p, digits, 2);
    CharAt(t, p, digits, 3);
    FourHexBound(digits);
  }

  lemma PieceReads(t: string, p: nat, piece: Piece)
    requires ValidPiece(piece) && HasAt(t, p, PieceText(piece))
    ensures Inside(t, p)
    ensures var u := UnitAt(t, p); u.Unit? && u.bytes == PieceMeaning(piece) && u.next == p + |PieceText(piece)|
  {
    hide HasAt, HexDigits, SimpleEscape, Utf8, UnicodeAt;
    var w := PieceText(piece);
    CharAt(t, p, w, 0);
    match piece
    case Plain(c) =>
    case Letter(e) =>
      CharAt(t, p, w, 1);
      EscapesAre(e);
    case Unicode(digits) =>
      CharAt(t, p, w, 1);
      HasBoth(t, p, "\\u", digits);
      HexDigitsAhead(t, p + 2, digits);
  }

  lemma PieceDerives(t: string, p: nat) returns (piece: Piece)
    requires Inside(t, p) && UnitAt(t, p).Unit?
    ensures ValidPiece(piece) && HasAt(t, p, PieceText(piece))
    ensures UnitAt(t, p).bytes == PieceMeaning(piece) && UnitAt(t, p).next == p + |PieceText(piece)|
  {
    hide SimpleEscape, Utf8, UnicodeAt;
    Slice(t, p, p + 1);
    if t[p] != '\\' {
      piece := Plain(t[p]);
    } else if Peek(t, p + 1) == 'u' {
      piece := UnicodeDerives(t, p + 2);
      Slice(t, p, p + 2);
      JoinAt(t, p, "\\u", piece.digits);
    } else {
      EscapesAre(Peek(t, p + 1));
      Slice(t, p, p + 2);
      piece := Letter(t[p + 1]);
    }
  }

  lemma UnicodeDerives(t: string, p: nat) returns (piece: Piece)
    requires p <= |t| && UnicodeAt(t, p).Unit?
    ensures piece.Unicode? && ValidPiece(piece) && HasAt(t, p, piece.digits)
    ensures UnicodeAt(t, p).bytes == PieceMeaning(piece)
  {
    hide Utf8;
    piece := Unicode(t[p..p + 4]);
    Slice(t, p, p + 4);
    HexDigitsAhead(t, p, t[p..p + 4]);
  }

  /** Read up to next as v, whatever line it ends on. */
  ghost predicate ReadAs<T>(r: Parsed<T>, v: T, next: nat) {
    r.Ok? && r.value == v && r.next == next
  }

  lemma BodyStep(t: string, p: nat, line: nat)
    requires Inside(t, p) && UnitAt(t, p).Unit?
    ensures var u := UnitAt(t, p);
            var rest := BodyAt(t, u.next, if u.newline then line + 1 else line);
            rest.Ok? ==> ReadAs(BodyAt(t, p, line), u.bytes + rest.value, rest.next)
  {
    hide UnitAt;
  }

  lemma {:induction false} BodyReads(t: string, p: nat, pieces: seq<Piece>, line: nat)
    requires ValidPieces(pieces) && HasAt(t, p, PiecesText(pieces) + "\"")
    ensures p <= |t| && ReadAs(BodyAt(t, p, line), PiecesMeaning(pieces), p + |PiecesText(pieces)| + 1)
    decreases |pieces|
  {
    hide HasAt, ValidPiece, PieceMeaning, PieceText, UnitAt;
    HasBoth(t, p, PiecesText(pieces), "\"");
    if pieces == [] {
      HasChar(t, p, '"');
    } else {
      hide BodyAt;
      var first, rest := PieceText(pieces[0]), PiecesText(pieces[1..]);
      HasBoth(t, p, first, rest);
      JoinAt(t, p + |first|, rest, "\"");
      PieceReads(t, p, pieces[0]);
      BodyStep(t, p, line);
      BodyReads(t, p + |first|, pieces[1..], if UnitAt(t, p).newline then line + 1 else line);
    }
  }

  lemma {:induction false} BodyDerives(t: string, p: nat, line: nat) returns (pieces: seq<Piece>)
    requires p <= |t| && BodyAt(t, p, line).Ok?
    ensures ValidPieces(pieces) && HasAt(t, p, PiecesText(pieces) + "\"")
    ensures ReadAs(BodyAt(t, p, line), PiecesMeaning(pieces), p + |PiecesText(pieces)| + 1)
    decreases |t| - p
  {
    hide HasAt, ValidPiece, PieceMeaning, UnitAt;
    if Peek(t, p) == '"' {
      Slice(t, p, p + 1);
      assert t[p..p + 1] == "\"" == "" + "\"";
      pieces := [];
    } else {
      var u := UnitAt(t, p);
      var piece := PieceDerives(t, p);
      var rest := BodyDerives(t, u.next, if u.newline then line + 1 else line);
      pieces := [piece] + rest;
      assert pieces[1..] == rest;
      JoinAt(t, p, PieceText(piece), PiecesText(rest) + "\"");
      assert PieceText(piece) + (PiecesText(rest) + "\"") == PiecesText(pieces) + "\"";
    }
  }

  lemma {:induction false} LiteralReads(t: string, p: nat, pieces: seq<Piece>, line: nat)
    requires ValidPieces(pieces) && HasAt(t, p, LiteralText(pieces))
    ensures p < |t| && t[p] == '"' && ReadAs(StringAt(t, p, line), PiecesMeaning(pieces), p + |LiteralText(pieces)|)
  {
    hide HasAt, PiecesText, PiecesMeaning, BodyAt;
    HasBoth(t, p, "\"", PiecesText(pieces) + "\"");
    HasChar(t, p, '"');
    BodyReads(t, p + 1, pieces, line);
  }

  lemma {:induction false} LiteralDerives(t: string, p: nat, line: nat) returns (pieces: seq<Piece>)
    requires p <= |t| && StringAt(t, p, line).Ok?
    ensures ValidPieces(pieces) && HasAt(t, p, LiteralText(pieces))
    ensures ReadAs(StringAt(t, p, line), PiecesMeaning(pieces), p + |LiteralText(pieces)|)
  {
    hide HasAt, PiecesText, PiecesMeaning, BodyAt;
    pieces := BodyDerives(t, p + 1, line);
    Slice(t, p, p + 1);
    JoinAt(t, p, "\"", PiecesText(pieces) + "\"");
  }

  // ---- white space ------------------------------------------------------------------------------

  /** Blanks are skipped up to the first other character. */
  lemma BlanksSkipped(t: string, p: nat, s: string)
    requires AreBlanks(s) && HasAt(t, p, s) && !IsBlank(Peek(t, p + |s|))
    ensures p <= |t| && SkipEnd(t, p) == p + |s|
  {
    hide IsSpace;
    forall i | 0 <= i < |s|
      ensures IsSpace(s[i])
    {
      SpacesAre(s[i]);
    }
    SpacesAre(Peek(t, p + |s|));
    SpacesSkipped(t, p, s);
  }

  lemma {:induction false} SkippedAreBlanks(t: string, p: nat)
    requires p <= |t|
    ensures AreBlanks(t[p..SkipEnd(t, p)]) && HasAt(t, p, t[p..SkipEnd(t, p)])
    decreases |t| - p
  {
    SpacesAre(Peek(t, p));
    if IsSpace(Peek(t, p)) {
      SkippedAreBlanks(t, p + 1);
      assert t[p..SkipEnd(t, p)] == [t[p]] + t[p + 1..SkipEnd(t, p)];
    }
  }

  /** Skipping twice is skipping once. */
  lemma SkipTwice(t: string, p: nat)
    requires p <= |t|
    ensures SkipEnd(t, SkipEnd(t, p)) == SkipEnd(t, p)
  {
  }

  // ---- every text of the language is read -------------------------------------------------------

  lemma {:induction false} WordReads(t: string, p: nat, v: Syntax, line: nat)
    requires (v.True? || v.False? || v.Null?) && HasAt(t, p, Text(v))
    ensures Peek(t, p) in {'t', 'f', 'n'} && ReadAs(LiteralAt(t, p, line), Meaning(v), p + |Text(v)|)
  {
    CharAt(t, p, Text(v), 0);
    if HasAt(t, p, "true") {
      CharAt(t, p, "true", 0);
    }
    if HasAt(t, p, "false") {
      CharAt(t, p, "false", 0);
    }
  }

  lemma {:induction false} NumeralReads(t: string, p: nat, v: Syntax, line: nat)
    requires v.Numeral? && Valid(v) && HasAt(t, p, Text(v)) && Closes(Peek(t, p + |Text(v)|))
    ensures p <= |t| && (Peek(t, p) == '-' || IsDigit(Peek(t, p)))
    ensures ReadAs(NumberAt(t, p, line), Meaning(v), p + |Text(v)|)
  {
    hide HasAt, MagnitudeAt, NumberMeaning, NumberText, ValidNumber, Closes;
    HasBoth(t, p, if v.minus then "-" else "", NumberText(v.n));
    var d := p + (if v.minus then 1 else 0);
    if v.minus {
      HasChar(t, p, '-');
    }
    if v.n.prefix == "" {
      DecimalReads(t, d, v.n);
    } else {
      HexReads(t, d, v.n);
    }
  }

  /** A value, with white space in front of it, is read for what it means. */
  lemma {:induction false} ValueReads(t: string, q: nat, p: nat, v: Syntax, line: nat)
    requires Valid(v) && HasAt(t, p, Text(v)) && Closes(Peek(t, p + |Text(v)|))
    requires q <= |t| && SkipEnd(t, q) == p
    ensures ReadAs(ValueAt(t, q, line), Meaning(v), p + |Text(v)|)
    decreases v, 1
  {
    hide HasAt, Closes, NumberAt, LiteralAt, StringAt, ObjectAt, ArrayAt, IsDigit;
    match v {
      case Numeral(_, _) =>
        NumeralReads(t, p, v, SkipLine(t, q, line));
        DigitIsNoOpener(Peek(t, p));
      case Literal(pieces) => LiteralReads(t, p, pieces, SkipLine(t, q, line));
      case Items(_, _) => ArrayReads(t, p, v, SkipLine(t, q, line));
      case Fields(_, _) => ObjectReads(t, p, v, SkipLine(t, q, line));
      case _ => WordReads(t, p, v, SkipLine(t, q, line));
    }
  }

  lemma DigitIsNoOpener(c: char)
    requires c == '-' || IsDigit(c)
    ensures c !in {'{', '[', '"', 't', 'f', 'n', NUL}
  {
  }

  /** A value starts with neither white space nor a closing bracket. */
  lemma {:induction false} TextOpens(t: string, p: nat, v: Syntax)
    requires Valid(v) && HasAt(t, p, Text(v))
    ensures !IsBlank(Peek(t, p)) && Peek(t, p) != ']' && Peek(t, p) != '}'
  {
    hide HasAt;
    if v.Numeral? {
      NumberOpens(v.n);
    }
    CharAt(t, p, Text(v), 0);
  }

  lemma NumberOpens(n: Number)
    requires ValidNumber(n)
    ensures NumberText(n) != "" && IsDigit(NumberText(n)[0])
  {
    if n.prefix == "" {
      assert IsDigit(n.whole[0]);
    }
  }

  /** White space in front of an item, after some more of it, is skipped up to the value. */
  lemma {:induction false} ItemOpens(t: string, p: nat, blanks: string, item: Item)
    requires AreBlanks(blanks) && ValidItem(item) && HasAt(t, p, blanks + ItemText(item))
    ensures p <= |t| && SkipEnd(t, p) == p + |blanks| + |item.before| && Peek(t, SkipEnd(t, p)) !in {']', '}'}
  {
    hide HasAt, IsBlank, Text;
    var rest := Text(item.value) + item.after;
    assert blanks + ItemText(item) == (blanks + item.before) + rest;
    HasBoth(t, p, blanks + item.before, rest);
    HasBoth(t, p + |blanks| + |item.before|, Text(item.value), item.after);
    TextOpens(t, p + |blanks| + |item.before|, item.value);
    BlanksSkipped(t, p, blanks + item.before);
  }

  /** An item is read up to the white space behind its value. */
  lemma {:induction false} ItemReads(t: string, q: nat, p: nat, item: Item, line: nat)
    requires ValidItem(item) && HasAt(t, p, ItemText(item)) && Peek(t, p + |ItemText(item)|) in {',', ']', '}', NUL}
    requires q <= |t| && SkipEnd(t, q) == p + |item.before|
    ensures var end := p + |item.before| + |Text(item.value)|;
            ReadAs(ValueAt(t, q, line), Meaning(item.value), end) && SkipEnd(t, end) == p + |ItemText(item)|
    decreases item
  {
    hide HasAt, Text, Meaning, ValueAt;
    var start := p + |item.before|;
    var end := start + |Text(item.value)|;
    HasBoth(t, p, item.before, Text(item.value) + item.after);
    HasBoth(t, start, Text(item.value), item.after);
    PeekBehind(t, end, item.after);
    ValueReads(t, q, start, item.value, line);
    BlanksSkipped(t, end, item.after);
  }

  lemma {:induction false} ArrayReads(t: string, p: nat, v: Syntax, line: nat)
    requires v.Items? && Valid(v) && HasAt(t, p, Text(v))
    ensures p < |t| && t[p] == '[' && ReadAs(ArrayAt(t, p, line), Meaning(v), p + |Text(v)|)
    decreases v, 0
  {
    hide HasAt, ItemText, ItemsAt, IsBlank, ValidItem, Peek, SkipEnd;
    HasBoth(t, p, "[", v.blanks + ItemsText(v.items));
    HasChar(t, p, '[');
    HasBoth(t, p + 1, v.blanks, ItemsText(v.items));
    if v.items == [] {
      HasChar(t, p + 1 + |v.blanks|, ']');
      CharIsPeek(t, p + 1 + |v.blanks|);
      BlanksSkipped(t, p + 1, v.blanks);
    } else {
      HasFirst(t, p + 1, v.blanks, v.items);
      ItemOpens(t, p + 1, v.blanks, v.items[0]);
      SkipTwice(t, p + 1);
      ItemsRead(t, SkipEnd(t, p + 1), p + 1 + |v.blanks|, v.items, SkipLine(t, p + 1, line));
    }
  }

  lemma CharIsPeek(t: string, p: nat)
    requires p < |t|
    ensures Peek(t, p) == t[p]
    ensures t[p] in {']', '}', '"', ':'} ==> !IsBlank(t[p])
  {
  }

  lemma {:induction false} HasFirst(t: string, p: nat, blanks: string, items: seq<Item>)
    requires items != [] && HasAt(t, p, blanks + ItemsText(items))
    ensures HasAt(t, p, blanks + ItemText(items[0]))
  {
    var rest := if |items| == 1 then "]" else "," + ItemsText(items[1..]);
    assert ItemsText(items) == ItemText(items[0]) + rest;
    assert blanks + ItemsText(items) == (blanks + ItemText(items[0])) + rest;
    HasBoth(t, p, blanks + ItemText(items[0]), rest);
  }

  lemma {:induction false} OneItem(items: seq<Item>)
    requires |items| == 1 && ValidItem(items[0])
    ensures ItemMeanings(items) == [Meaning(items[0].value)] && ItemsText(items) == ItemText(items[0]) + "]"
  {
    assert items[1..] == [];
  }

  lemma ItemsStep(t: string, q: nat, line: nat)
    requires q <= |t| && ValueAt(t, q, line).Ok?
    ensures var v := ValueAt(t, q, line);
            var sep, l := SkipEnd(t, v.next), SkipLine(t, v.next, v.line);
            && (Peek(t, sep) == ']' ==> ReadAs(ItemsAt(t, q, line), [v.value], sep + 1))
            && (Peek(t, sep) == ',' ==>
                  var rest := ItemsAt(t, sep + 1, l);
                  rest.Ok? ==> ReadAs(ItemsAt(t, q, line), [v.value] + rest.value, rest.next))
  {
  }

  /** The first item, and the bracket or the comma and the other items behind it. */
  lemma {:induction false} ItemsSplit(t: string, p: nat, items: seq<Item>)
    requires items != [] && HasAt(t, p, ItemsText(items))
    ensures var sep := p + |ItemText(items[0])|;
            && HasAt(t, p, ItemText(items[0])) && sep < |t|
            && (if |items| == 1 then t[sep] == ']' && |ItemsText(items)| == sep + 1 - p
                else && t[sep] == ',' && HasAt(t, sep + 1, ItemsText(items[1..]))
                     && |ItemsText(items)| == sep + 1 - p + |ItemsText(items[1..])|)
  {
    hide HasAt, ItemText;
    if |items| == 1 {
      assert ItemsText(items) == ItemText(items[0]) + ([']'] + "");
      HasCharBehind(t, p, ItemText(items[0]), ']', "");
    } else {
      assert ItemsText(items) == ItemText(items[0]) + ([','] + ItemsText(items[1..]));
      HasCharBehind(t, p, ItemText(items[0]), ',', ItemsText(items[1..]));
    }
  }

  lemma {:induction false} ItemsRead(t: string, q: nat, p: nat, items: seq<Item>, line: nat)
    requires items != [] && (forall i :: 0 <= i < |items| ==> ValidItem(items[i])) && HasAt(t, p, ItemsText(items))
    requires q <= |t| && SkipEnd(t, q) == p + |items[0].before|
    ensures ReadAs(ItemsAt(t, q, line), ItemMeanings(items), p + |ItemsText(items)|)
    decreases items, 0
  {
    hide HasAt, ItemText, ItemsText, ValidItem, Meaning, ValueAt, IsBlank, SkipEnd, ItemsAt, SkipLine;
    var item, sep := items[0], p + |ItemText(items[0])|;
    ItemsSplit(t, p, items);
    ItemReads(t, q, p, item, line);
    ItemsStep(t, q, line);
    if |items| == 1 {
      OneItem(items);
    } else {
      ItemsReadRest(t, sep + 1, items[1..], SkipLine(t, ValueAt(t, q, line).next, ValueAt(t, q, line).line));
    }
  }

  /** The items behind a comma. */
  lemma {:induction false} ItemsReadRest(t: string, p: nat, items: seq<Item>, line: nat)
    requires items != [] && (forall i :: 0 <= i < |items| ==> ValidItem(items[i])) && HasAt(t, p, ItemsText(items))
    ensures p <= |t| && ReadAs(ItemsAt(t, p, line), ItemMeanings(items), p + |ItemsText(items)|)
    decreases items, 1
  {
    hide HasAt, ItemText, ItemsText, ValidItem, ItemMeanings, IsBlank, SkipEnd, ItemsAt;
    assert "" + ItemsText(items) == ItemsText(items);
    HasFirst(t, p, "", items);
    ItemOpens(t, p, "", items[0]);
    ItemsRead(t, p, p, items, line);
  }

  /** A key, with white space in front of it after some more, is skipped up to. */
  lemma {:induction false} FieldOpens(t: string, p: nat, blanks: string, f: FieldSyntax)
    requires AreBlanks(blanks) && ValidField(f) && HasAt(t, p, blanks + FieldText(f))
    ensures p <= |t| && SkipEnd(t, p) == p + |blanks| + |f.before| && Peek(t, SkipEnd(t, p)) == '"'
  {
    hide HasAt, IsBlank, PiecesText, ItemText;
    var rest := LiteralText(f.key) + (f.after + (":" + ItemText(f.item)));
    assert blanks + FieldText(f) == (blanks + f.before) + rest;
    HasBoth(t, p, blanks + f.before, rest);
    var start := p + |blanks| + |f.before|;
    CharAt(t, start, rest, 0);
    CharIsPeek(t, start);
    BlanksSkipped(t, p, blanks + f.before);
  }

  /** Where the parts of a field stand. */
  lemma {:induction false} FieldParts(t: string, p: nat, f: FieldSyntax)
    requires HasAt(t, p, FieldText(f))
    ensures var start := p + |f.before|;
            var behind := start + |LiteralText(f.key)|;
            var colon := behind + |f.after|;
            && HasAt(t, start, LiteralText(f.key)) && HasAt(t, behind, f.after) && colon < |t| && t[colon] == ':'
            && HasAt(t, colon + 1, ItemText(f.item)) && colon + 1 + |ItemText(f.item)| == p + |FieldText(f)|
            && |ItemText(f.item)| == |f.item.before| + |Text(f.item.value)| + |f.item.after|
  {
    hide HasAt, Text, LiteralText;
    var start := p + |f.before|;
    var behind := start + |LiteralText(f.key)|;
    HasBoth(t, p, f.before, LiteralText(f.key) + (f.after + (":" + ItemText(f.item))));
    HasBoth(t, start, LiteralText(f.key), f.after + (":" + ItemText(f.item)));
    HasBoth(t, behind, f.after, ":" + ItemText(f.item));
    HasBoth(t, behind + |f.after|, ":", ItemText(f.item));
    HasChar(t, behind + |f.after|, ':');
  }

  /** A key, a colon and an item are read up to the white space behind the value. */
  lemma {:induction false} FieldReads(t: string, q: nat, p: nat, f: FieldSyntax, line: nat)
    requires ValidField(f) && ValidItem(f.item)
    requires HasAt(t, p, FieldText(f)) && Peek(t, p + |FieldText(f)|) in {',', ']', '}', NUL}
    requires q <= |t| && SkipEnd(t, q) == p + |f.before|
    ensures var colon := p + |f.before| + |LiteralText(f.key)| + |f.after|;
            var end := colon + 1 + |f.item.before| + |Text(f.item.value)|;
            ReadAs(MemberAt(t, q, line), Member(PiecesMeaning(f.key), Meaning(f.item.value)), end)
            && SkipEnd(t, end) == p + |FieldText(f)|
    decreases f
  {
    hide HasAt, Text, Meaning, ValueAt, StringAt, LiteralText, PiecesMeaning, SkipEnd, IsBlank;
    var start := p + |f.before|;
    var behind := start + |LiteralText(f.key)|;
    var colon := behind + |f.after|;
    FieldParts(t, p, f);
    hide FieldText, ItemText;
    LiteralReads(t, start, f.key, SkipLine(t, q, line));
    CharIsPeek(t, colon);
    BlanksSkipped(t, behind, f.after);
    var key := StringAt(t, start, SkipLine(t, q, line));
    assert "" + ItemText(f.item) == ItemText(f.item);
    ItemOpens(t, colon + 1, "", f.item);
    ItemReads(t, colon + 1, colon + 1, f.item, SkipLine(t, key.next, key.line));
  }

  lemma {:induction false} OneField(fields: seq<FieldSyntax>)
    requires |fields| == 1 && ValidField(fields[0]) && ValidItem(fields[0].item)
    ensures FieldMeanings(fields) == [Member(PiecesMeaning(fields[0].key), Meaning(fields[0].item.value))]
    ensures FieldsText(fields) == FieldText(fields[0]) + "}"
  {
    assert fields[1..] == [];
  }

  lemma MembersStep(t: string, q: nat, line: nat)
    requires q <= |t| && MemberAt(t, q, line).Ok?
    ensures var m := MemberAt(t, q, line);
            var sep, l := SkipEnd(t, m.next), SkipLine(t, m.next, m.line);
            && (Peek(t, sep) == '}' ==> ReadAs(MembersAt(t, q, line), [m.value], sep + 1))
            && (Peek(t, sep) == ',' ==>
                  var rest := MembersAt(t, sep + 1, l);
                  rest.Ok? ==> ReadAs(MembersAt(t, q, line), [m.value] + rest.value, rest.next))
  {
  }

  /** The first field, and the brace or the comma and the other fields behind it. */
  lemma {:induction false} FieldsSplit(t: string, p: nat, fields: seq<FieldSyntax>)
    requires fields != [] && HasAt(t, p, FieldsText(fields))
    ensures var sep := p + |FieldText(fields[0])|;
            && HasAt(t, p, FieldText(fields[0])) && sep < |t|
            && (if |fields| == 1 then t[sep] == '}' && |FieldsText(fields)| == sep + 1 - p
                else && t[sep] == ',' && HasAt(t, sep + 1, FieldsText(fields[1..]))
                     && |FieldsText(fields)| == sep + 1 - p + |FieldsText(fields[1..])|)
  {
    hide HasAt, FieldText;
    if |fields| == 1 {
      assert FieldsText(fields) == FieldText(fields[0]) + (['}'] + "");
      HasCharBehind(t, p, FieldText(fields[0]), '}', "");
    } else {
      assert FieldsText(fields) == FieldText(fields[0]) + ([','] + FieldsText(fields[1..]));
      HasCharBehind(t, p, FieldText(fields[0]), ',', FieldsText(fields[1..]));
    }
  }

  lemma {:induction false} FieldsRead(t: string, q: nat, p: nat, fields: seq<FieldSyntax>, line: nat)
    requires fields != [] && (forall i :: 0 <= i < |fields| ==> ValidField(fields[i]))
    requires HasAt(t, p, FieldsText(fields)) && q <= |t| && SkipEnd(t, q) == p + |fields[0].before|
    ensures ReadAs(MembersAt(t, q, line), FieldMeanings(fields), p + |FieldsText(fields)|)
    decreases fields, 0
  {
    hide HasAt, FieldText, FieldsText, Meaning, MemberAt, IsBlank, SkipEnd, MembersAt, SkipLine, Text;
    hide PiecesMeaning;
    var sep := p + |FieldText(fields[0])|;
    FieldsSplit(t, p, fields);
    FieldReads(t, q, p, fields[0], line);
    MembersStep(t, q, line);
    if |fields| == 1 {
      OneField(fields);
    } else {
      FieldsReadRest(t, sep + 1, fields[1..], SkipLine(t, MemberAt(t, q, line).next, MemberAt(t, q, line).line));
    }
  }

  /** The fields behind a comma. */
  lemma {:induction false} FieldsReadRest(t: string, p: nat, fields: seq<FieldSyntax>, line: nat)
    requires fields != [] && (forall i :: 0 <= i < |fields| ==> ValidField(fields[i]))
    requires HasAt(t, p, FieldsText(fields))
    ensures p <= |t| && ReadAs(MembersAt(t, p, line), FieldMeanings(fields), p + |FieldsText(fields)|)
    decreases fields, 1
  {
    hide HasAt, FieldText, FieldsText, ValidField, FieldMeanings, IsBlank, SkipEnd, MembersAt;
    FieldsSplit(t, p, fields);
    assert "" + FieldText(fields[0]) == FieldText(fields[0]);
    FieldOpens(t, p, "", fields[0]);
    FieldsRead(t, p, p, fields, line);
  }

  lemma {:induction false} ObjectReads(t: string, p: nat, v: Syntax, line: nat)
    requires v.Fields? && Valid(v) && HasAt(t, p, Text(v))
    ensures p < |t| && t[p] == '{' && ReadAs(ObjectAt(t, p, line), Meaning(v), p + |Text(v)|)
    decreases v, 0
  {
    hide HasAt, FieldText, MembersAt, IsBlank, ValidField, Peek, SkipEnd;
    HasBoth(t, p, "{", v.blanks + FieldsText(v.fields));
    HasChar(t, p, '{');
    HasBoth(t, p + 1, v.blanks, FieldsText(v.fields));
    if v.fields == [] {
      HasChar(t, p + 1 + |v.blanks|, '}');
      CharIsPeek(t, p + 1 + |v.blanks|);
      BlanksSkipped(t, p + 1, v.blanks);
    } else {
      FieldsSplit(t, p + 1 + |v.blanks|, v.fields);
      JoinAt(t, p + 1, v.blanks, FieldText(v.fields[0]));
      FieldOpens(t, p + 1, v.blanks, v.fields[0]);
      SkipTwice(t, p + 1);
      FieldsRead(t, SkipEnd(t, p + 1), p + 1 + |v.blanks|, v.fields, SkipLine(t, p + 1, line));
    }
  }

  // ---- whatever is read is a text of the language -----------------------------------------------

  lemma {:induction false} WordDerives(t: string, p: nat, line: nat) returns (v: Syntax)
    requires p <= |t| && LiteralAt(t, p, line).Ok?
    ensures Valid(v) && HasAt(t, p, Text(v)) && ReadAs(LiteralAt(t, p, line), Meaning(v), p + |Text(v)|)
  {
    v := if HasAt(t, p, "true") then True else if HasAt(t, p, "false") then False else Null;
  }

  lemma {:induction false} NumeralDerives(t: string, p: nat, line: nat) returns (v: Syntax)
    requires p <= |t| && NumberAt(t, p, line).Ok?
    ensures Valid(v) && HasAt(t, p, Text(v)) && ReadAs(NumberAt(t, p, line), Meaning(v), p + |Text(v)|)
  {
    hide HasAt, HexAt, UnsignedAt, NumberMeaning, NumberText, ValidNumber, IsHexAt;
    var minus := Peek(t, p) == '-';
    var d := if minus then p + 1 else p;
    var n;
    if IsHexAt(t, d) {
      n := HexDerives(t, d);
    } else {
      n := DecimalDerives(t, d);
    }
    Slice(t, p, d);
    assert t[p..d] == if minus then "-" else "";
    JoinAt(t, p, t[p..d], NumberText(n));
    v := Numeral(minus, n);
  }

  /** Whatever is read as a value is one, behind some white space, and means what was read. */
  lemma {:induction false} ValueDerives(t: string, p: nat, line: nat) returns (v: Syntax)
    requires p <= |t| && ValueAt(t, p, line).Ok?
    ensures Valid(v) && HasAt(t, SkipEnd(t, p), Text(v))
    ensures ReadAs(ValueAt(t, p, line), Meaning(v), SkipEnd(t, p) + |Text(v)|)
    decreases |t| - p, 1
  {
    hide HasAt, NumberAt, LiteralAt, StringAt, ObjectAt, ArrayAt;
    var q, l := SkipEnd(t, p), SkipLine(t, p, line);
    var c := Peek(t, q);
    if c == '{' {
      v := ObjectDerives(t, q, l);
    } else if c == '[' {
      v := ArrayDerives(t, q, l);
    } else if c == '"' {
      var pieces := LiteralDerives(t, q, l);
      v := Literal(pieces);
    } else if c == 't' || c == 'f' || c == 'n' {
      v := WordDerives(t, q, l);
    } else {
      v := NumeralDerives(t, q, l);
    }
  }

  /** An item, with the white space in front of it from p on and the white space behind it. */
  lemma {:induction false} ItemDerives(t: string, p: nat, line: nat) returns (item: Item)
    requires p <= |t| && ValueAt(t, p, line).Ok?
    ensures ValidItem(item) && HasAt(t, p, ItemText(item)) && ValueAt(t, p, line).value == Meaning(item.value)
    ensures SkipEnd(t, ValueAt(t, p, line).next) == p + |ItemText(item)|
    decreases |t| - p, 2
  {
    hide HasAt, ValueAt, Text, Meaning, IsBlank;
    var next := ValueAt(t, p, line).next;
    var v := ValueDerives(t, p, line);
    SkippedAreBlanks(t, p);
    SkippedAreBlanks(t, next);
    item := Item(t[p..SkipEnd(t, p)], v, t[next..SkipEnd(t, next)]);
    JoinAt(t, SkipEnd(t, p), Text(v), item.after);
    JoinAt(t, p, item.before, Text(v) + item.after);
  }

  /** When items are read, so is the first, with a comma and more or a bracket behind it. */
  lemma ItemsFailOrStep(t: string, p: nat, line: nat)
    requires p <= |t| && ItemsAt(t, p, line).Ok?
    ensures var v := ValueAt(t, p, line);
            && v.Ok? && var sep, l := SkipEnd(t, v.next), SkipLine(t, v.next, v.line);
            if Peek(t, sep) == ',' then
              var rest := ItemsAt(t, sep + 1, l);
              rest.Ok? && ReadAs(ItemsAt(t, p, line), [v.value] + rest.value, rest.next)
            else Peek(t, sep) == ']' && ReadAs(ItemsAt(t, p, line), [v.value], sep + 1)
  {
    hide ValueAt, SkipEnd, SkipLine;
  }

  lemma MembersFailOrStep(t: string, p: nat, line: nat)
    requires p <= |t| && MembersAt(t, p, line).Ok?
    ensures var m := MemberAt(t, p, line);
            && m.Ok? && var sep, l := SkipEnd(t, m.next), SkipLine(t, m.next, m.line);
            if Peek(t, sep) == ',' then
              var rest := MembersAt(t, sep + 1, l);
              rest.Ok? && ReadAs(MembersAt(t, p, line), [m.value] + rest.value, rest.next)
            else Peek(t, sep) == '}' && ReadAs(MembersAt(t, p, line), [m.value], sep + 1)
  {
    hide MemberAt, SkipEnd, SkipLine;
  }

  lemma {:induction false} ItemsDerives(t: string, p: nat, line: nat) returns (items: seq<Item>)
    requires p <= |t| && ItemsAt(t, p, line).Ok?
    ensures items != [] && (forall i :: 0 <= i < |items| ==> ValidItem(items[i])) && HasAt(t, p, ItemsText(items))
    ensures ReadAs(ItemsAt(t, p, line), ItemMeanings(items), p + |ItemsText(items)|)
    decreases |t| - p, 3
  {
    hide HasAt, ItemText, ItemsText, ItemMeanings, Meaning, ValueAt, SkipEnd, ValidItem, ItemsAt;
    ItemsFailOrStep(t, p, line);
    var v := ValueAt(t, p, line);
    var item := ItemDerives(t, p, line);
    var sep := SkipEnd(t, v.next);
    Slice(t, sep, sep + 1);
    if Peek(t, sep) == ',' {
      var rest := ItemsDerives(t, sep + 1, SkipLine(t, v.next, v.line));
      items := [item] + rest;
      assert items[1..] == rest;
      JoinAt(t, sep, ",", ItemsText(rest));
      JoinAt(t, p, ItemText(item), "," + ItemsText(rest));
      MoreItems(items);
    } else {
      items := [item];
      JoinAt(t, p, ItemText(item), "]");
      OneItem(items);
    }
  }

  lemma {:induction false} MoreItems(items: seq<Item>)
    requires |items| > 1 && forall i :: 0 <= i < |items| ==> ValidItem(items[i])
    ensures Valid(items[0].value) && ItemMeanings(items) == [Meaning(items[0].value)] + ItemMeanings(items[1..])
    ensures ItemsText(items) == ItemText(items[0]) + ("," + ItemsText(items[1..]))
  {
    assert ValidItem(items[0]);
  }

  lemma {:induction false} ArrayDerives(t: string, p: nat, line: nat) returns (v: Syntax)
    requires Peek(t, p) == '[' && ArrayAt(t, p, line).Ok?
    ensures Valid(v) && HasAt(t, p, Text(v)) && ReadAs(ArrayAt(t, p, line), Meaning(v), p + |Text(v)|)
    decreases |t| - p, 0
  {
    hide HasAt, ItemsAt, ItemsText, ItemMeanings, Text, Meaning, Valid, ValidItem, IsBlank, SkipEnd, SkipLine;
    var q, l := SkipEnd(t, p + 1), SkipLine(t, p + 1, line);
    SkippedAreBlanks(t, p + 1);
    Slice(t, p, p + 1);
    var items := [];
    if Peek(t, q) == ']' {
      CloserAt(t, q);
    } else {
      items := ItemsDerives(t, q, l);
    }
    v := Items(t[p + 1..q], items);
    ItemsMean(v.blanks, items);
    JoinAt(t, p + 1, v.blanks, ItemsText(items));
    JoinAt(t, p, "[", v.blanks + ItemsText(items));
  }

  lemma {:induction false} ItemsMean(blanks: string, items: seq<Item>)
    requires AreBlanks(blanks) && forall i :: 0 <= i < |items| ==> ValidItem(items[i])
    ensures Valid(Items(blanks, items)) && Meaning(Items(blanks, items)) == JArray(ItemMeanings(items))
    ensures Text(Items(blanks, items)) == "[" + (blanks + ItemsText(items)) && ItemMeanings([]) == []
  {
  }

  /** A closing bracket stands for no items, a closing brace for no fields. */
  lemma CloserAt(t: string, q: nat)
    ensures Peek(t, q) == ']' ==> HasAt(t, q, ItemsText([])) && |ItemsText([])| == 1
    ensures Peek(t, q) == '}' ==> HasAt(t, q, FieldsText([])) && |FieldsText([])| == 1
  {
  }

  lemma {:induction false} FieldDerives(t: string, p: nat, line: nat) returns (f: FieldSyntax)
    requires p <= |t| && MemberAt(t, p, line).Ok?
    ensures ValidField(f) && ValidItem(f.item) && HasAt(t, p, FieldText(f))
    ensures MemberAt(t, p, line).value == Member(PiecesMeaning(f.key), Meaning(f.item.value))
    ensures SkipEnd(t, MemberAt(t, p, line).next) == p + |FieldText(f)|
    decreases |t| - p, 2
  {
    hide HasAt, StringAt, ValueAt, ItemText, LiteralText, Meaning, PiecesMeaning, IsBlank, SkipEnd;
    var start, l := SkipEnd(t, p), SkipLine(t, p, line);
    var key := StringAt(t, start, l);
    var pieces := LiteralDerives(t, start, l);
    var colon := SkipEnd(t, key.next);
    var item := ItemDerives(t, colon + 1, SkipLine(t, key.next, key.line));
    SkippedAreBlanks(t, p);
    SkippedAreBlanks(t, key.next);
    Slice(t, colon, colon + 1);
    f := FieldSyntax(t[p..start], pieces, t[key.next..colon], item);
    JoinAt(t, colon, ":", ItemText(item));
    JoinAt(t, key.next, f.after, ":" + ItemText(item));
    JoinAt(t, start, LiteralText(pieces), f.after + (":" + ItemText(item)));
    JoinAt(t, p, f.before, LiteralText(pieces) + (f.after + (":" + ItemText(item))));
  }

  lemma {:induction false} FieldsDerives(t: string, p: nat, line: nat) returns (fields: seq<FieldSyntax>)
    requires p <= |t| && MembersAt(t, p, line).Ok?
    ensures fields != [] && (forall i :: 0 <= i < |fields| ==> ValidField(fields[i]))
    ensures HasAt(t, p, FieldsText(fields))
    ensures ReadAs(MembersAt(t, p, line), FieldMeanings(fields), p + |FieldsText(fields)|)
    decreases |t| - p, 3
  {
    hide HasAt, FieldText, FieldsText, FieldMeanings, Meaning, MemberAt, SkipEnd, ValidField, PiecesMeaning, MembersAt;
    MembersFailOrStep(t, p, line);
    var m := MemberAt(t, p, line);
    var f := FieldDerives(t, p, line);
    var sep := SkipEnd(t, m.next);
    Slice(t, sep, sep + 1);
    if Peek(t, sep) == ',' {
      var rest := FieldsDerives(t, sep + 1, SkipLine(t, m.next, m.line));
      fields := [f] + rest;
      assert fields[1..] == rest;
      JoinAt(t, sep, ",", FieldsText(rest));
      JoinAt(t, p, FieldText(f), "," + FieldsText(rest));
      MoreFields(fields);
    } else {
      fields := [f];
      JoinAt(t, p, FieldText(f), "}");
      OneField(fields);
    }
  }

  lemma {:induction false} MoreFields(fields: seq<FieldSyntax>)
    requires |fields| > 1 && forall i :: 0 <= i < |fields| ==> ValidField(fields[i])
    ensures ValidField(fields[0]) && ValidItem(fields[0].item)
    ensures FieldsText(fields) == FieldText(fields[0]) + ("," + FieldsText(fields[1..]))
    ensures FieldMeanings(fields)
            == [Member(PiecesMeaning(fields[0].key), Meaning(fields[0].item.value))] + FieldMeanings(fields[1..])
  {
    assert ValidField(fields[0]) && ValidItem(fields[0].item);
  }

  lemma {:induction false} ObjectDerives(t: string, p: nat, line: nat) returns (v: Syntax)
    requires Peek(t, p) == '{' && ObjectAt(t, p, line).Ok?
    ensures Valid(v) && HasAt(t, p, Text(v)) && ReadAs(ObjectAt(t, p, line), Meaning(v), p + |Text(v)|)
    decreases |t| - p, 0
  {
    hide HasAt, MembersAt, FieldsText, FieldMeanings, Text, Meaning, Valid, ValidField, IsBlank, SkipEnd, SkipLine;
    var q, l := SkipEnd(t, p + 1), SkipLine(t, p + 1, line);
    SkippedAreBlanks(t, p + 1);
    Slice(t, p, p + 1);
    var fields := [];
    if Peek(t, q) == '}' {
      CloserAt(t, q);
    } else {
      fields := FieldsDerives(t, q, l);
    }
    v := Fields(t[p + 1..q], fields);
    FieldsMean(v.blanks, fields);
    JoinAt(t, p + 1, v.blanks, FieldsText(fields));
    JoinAt(t, p, "{", v.blanks + FieldsText(fields));
  }

  lemma {:induction false} FieldsMean(blanks: string, fields: seq<FieldSyntax>)
    requires AreBlanks(blanks) && forall i :: 0 <= i < |fields| ==> ValidField(fields[i])
    ensures Valid(Fields(blanks, fields)) && Meaning(Fields(blanks, fields)) == JObject(FieldMeanings(fields))
    ensures Text(Fields(blanks, fields)) == "{" + (blanks + FieldsText(fields)) && FieldMeanings([]) == []
  {
  }

  // ---- documents --------------------------------------------------------------------------------

  /** The text is the document: one value between white space. */
  predicate Spells(item: Item, t: string) {
    ValidItem(item) && t == ItemText(item)
  }

  /** A text without NUL is accepted with a value exactly when it spells a document that means it. */
  lemma AcceptsExactly(t: string, j: Json)
    requires NulFree(t)
    ensures ReadAs(Document(t), j, |t|) <==> exists item :: Spells(item, t) && Meaning(item.value) == j
    ensures Document(t).Ok? ==> Document(t).next == |t|
  {
    if Document(t).Ok? {
      var item := DocumentDerives(t);
    }
    forall item | Spells(item, t)
      ensures ReadAs(Document(t), Meaning(item.value), |t|)
    {
      DocumentReads(t, item);
    }
  }

  lemma {:induction false} DocumentReads(t: string, item: Item)
    requires Spells(item, t)
    ensures ReadAs(Document(t), Meaning(item.value), |t|)
  {
    hide Text, Meaning, ValueAt, SkipEnd, SkipLine, IsBlank, ItemText, ValidItem, HasAt;
    Slice(t, 0, |t|);
    assert t[0..|t|] == t;
    assert "" + ItemText(item) == ItemText(item);
    ItemOpens(t, 0, "", item);
    ItemReads(t, 0, 0, item, 1);
  }

  lemma {:induction false} DocumentDerives(t: string) returns (item: Item)
    requires NulFree(t) && Document(t).Ok?
    ensures Spells(item, t) && ReadAs(Document(t), Meaning(item.value), |t|)
  {
    hide ItemText, Meaning, ValueAt, IsBlank;
    item := ItemDerives(t, 0, 1);
    assert t[0..|t|] == t;
  }
}
