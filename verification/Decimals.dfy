/** Decimal text of natural numbers, as printf writes it and strtol reads it. */
module Decimals {
  predicate IsDigit(c: char) {
    '0' <= c <= '9'
  }

  /** isspace in the C locale. */
  predicate IsSpace(c: char) {
    c == ' ' || '\t' <= c <= '\r'
  }

  const TAB := 9 as char
  const VERTICAL_TAB := 11 as char
  const FORM_FEED := 12 as char

  lemma SpacesAre(c: char)
    ensures IsSpace(c) <==> c in {' ', TAB, '\n', VERTICAL_TAB, FORM_FEED, '\r'}
  {
  }

  function DigitChar(d: nat): (c: char)
    requires d < 10
    ensures IsDigit(c) && DigitValue(c) == d
  {
    ('0' as int + d) as char
  }

  function DigitValue(c: char): nat
    requires IsDigit(c)
  {
    c as int - '0' as int
  }

  /** What "%d" prints for n. */
  function Decimal(n: nat): (s: string)
    ensures s != "" && forall i :: 0 <= i < |s| ==> IsDigit(s[i])
  {
    if n < 10 then [DigitChar(n)] else Decimal(n / 10) + [DigitChar(n % 10)]
  }

  /** Positions p to e of t hold digits. */
  predicate AreDigits(t: string, p: nat, e: nat)
    requires e <= |t|
  {
    forall i :: p <= i < e ==> IsDigit(t[i])
  }

  /** The number denoted by the digits at positions p to e of t. */
  function ValueOf(t: string, p: nat, e: nat): nat
    requires p <= e <= |t| && AreDigits(t, p, e)
  {
    if e == p then 0 else ValueOf(t, p, e - 1) * 10 + DigitValue(t[e - 1])
  }

  /** Where the digits at position p of t end. */
  function DigitsEnd(t: string, p: nat): (e: nat)
    requires p <= |t|
    ensures p <= e <= |t| && AreDigits(t, p, e) && (e < |t| ==> !IsDigit(t[e]))
    decreases |t| - p
  {
    if p < |t| && IsDigit(t[p]) then DigitsEnd(t, p + 1) else p
  }

  /** Text w stands at position p of t. */
  predicate HasAt(t: string, p: nat, w: string) {
    p + |w| <= |t| && t[p..p + |w|] == w
  }

  lemma HasBoth(t: string, p: nat, v: string, w: string)
    requires HasAt(t, p, v + w)
    ensures HasAt(t, p, v) && HasAt(t, p + |v|, w)
  {
    var e := p + |v + w|;
    assert t[p..e][..|v|] == t[p..p + |v|];
    assert t[p..e][|v|..] == t[p + |v|..e];
  }

  lemma HasChar(t: string, p: nat, c: char)
    requires HasAt(t, p, [c])
    ensures p < |t| && t[p] == c
  {
    assert t[p..p + 1][0] == t[p];
  }

  /** v, a character and w, one behind the other. */
  lemma HasCharBehind(t: string, p: nat, v: string, c: char, w: string)
    requires HasAt(t, p, v + ([c] + w))
    ensures HasAt(t, p, v) && p + |v| < |t| && t[p + |v|] == c && HasAt(t, p + |v| + 1, w)
  {
    HasBoth(t, p, v, [c] + w);
    HasBoth(t, p + |v|, [c], w);
    HasChar(t, p + |v|, c);
  }

  /** The text from p on is v and then w. */
  lemma RestSplits(t: string, p: nat, v: string, w: string)
    requires p <= |t| && t[p..] == v + w
    ensures HasAt(t, p, v) && t[p + |v|..] == w
  {
    assert |t[p..]| == |t| - p;
    assert t[p..][..|v|] == t[p..p + |v|];
    assert t[p..][|v|..] == t[p + |v|..];
  }

  lemma CharAt(t: string, p: nat, w: string, i: nat)
    requires HasAt(t, p, w) && i < |w|
    ensures p + i < |t| && t[p + i] == w[i]
  {
    assert t[p..p + |w|][i] == t[p + i];
  }

  lemma Slice(t: string, p: nat, e: nat)
    requires p <= e <= |t|
    ensures HasAt(t, p, t[p..e]) && |t[p..e]| == e - p
  {
  }

  lemma SliceInTwo(t: string, p: nat, m: nat, e: nat)
    requires p <= m <= e <= |t|
    ensures t[p..e] == t[p..m] + t[m..e] && HasAt(t, p, t[p..m] + t[m..e])
  {
  }

  /** Two texts one behind the other. */
  lemma JoinAt(t: string, p: nat, v: string, w: string)
    requires HasAt(t, p, v) && HasAt(t, p + |v|, w)
    ensures HasAt(t, p, v + w)
  {
    assert t[p..p + |v + w|] == t[p..p + |v|] + t[p + |v|..p + |v| + |w|];
  }

  /** Digits stand for the same number wherever they stand. */
  lemma {:induction false} DigitsAt(t: string, p: nat, s: string, m: nat)
    requires HasAt(t, p, s) && m <= |s| && AreDigits(s, 0, |s|)
    ensures p + m <= |t| && AreDigits(t, p, p + m) && ValueOf(t, p, p + m) == ValueOf(s, 0, m)
  {
    if m > 0 {
      DigitsAt(t, p, s, m - 1);
      CharAt(t, p, s, m - 1);
    }
  }

  /** A printed number stands at p. */
  lemma {:induction false} DecimalAt(t: string, p: nat, n: nat)
    requires HasAt(t, p, Decimal(n))
    ensures AreDigits(t, p, p + |Decimal(n)|) && ValueOf(t, p, p + |Decimal(n)|) == n
  {
    var s := Decimal(n);
    var e := p + |s|;
    forall i | p <= i < e
      ensures t[i] == s[i - p]
    {
      assert t[p..e][i - p] == t[i];
    }
    if n >= 10 {
      assert t[p..e - 1] == t[p..e][..|s| - 1] == Decimal(n / 10);
      DecimalAt(t, p, n / 10);
    } else {
      assert ValueOf(t, p, e) == ValueOf(t, p, p) * 10 + DigitValue(t[p]);
    }
  }

  lemma {:induction false} DigitsEndAt(t: string, p: nat, e: nat)
    requires p <= e <= |t| && AreDigits(t, p, e) && (e < |t| ==> !IsDigit(t[e]))
    ensures DigitsEnd(t, p) == e
    decreases e - p
  {
    if p < e {
      DigitsEndAt(t, p + 1, e);
    }
  }
}
