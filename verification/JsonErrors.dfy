/**
 Where the JSON parser reports an error, and which (json_reader.c): what stands there is what the error is about, and
 the line counts every newline before it, those inside literals included.
 */
module JsonErrors {
  import opened Decimals
  import opened JsonReader
  import opened JsonStrings
  import opened Options

  /** What stands at q is why there is an error of this kind. */
  predicate Explains(kind: ErrorKind, t: string, q: nat) {
    var c, d := Peek(t, q), Peek(t, q + 1);
    match kind
    case UnexpectedEnd => c == NUL
    case UnexpectedChar =>
      && c !in {'{', '[', '"', '-', NUL} && !IsDigit(c)
      && !HasAt(t, q, "true") && !HasAt(t, q, "false") && !HasAt(t, q, "null")
    case BadNumber => c == '-' && !IsDigit(d)
    case ExpectedQuote => c != '"'
    case Unterminated => c == NUL
    case BadEscape => c == '\\' && d !in {'"', '\\', '/', 'b', 'f', 'n', 'r', 't', 'u'}
    case BadUnicode => c == '\\' && d == 'u' && exists i :: q + 2 <= i < q + 6 && HexDigit(Peek(t, i)) < 0
    case ExpectedColon => c != ':'
    case ExpectedArrayEnd => c != ',' && c != ']'
    case ExpectedObjectEnd => c != ',' && c != '}'
    case TrailingData => c != NUL && !IsSpace(c)
  }

  /** The error is explained at position q and on its line, for a parser that was on the given line at p. */
  ghost predicate IsOnLineOf<T>(r: Parsed<T>, t: string, p: nat, line: nat, q: nat) {
    r.Failed? && p <= q <= |t| && r.error.line == line + Newlines(t, p, q) && Explains(r.error.kind, t, q)
  }

  lemma Here(t: string, p: nat)
    requires p <= |t|
    ensures Newlines(t, p, p) == 0
  {
  }

  lemma {:induction false} BodyError(t: string, p: nat, line: nat) returns (q: nat)
    requires p <= |t| && BodyAt(t, p, line).Failed?
    ensures IsOnLineOf(BodyAt(t, p, line), t, p, line, q)
    decreases |t| - p
  {
    q := p;
    Here(t, p);
    if Inside(t, p) && UnitAt(t, p).Unit? {
      var u := UnitAt(t, p);
      UnitLines(t, p);
      q := BodyError(t, u.next, if u.newline then line + 1 else line);
      NewlinesSplit(t, p, u.next, q);
    } else if Inside(t, p) {
      UnitError(t, p);
    }
  }

  lemma StringError(t: string, p: nat, line: nat) returns (q: nat)
    requires p <= |t| && StringAt(t, p, line).Failed?
    ensures IsOnLineOf(StringAt(t, p, line), t, p, line, q)
  {
    q := p;
    Here(t, p);
    if Peek(t, p) == '"' {
      q := BodyError(t, p + 1, line);
      OneMore(t, p);
      NewlinesSplit(t, p, p + 1, q);
    }
  }

  /** An error behind white space. */
  lemma BehindSpace(t: string, p: nat, line: nat, q: nat)
    requires p <= |t| && SkipEnd(t, p) <= q <= |t|
    ensures SkipLine(t, p, line) + Newlines(t, SkipEnd(t, p), q) == line + Newlines(t, p, q)
  {
    SkipLines(t, p, line);
    NewlinesSplit(t, p, SkipEnd(t, p), q);
  }

  lemma {:induction false} ValueError(t: string, p: nat, line: nat) returns (q: nat)
    requires p <= |t| && ValueAt(t, p, line).Failed?
    ensures IsOnLineOf(ValueAt(t, p, line), t, p, line, q)
    decreases |t| - p, 1
  {
    hide ObjectAt, ArrayAt, StringAt, LiteralAt, NumberAt, Newlines, SkipEnd, SkipLine;
    var s, l := SkipEnd(t, p), SkipLine(t, p, line);
    var c := Peek(t, s);
    q := s;
    Here(t, s);
    if c == '{' {
      q := ObjectError(t, s, l);
    } else if c == '[' {
      q := ArrayError(t, s, l);
    } else if c == '"' {
      q := StringError(t, s, l);
    } else if c == 't' || c == 'f' || c == 'n' {
      WordError(t, s, l);
    } else if c != NUL && (c == '-' || IsDigit(c)) {
      NumberError(t, s, l);
    } else if c != NUL {
      OtherError(t, s);
    }
    BehindSpace(t, p, line, q);
  }

  lemma WordError(t: string, p: nat, line: nat)
    requires p <= |t| && LiteralAt(t, p, line).Failed?
    requires Peek(t, p) in {'t', 'f', 'n'}
    ensures LiteralAt(t, p, line).error == Error(UnexpectedChar, line) && Explains(UnexpectedChar, t, p)
  {
  }

  lemma NumberError(t: string, p: nat, line: nat)
    requires p <= |t| && NumberAt(t, p, line).Failed?
    requires Peek(t, p) == '-' || IsDigit(Peek(t, p))
    ensures NumberAt(t, p, line).error == Error(BadNumber, line) && Explains(BadNumber, t, p)
  {
  }

  lemma UnitError(t: string, p: nat)
    requires Inside(t, p) && UnitAt(t, p).BadUnit?
    ensures Explains(UnitAt(t, p).kind, t, p)
  {
    if Peek(t, p + 1) == 'u' && HexDigit(Peek(t, p + 2)) >= 0 && HexDigit(Peek(t, p + 3)) >= 0 {
      assert HexDigit(Peek(t, p + 4)) < 0 || HexDigit(Peek(t, p + 5)) < 0;
    }
  }

  lemma OtherError(t: string, p: nat)
    requires Peek(t, p) !in {'{', '[', '"', '-', NUL, 't', 'f', 'n'} && !IsDigit(Peek(t, p))
    ensures Explains(UnexpectedChar, t, p)
  {
    if HasAt(t, p, "true") {
      CharAt(t, p, "true", 0);
    }
    if HasAt(t, p, "false") {
      CharAt(t, p, "false", 0);
    }
    if HasAt(t, p, "null") {
      CharAt(t, p, "null", 0);
    }
  }

  lemma {:induction false} ArrayError(t: string, p: nat, line: nat) returns (q: nat)
    requires Peek(t, p) == '[' && ArrayAt(t, p, line).Failed?
    ensures IsOnLineOf(ArrayAt(t, p, line), t, p, line, q)
    decreases |t| - p, 0
  {
    hide ItemsAt, Newlines, SkipEnd, SkipLine;
    q := ItemsError(t, SkipEnd(t, p + 1), SkipLine(t, p + 1, line));
    BehindSpace(t, p + 1, line, q);
    OneMore(t, p);
    NewlinesSplit(t, p, p + 1, q);
  }

  lemma {:induction false} ItemsError(t: string, p: nat, line: nat) returns (q: nat)
    requires p <= |t| && ItemsAt(t, p, line).Failed?
    ensures IsOnLineOf(ItemsAt(t, p, line), t, p, line, q)
    decreases |t| - p, 2
  {
    hide ValueAt, Newlines, SkipEnd, SkipLine;
    var v := ValueAt(t, p, line);
    if v.Failed? {
      q := ValueError(t, p, line);
    } else {
      var s, l := SkipEnd(t, v.next), SkipLine(t, v.next, v.line);
      q := s;
      Here(t, s);
      if Peek(t, s) == ',' {
        q := ItemsError(t, s + 1, l);
        OneMore(t, s);
        NewlinesSplit(t, s, s + 1, q);
      }
      BehindSpace(t, v.next, v.line, q);
      ValueLines(t, p, line);
      NewlinesSplit(t, p, v.next, q);
    }
  }

  lemma {:induction false} ObjectError(t: string, p: nat, line: nat) returns (q: nat)
    requires Peek(t, p) == '{' && ObjectAt(t, p, line).Failed?
    ensures IsOnLineOf(ObjectAt(t, p, line), t, p, line, q)
    decreases |t| - p, 0
  {
    hide MembersAt, Newlines, SkipEnd, SkipLine;
    q := MembersError(t, SkipEnd(t, p + 1), SkipLine(t, p + 1, line));
    BehindSpace(t, p + 1, line, q);
    OneMore(t, p);
    NewlinesSplit(t, p, p + 1, q);
  }

  lemma {:induction false} MemberError(t: string, p: nat, line: nat) returns (q: nat)
    requires p <= |t| && MemberAt(t, p, line).Failed?
    ensures IsOnLineOf(MemberAt(t, p, line), t, p, line, q)
    decreases |t| - p, 2
  {
    hide ValueAt, StringAt, Newlines, SkipEnd, SkipLine;
    var k, l := SkipEnd(t, p), SkipLine(t, p, line);
    var key := StringAt(t, k, l);
    if key.Failed? {
      q := StringError(t, k, l);
    } else {
      var s, l' := SkipEnd(t, key.next), SkipLine(t, key.next, key.line);
      q := s;
      Here(t, s);
      if Peek(t, s) == ':' {
        q := ValueError(t, s + 1, l');
        OneMore(t, s);
        NewlinesSplit(t, s, s + 1, q);
      }
      BehindSpace(t, key.next, key.line, q);
      StringLines(t, k, l);
      NewlinesSplit(t, k, key.next, q);
    }
    BehindSpace(t, p, line, q);
  }

  lemma {:induction false} MembersError(t: string, p: nat, line: nat) returns (q: nat)
    requires p <= |t| && MembersAt(t, p, line).Failed?
    ensures IsOnLineOf(MembersAt(t, p, line), t, p, line, q)
    decreases |t| - p, 3
  {
    hide MemberAt, Newlines, SkipEnd, SkipLine;
    var m := MemberAt(t, p, line);
    if m.Failed? {
      q := MemberError(t, p, line);
    } else {
      var s, l := SkipEnd(t, m.next), SkipLine(t, m.next, m.line);
      q := s;
      Here(t, s);
      if Peek(t, s) == ',' {
        q := MembersError(t, s + 1, l);
        OneMore(t, s);
        NewlinesSplit(t, s, s + 1, q);
      }
      BehindSpace(t, m.next, m.line, q);
      MemberLines(t, p, line);
      NewlinesSplit(t, p, m.next, q);
    }
  }

  /** A document that is not accepted has its error explained at some place in the text, and on the line of that. */
  lemma DocumentError(t: string) returns (q: nat)
    requires Document(t).Failed?
    ensures q <= |t| && Document(t).error.line == 1 + Newlines(t, 0, q) && Explains(Document(t).error.kind, t, q)
  {
    hide ValueAt, Newlines, SkipEnd, SkipLine;
    var v := ValueAt(t, 0, 1);
    if v.Failed? {
      q := ValueError(t, 0, 1);
    } else {
      q := SkipEnd(t, v.next);
      Here(t, q);
      BehindSpace(t, v.next, v.line, q);
      ValueLines(t, 0, 1);
      NewlinesSplit(t, 0, v.next, q);
    }
  }
}
