/**
 Taking the complete lines of a growing file (store.c): lines are read from a byte offset, blank lines are dropped, an
 unfinished last line is left for the next time, and the offset moves behind the last complete line.
 */
module LineSplit {
  import opened JsonStrings

  /** End of the text from p that holds neither newline nor NUL. */
  function LineEnd(t: string, p: nat): (e: nat)
    requires p <= |t|
    ensures p <= e <= |t| && (Peek(t, e) == NUL || Peek(t, e) == '\n')
    ensures forall i :: p <= i < e ==> t[i] != NUL && t[i] != '\n'
    decreases |t| - p
  {
    if Peek(t, p) == NUL || Peek(t, p) == '\n' then p else LineEnd(t, p + 1)
  }

  /** Whether a complete line starts at p. */
  predicate HasLine(t: string, p: nat)
    requires p <= |t|
  {
    Peek(t, p) != NUL && Peek(t, LineEnd(t, p)) == '\n'
  }

  /** The complete lines from p on, blank ones too. */
  function AllLines(t: string, p: nat): seq<string>
    requires p <= |t|
    decreases |t| - p
  {
    if !HasLine(t, p) then [] else [t[p..LineEnd(t, p)]] + AllLines(t, LineEnd(t, p) + 1)
  }

  /** The position behind the last complete line. */
  function LinesEnd(t: string, p: nat): (end: nat)
    requires p <= |t|
    ensures p <= end <= |t| && !HasLine(t, end)
    decreases |t| - p
  {
    if !HasLine(t, p) then p else LinesEnd(t, LineEnd(t, p) + 1)
  }

  /** The line at p, unless it is blank. */
  function LineAt(t: string, p: nat): seq<string>
    requires p <= |t|
  {
    if LineEnd(t, p) > p then [t[p..LineEnd(t, p)]] else []
  }

  /** The complete lines from p on that are not blank. */
  function Lines(t: string, p: nat): seq<string>
    requires p <= |t|
    decreases |t| - p
  {
    if !HasLine(t, p) then [] else LineAt(t, p) + Lines(t, LineEnd(t, p) + 1)
  }

  /** split_complete_lines on the buffer from start on. */
  method SplitCompleteLines(t: string, start: nat) returns (lines: seq<string>, consumed: nat)
    requires start <= |t|
    ensures lines == Lines(t, start) && start + consumed == LinesEnd(t, start)
  {
    lines, consumed := [], 0;
    var p := start;
    hide SoFar, LineAt, LineEnd;
    NothingSoFar(t, start);
    while Peek(t, p) != NUL
      invariant p == start + consumed <= |t| && SoFar(t, start, lines, p)
      decreases |t| - p
    {
      ghost var before := lines;
      var lineStart := p;
      p := FindLineEnd(t, p);
      if Peek(t, p) != '\n' {
        LinesDone(t, start, lines, lineStart);
        return;
      }
      lines := AddUnlessBlank(lines, t, lineStart, p);
      LineDone(t, start, before, lineStart);
      p := p + 1;
      consumed := p - start;
    }
    LinesDone(t, start, lines, p);
  }

  /** The lines found up to p are those from start that come before p. */
  ghost predicate SoFar(t: string, start: nat, lines: seq<string>, p: nat)
    requires start <= |t| && p <= |t|
  {
    lines + Lines(t, p) == Lines(t, start) && LinesEnd(t, p) == LinesEnd(t, start)
  }

  lemma NothingSoFar(t: string, start: nat)
    requires start <= |t|
    ensures SoFar(t, start, [], start)
  {
  }

  lemma LineDone(t: string, start: nat, lines: seq<string>, p: nat)
    requires start <= |t| && p <= |t| && SoFar(t, start, lines, p) && HasLine(t, p)
    ensures LineEnd(t, p) < |t| && SoFar(t, start, lines + LineAt(t, p), LineEnd(t, p) + 1)
  {
    hide LineAt, LineEnd;
    JoinedTwice(lines, LineAt(t, p), Lines(t, LineEnd(t, p) + 1));
  }

  lemma LinesDone(t: string, start: nat, lines: seq<string>, p: nat)
    requires start <= |t| && p <= |t| && SoFar(t, start, lines, p) && !HasLine(t, p)
    ensures lines == Lines(t, start) && p == LinesEnd(t, start)
  {
  }

  method AddUnlessBlank(lines: seq<string>, t: string, from: nat, p: nat) returns (r: seq<string>)
    requires from <= |t| && p == LineEnd(t, from)
    ensures r == lines + LineAt(t, from)
  {
    hide LineEnd;
    r := lines;
    if p > from {
      r := lines + [t[from..p]];
    }
  }

  method FindLineEnd(t: string, from: nat) returns (p: nat)
    requires from <= |t|
    ensures p == LineEnd(t, from)
  {
    p := from;
    while Peek(t, p) != NUL && Peek(t, p) != '\n'
      invariant from <= p <= |t| && LineEnd(t, p) == LineEnd(t, from)
      decreases |t| - p
    {
      p := p + 1;
    }
  }

  // ---- the lines are the text -------------------------------------------------------------------

  function Joined(lines: seq<string>): string {
    if lines == [] then "" else lines[0] + "\n" + Joined(lines[1..])
  }

  lemma JoinedCons(line: string, lines: seq<string>)
    ensures Joined([line] + lines) == line + "\n" + Joined(lines)
  {
    assert ([line] + lines)[1..] == lines;
  }

  lemma NewlineBetween(t: string, p: nat, e: nat, end: nat)
    requires p <= e < end <= |t| && t[e] == '\n'
    ensures t[p..e] + "\n" + t[e + 1..end] == t[p..end]
  {
  }

  lemma NoneJoined()
    ensures Joined([]) == ""
  {
  }

  lemma NoNewlineIn(t: string, p: nat, e: nat)
    requires p <= e <= |t| && forall i :: p <= i < e ==> t[i] != '\n'
    ensures '\n' !in t[p..e]
  {
  }

  /** The lines, blank ones included, put back together are the text up to the end of the last one; none is split. */
  lemma {:induction false} LinesAreText(t: string, p: nat)
    requires p <= |t|
    ensures Joined(AllLines(t, p)) == t[p..LinesEnd(t, p)]
    ensures forall i :: 0 <= i < |AllLines(t, p)| ==> '\n' !in AllLines(t, p)[i]
    decreases |t| - p
  {
    hide LineEnd, Joined;
    if !HasLine(t, p) {
      NoneJoined();
    } else {
      var e, end := LineEnd(t, p), LinesEnd(t, p);
      LinesAreText(t, e + 1);
      NewlineBetween(t, p, e, end);
      JoinedCons(t[p..e], AllLines(t, e + 1));
      NoNewlineIn(t, p, e);
      assert forall i :: 0 < i < |AllLines(t, p)| ==> AllLines(t, p)[i] == AllLines(t, e + 1)[i - 1];
    }
  }

  function NonBlank(lines: seq<string>): seq<string> {
    if lines == [] then [] else (if lines[0] == "" then [] else [lines[0]]) + NonBlank(lines[1..])
  }

  lemma NonBlankCons(line: string, lines: seq<string>)
    ensures NonBlank([line] + lines) == (if line == "" then [] else [line]) + NonBlank(lines)
  {
    assert ([line] + lines)[1..] == lines;
  }

  /** What is ingested are the lines that are not blank. */
  lemma {:induction false} LinesAreNonBlank(t: string, p: nat)
    requires p <= |t|
    ensures Lines(t, p) == NonBlank(AllLines(t, p))
    decreases |t| - p
  {
    if HasLine(t, p) {
      var line, rest := t[p..LineEnd(t, p)], AllLines(t, LineEnd(t, p) + 1);
      LinesAreNonBlank(t, LineEnd(t, p) + 1);
      NonBlankCons(line, rest);
      assert LineAt(t, p) == if line == "" then [] else [line];
    }
  }

  /** The end of the lines is a line boundary. */
  lemma {:induction false} EndIsBoundary(t: string, p: nat)
    requires p <= |t|
    ensures LinesEnd(t, p) == p || t[LinesEnd(t, p) - 1] == '\n'
    decreases |t| - p
  {
    if HasLine(t, p) {
      EndIsBoundary(t, LineEnd(t, p) + 1);
    }
  }

  // ---- growing files ----------------------------------------------------------------------------

  /** A complete line stays what it is when text is appended. */
  lemma {:induction false} LineStays(t: string, w: string, p: nat)
    requires p <= |t| && (Peek(t, LineEnd(t, p)) == '\n' || LineEnd(t, p) < |t|)
    ensures LineEnd(t + w, p) == LineEnd(t, p)
    decreases |t| - p
  {
    if Peek(t, p) != NUL && Peek(t, p) != '\n' {
      LineStays(t, w, p + 1);
    }
  }

  /**
   Reading on from where the complete lines of the shorter file ended gives exactly the lines that a single reading of
   the longer file has behind them.
   */
  lemma {:induction false} ResumeAtEnd(t: string, w: string, p: nat)
    requires p <= |t|
    ensures Lines(t + w, p) == Lines(t, p) + Lines(t + w, LinesEnd(t, p))
    ensures LinesEnd(t + w, p) == LinesEnd(t + w, LinesEnd(t, p))
    decreases |t| - p
  {
    hide LineEnd, HasLine, LineAt, Lines, LinesEnd;
    if HasLine(t, p) {
      SameLine(t, w, p);
      FirstLine(t, p);
      FirstLine(t + w, p);
      var next := LineEnd(t, p) + 1;
      ResumeAtEnd(t, w, next);
      JoinedTwice(LineAt(t, p), Lines(t, next), Lines(t + w, LinesEnd(t, p)));
    } else {
      NoLine(t, p);
    }
  }

  lemma FirstLine(t: string, p: nat)
    requires p <= |t| && HasLine(t, p)
    ensures LineEnd(t, p) < |t|
    ensures Lines(t, p) == LineAt(t, p) + Lines(t, LineEnd(t, p) + 1)
    ensures LinesEnd(t, p) == LinesEnd(t, LineEnd(t, p) + 1)
  {
    hide LineAt;
  }

  lemma NoLine(t: string, p: nat)
    requires p <= |t| && !HasLine(t, p)
    ensures Lines(t, p) == [] && LinesEnd(t, p) == p
  {
  }

  lemma JoinedTwice<T>(a: seq<T>, b: seq<T>, c: seq<T>)
    ensures a + b + c == a + (b + c)
  {
  }

  lemma SameLine(t: string, w: string, p: nat)
    requires p <= |t| && HasLine(t, p)
    ensures LineEnd(t, p) < |t|
    ensures HasLine(t + w, p) && LineEnd(t + w, p) == LineEnd(t, p) && LineAt(t + w, p) == LineAt(t, p)
  {
    LineStays(t, w, p);
    assert (t + w)[p..LineEnd(t, p)] == t[p..LineEnd(t, p)];
  }

  /** Without a NUL byte, every newline ends up behind the offset: what is left is one unfinished line. */
  lemma {:induction false} OnlyUnfinishedLeft(t: string, p: nat)
    requires p <= |t| && NulFree(t)
    ensures forall i :: LinesEnd(t, p) <= i < |t| ==> t[i] != '\n'
    decreases |t| - p
  {
    if HasLine(t, p) {
      OnlyUnfinishedLeft(t, LineEnd(t, p) + 1);
    }
  }

  // ---- replaced files ---------------------------------------------------------------------------

  lemma {:induction false} JoinedBoth(a: seq<string>, b: seq<string>)
    ensures Joined(a + b) == Joined(a) + Joined(b)
  {
    if a == [] {
      assert a + b == b;
    } else {
      assert a + b == [a[0]] + (a[1..] + b);
      JoinedCons(a[0], a[1..] + b);
      JoinedBoth(a[1..], b);
      hide Joined;
      assert a == [a[0]] + a[1..];
      JoinedCons(a[0], a[1..]);
      JoinedTwice(a[0] + "\n", Joined(a[1..]), Joined(b));
    }
  }

  /** A line is the same in a text that agrees up to its newline. */
  lemma {:induction false} SameLineEnd(t: string, u: string, p: nat)
    requires p <= |u| && LineEnd(u, p) < |u| && LineEnd(u, p) < |t|
    requires forall i :: p <= i <= LineEnd(u, p) ==> t[i] == u[i]
    ensures LineEnd(t, p) == LineEnd(u, p)
    decreases |u| - p
  {
    if Peek(u, p) != NUL && Peek(u, p) != '\n' {
      SameLineEnd(t, u, p + 1);
    }
  }

  /** The line at p, and the lines behind it. */
  lemma OneLine(t: string, p: nat)
    requires p <= |t|
    ensures HasLine(t, p) ==>
              var e := LineEnd(t, p);
              e < |t| && AllLines(t, p) == [t[p..e]] + AllLines(t, e + 1) && LinesEnd(t, p) == LinesEnd(t, e + 1)
    ensures !HasLine(t, p) ==> AllLines(t, p) == [] && LinesEnd(t, p) == p
  {
  }

  lemma SameFirstLine(u: string, t: string, p: nat)
    requires p <= |u| && HasLine(u, p) && LineEnd(u, p) < |t|
    requires forall i :: p <= i <= LineEnd(u, p) ==> t[i] == u[i]
    ensures HasLine(t, p) && LineEnd(t, p) == LineEnd(u, p) && t[p..LineEnd(u, p)] == u[p..LineEnd(u, p)]
  {
    SameLineEnd(t, u, p);
  }

  /** The lines of u are the first ones of every text that agrees with u up to their end. */
  lemma {:induction false} FrontLines(u: string, t: string, p: nat)
    requires p <= |u| && LinesEnd(u, p) <= |t| && forall i :: p <= i < LinesEnd(u, p) ==> t[i] == u[i]
    ensures AllLines(t, p) == AllLines(u, p) + AllLines(t, LinesEnd(u, p))
    decreases |u| - p
  {
    hide AllLines, LinesEnd, LineEnd, HasLine;
    OneLine(u, p);
    if HasLine(u, p) {
      var e := LineEnd(u, p);
      SameFirstLine(u, t, p);
      OneLine(t, p);
      FrontLines(u, t, e + 1);
      JoinedTwice([u[p..e]], AllLines(u, e + 1), AllLines(t, LinesEnd(u, p)));
    }
  }

  /** If the lines of u and those of t behind them are all lines of t, then t starts with the lines of u. */
  lemma LinesTellFront(u: string, t: string)
    requires var e := LinesEnd(u, 0); e <= |t| && AllLines(u, 0) + AllLines(t, e) == AllLines(t, 0)
    ensures t[..LinesEnd(u, 0)] == u[..LinesEnd(u, 0)]
  {
    var e, x, y := LinesEnd(u, 0), LinesEnd(t, LinesEnd(u, 0)), LinesEnd(t, 0);
    LinesAreText(u, 0);
    LinesAreText(t, e);
    LinesAreText(t, 0);
    JoinedBoth(AllLines(u, 0), AllLines(t, e));
    hide AllLines, LinesEnd, Joined;
    assert u[0..e] + t[e..x] == t[0..y];
    assert t[..e] == t[0..y][..e] == u[0..e];
  }

  /**
   Reading a text on from where the lines of another one ended misses, splits and repeats no line exactly when the two
   agree up to there.
   */
  lemma ResumesIff(u: string, t: string)
    requires LinesEnd(u, 0) <= |t|
    ensures var e := LinesEnd(u, 0);
            AllLines(u, 0) + AllLines(t, e) == AllLines(t, 0) <==> t[..e] == u[..e]
  {
    var e := LinesEnd(u, 0);
    if t[..e] == u[..e] {
      forall i | 0 <= i < e
        ensures t[i] == u[i]
      {
        assert t[..e][i] == u[..e][i];
      }
      FrontLines(u, t, 0);
    } else if AllLines(u, 0) + AllLines(t, e) == AllLines(t, 0) {
      LinesTellFront(u, t);
    }
  }

  lemma {:induction false} NonBlankBoth(a: seq<string>, b: seq<string>)
    ensures NonBlank(a + b) == NonBlank(a) + NonBlank(b)
  {
    if a == [] {
      assert a + b == b;
    } else {
      assert a + b == [a[0]] + (a[1..] + b);
      NonBlankCons(a[0], a[1..] + b);
      NonBlankBoth(a[1..], b);
      hide NonBlank;
      assert a == [a[0]] + a[1..];
      NonBlankCons(a[0], a[1..]);
      JoinedTwice(if a[0] == "" then [] else [a[0]], NonBlank(a[1..]), NonBlank(b));
    }
  }
}
