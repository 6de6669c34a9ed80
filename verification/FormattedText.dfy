/** The line formatters, which change a line while they scan it, and the officer that applies
    them to every line of a text. With `isCheck` nothing is changed and the answer says whether
    something would be. */
module FormattedText {
  import opened Bytes
  import opened Widths
  import opened LineSpacing
  import Bits

  const MAXIMUM_FILE_SIZE: nat := 10485760

  // ---------------------------------------------------------------- where the scan stands

  /** What is left of the original line: its position there, the byte before it, and whether
      the space in front of it has been decided on and inserted. */
  datatype Mark = Mark(p: nat, prev: Byte, rest: Line, handled: bool)

  /** From index `i` on the line holds the rest of the original, and the text before `i` is
      final. Whether a space belongs at `i` is still open. */
  ghost predicate Open(line: Line, i: nat, goal: Line, m: Mark) {
    && 1 <= m.p <= i <= |line| && (m.p == 1 <==> i == 1) && line[i..] == m.rest && line[i - 1] == m.prev
    && goal == line[..i] + SpacedAfter(m.p, m.prev, m.rest)
  }

  /** The same when that has been decided. */
  ghost predicate Decided(line: Line, i: nat, goal: Line, m: Mark) {
    && 1 <= m.p <= i <= |line| && (m.p == 1 <==> i == 1) && line[i..] == m.rest
    && goal == line[..i] + Rest(m.p, m.rest)
  }

  /** Where the outer loop stands. */
  ghost predicate Scanning(line: Line, i: nat, goal: Line, m: Mark) {
    if m.handled then Decided(line, i, goal, m) && m.p >= 2 && line[i - 1] == SP
    else Open(line, i, goal, m) && (m.p >= 2 ==> !IsCh(m.prev))
  }

  /** Where it stands after a run. */
  ghost predicate RunOver(line: Line, i: nat, goal: Line, m: Mark) {
    && !m.handled && Open(line, i, goal, m) && m.p >= 2 && IsCh(m.prev) && !IsCh(Head(m.rest))
  }

  function After(m: Mark): Mark
    requires m.rest != []
  {
    Mark(m.p + 1, m.rest[0], m.rest[1..], false)
  }

  function Inserted(line: Line, i: nat): Line
    requires i <= |line|
  {
    line[..i] + [SP] + line[i..]
  }

  lemma Begin(line: Line)
    requires line != []
    ensures Scanning(line, 1, Spaced(line), Mark(1, line[0], line[1..], false))
  {
    assert Rest(0, line) == [line[0]] + SpacedAfter(1, line[0], line[1..]);
    assert Spaced(line) == [] + Rest(0, line) == Rest(0, line);
    assert line[..1] == [line[0]];
  }

  lemma Decide(line: Line, i: nat, goal: Line, m: Mark)
    requires Open(line, i, goal, m) && Space(m.p, m.prev, Head(m.rest)) == []
    ensures Decided(line, i, goal, m)
  {
  }

  lemma Step(line: Line, i: nat, goal: Line, m: Mark)
    requires Decided(line, i, goal, m) && m.rest != []
    ensures i < |line| && line[i] == m.rest[0] && Open(line, i + 1, goal, After(m))
  {
    assert line[..i + 1] == line[..i] + [m.rest[0]];
  }

  lemma Insert(line: Line, i: nat, goal: Line, m: Mark)
    requires Open(line, i, goal, m) && Space(m.p, m.prev, Head(m.rest)) == [SP]
    ensures goal != line
    ensures Scanning(Inserted(line, i), i + 1, goal, m.(handled := true))
  {
    var longer := Inserted(line, i);
    assert longer[..i + 1] == line[..i] + [SP];
    assert longer[i + 1..] == m.rest;
    assert goal == longer[..i + 1] + Rest(m.p, m.rest);
    WidensAfter(m.p, m.prev, m.rest);
    WidensKeepsInk(m.rest, Rest(m.p, m.rest));
  }

  lemma SkipOther(line: Line, i: nat, goal: Line, m: Mark)
    requires Scanning(line, i, goal, m) && m.rest != [] && !IsCh(m.rest[0])
    ensures Scanning(line, i + 1, goal, After(m))
  {
    if !m.handled {
      Decide(line, i, goal, m);
    }
    Step(line, i, goal, m);
  }

  lemma Lead(line: Line, i: nat, goal: Line, m: Mark)
    requires Scanning(line, i, goal, m) && m.rest != [] && IsCh(m.rest[0]) && line[i - 1] != SP && i != 1
    ensures goal != line && Scanning(Inserted(line, i), i + 1, goal, m.(handled := true))
  {
    Insert(line, i, goal, m);
  }

  lemma NoLead(line: Line, i: nat, goal: Line, m: Mark)
    requires Scanning(line, i, goal, m) && m.rest != [] && IsCh(m.rest[0]) && (line[i - 1] == SP || i == 1)
    ensures Decided(line, i, goal, m)
  {
    if !m.handled {
      Decide(line, i, goal, m);
    }
  }

  /** The run from `i` to `j`. */
  lemma {:induction false} Run(line: Line, i: nat, j: nat, goal: Line, m: Mark) returns (m': Mark)
    requires i < j <= |line| && (forall k | i <= k < j :: IsCh(line[k])) && !IsCh(At(line, j))
    requires Decided(line, i, goal, m)
    ensures RunOver(line, j, goal, m') && |m'.rest| < |m.rest|
    decreases j - i
  {
    Step(line, i, goal, m);
    m' := After(m);
    if i + 1 < j {
      Decide(line, i + 1, goal, m');
      m' := Run(line, i + 1, j, goal, m');
    }
  }

  lemma Trail(line: Line, i: nat, goal: Line, m: Mark)
    requires RunOver(line, i, goal, m) && At(line, i) != SP
    ensures goal != line && Scanning(Inserted(line, i), i + 1, goal, m.(handled := true))
  {
    Insert(line, i, goal, m);
  }

  lemma NoTrail(line: Line, i: nat, goal: Line, m: Mark)
    requires RunOver(line, i, goal, m) && At(line, i) == SP
    ensures m.rest != [] && Scanning(line, i + 1, goal, After(m))
  {
    Decide(line, i, goal, m);
    Step(line, i, goal, m);
  }

  lemma Finish(line: Line, i: nat, goal: Line, m: Mark)
    requires Scanning(line, i, goal, m) && i == |line|
    ensures line == goal
  {
    assert m.rest == [] && Rest(m.p, m.rest) == [];
    if !m.handled {
      Decide(line, i, goal, m);
    }
    assert goal == line[..i] + [] == line;
  }

  // ---------------------------------------------------------------- the formatters

  /** Over the run that starts at `i`, if any. */
  method SkipRun(line: Line, i: nat) returns (j: nat)
    requires i <= |line|
    ensures i <= j <= |line| && (forall k | i <= k < j :: IsCh(line[k])) && !IsCh(At(line, j))
  {
    j := i;
    while IsCh(At(line, j)) && At(line, j) != SP && j < |line|
      invariant i <= j <= |line| && forall k | i <= k < j :: IsCh(line[k])
      decreases |line| - j
    {
      j := j + 1;
    }
  }

  /** Inserts the missing spaces, or looks for one. */
  method AddLineSpace(text: Line, isCheck: bool) returns (line: Line, needFormat: bool)
    ensures line == if isCheck then text else Spaced(text)
    ensures needFormat <==> isCheck && Spaced(text) != text
  {
    line, needFormat := text, false;
    if text == [] {
      assert Rest(0, text) == [];
      return;
    }
    ghost var goal, m := Spaced(text), Mark(1, text[0], text[1..], false);
    Begin(text);
    var i := 1;
    while i < |line|
      invariant Scanning(line, i, goal, m)
      invariant isCheck ==> line == text
      decreases |m.rest|, !m.handled
    {
      if !IsCh(line[i]) {
        SkipOther(line, i, goal, m);
        m := After(m);
        i := i + 1;
        continue;
      }
      ghost var lead, from := line[i - 1] != SP && i != 1, i;
      if line[i - 1] != SP && i != 1 {
        Lead(line, i, goal, m);
        if isCheck {
          return line, true;
        }
        line := Inserted(line, i);
        m := m.(handled := true);
      } else {
        NoLead(line, i, goal, m);
      }
      i := SkipRun(line, i);
      if !lead {
        m := Run(line, from, i, goal, m);
      }
      if At(line, i) != SP {
        Trail(line, i, goal, m);
        if isCheck {
          return line, true;
        }
        line := Inserted(line, i);
        m := m.(handled := true);
      } else if !lead {
        NoTrail(line, i, goal, m);
        m := After(m);
      }
      i := i + 1;
    }
    Finish(line, i, goal, m);
  }

  /** Removes trailing blanks, or looks for one. */
  method EatTrailingSpace(text: Line, isCheck: bool) returns (line: Line, needFormat: bool)
    requires |text| <= INT_MAX
    ensures line == if isCheck then text else Trimmed(text)
    ensures needFormat <==> isCheck && Trimmed(text) != text
  {
    line, needFormat := text, false;
    var i := |line| - 1;
    while i >= 0
      invariant i == |line| - 1
      invariant Trimmed(line) == Trimmed(text)
      invariant isCheck ==> line == text
    {
      if line[i] == SP || line[i] == HT {
        if isCheck {
          TrimmedCuts(line[..i]);
          return line, true;
        }
        line := line[..|line| - 1];
        i := i - 1;
        continue;
      }
      break;
    }
  }

  // ---------------------------------------------------------------- the officer

  datatype Formatter = AddSpace | EatSpace

  function Formatted(f: Formatter, s: Line): Line {
    match f
    case AddSpace => Spaced(s)
    case EatSpace => Trimmed(s)
  }

  /** A line after every formatter, one after the other. */
  function FormattedBy(fs: seq<Formatter>, s: Line): Line {
    if fs == [] then s else Formatted(fs[|fs| - 1], FormattedBy(fs[..|fs| - 1], s))
  }

  function FormattedLines(fs: seq<Formatter>, lines: seq<Line>): seq<Line> {
    seq(|lines|, i requires 0 <= i < |lines| => FormattedBy(fs, lines[i]))
  }

  /** Some formatter would change this line. */
  ghost predicate LineWanting(fs: seq<Formatter>, s: Line) {
    exists j | 0 <= j < |fs| :: Formatted(fs[j], s) != s
  }

  /** Some formatter would change some line. */
  ghost predicate TextWanting(fs: seq<Formatter>, lines: seq<Line>) {
    exists i | 0 <= i < |lines| :: LineWanting(fs, lines[i])
  }

  const FORMAT_ADD_SPACE: Bits.Word := 2
  const FORMAT_EAT_SPACE: Bits.Word := 4

  class FormatOfficer {
    var funcVec: seq<Formatter>
    var lineVec: seq<Line>

    constructor ()
      ensures funcVec == [] && lineVec == []
    {
      funcVec, lineVec := [], [];
    }

    /** Bit 1 of the flags asks for insertion and bit 2 for trimming, which comes last. */
    method GetFormatFuncArray(flags: Bits.Word)
      modifies this`funcVec
      ensures Choice(funcVec)
      ensures AddSpace in funcVec <==> flags / 2 % 2 == 1
      ensures EatSpace in funcVec <==> flags / 4 % 2 == 1
    {
      assert Bits.Pow2(0) == 1 && Bits.Pow2(1) == FORMAT_ADD_SPACE && Bits.Pow2(2) == FORMAT_EAT_SPACE;
      Bits.AndBit(flags, 1);
      Bits.AndBit(flags, 2);
      funcVec := [];
      if Bits.And(flags, FORMAT_ADD_SPACE) != 0 {
        funcVec := funcVec + [AddSpace];
      }
      if Bits.And(flags, FORMAT_EAT_SPACE) != 0 {
        funcVec := funcVec + [EatSpace];
      }
    }

    /** Applies every formatter to every line, or looks for one that would change something. */
    method FormatCheckEachLine(isCheck: bool) returns (result: bool)
      requires Choice(funcVec) && |lineVec| <= MAXIMUM_FILE_SIZE
      requires forall i | 0 <= i < |lineVec| :: |lineVec[i]| <= MAXIMUM_FILE_SIZE
      modifies this`lineVec
      ensures isCheck ==> lineVec == old(lineVec) && (result <==> TextWanting(funcVec, lineVec))
      ensures !isCheck ==> lineVec == FormattedLines(funcVec, old(lineVec)) && !result
    {
      ghost var start, fs := lineVec, funcVec;
      result := false;
      if |funcVec| == 0 {
        return;
      }
      var i := 0;
      while i < |lineVec|
        invariant i <= |lineVec| == |start| && funcVec == fs && !result
        invariant isCheck ==> lineVec == start && forall k | 0 <= k < i :: !LineWanting(fs, start[k])
        invariant !isCheck ==> Progress(start, lineVec, fs, i, 0)
      {
        var j := 0;
        while j < |funcVec|
          invariant j <= |fs| && i < |lineVec| == |start| && funcVec == fs && !result
          invariant isCheck ==> lineVec == start && forall k | 0 <= k < j :: Formatted(fs[k], start[i]) == start[i]
          invariant !isCheck ==> Progress(start, lineVec, fs, i, j)
        {
          var line;
          assert |lineVec[i]| <= INT_MAX by {
            if !isCheck {
              StillShort(fs, j, start[i]);
            }
          }
          line, result := Apply(funcVec[j], lineVec[i], isCheck);
          if !isCheck {
            ProgressStep(start, lineVec, fs, i, j, line);
          }
          lineVec := lineVec[i := line];
          if result && isCheck {
            assert LineWanting(fs, start[i]);
            return;
          }
          j := j + 1;
        }
        if !isCheck {
          ProgressNext(start, lineVec, fs, i);
        }
        i := i + 1;
      }
    }
  }

  /** Every line before `i` has been through all formatters, line `i` through the first `j`. */
  ghost predicate Progress(start: seq<Line>, now: seq<Line>, fs: seq<Formatter>, i: nat, j: nat)
    requires j <= |fs|
  {
    && i <= |now| == |start|
    && (forall k | 0 <= k < i :: now[k] == FormattedBy(fs, start[k]))
    && (forall k | i < k < |now| :: now[k] == start[k])
    && (i < |now| ==> now[i] == FormattedBy(fs[..j], start[i]))
  }

  lemma ProgressStep(start: seq<Line>, now: seq<Line>, fs: seq<Formatter>, i: nat, j: nat, line: Line)
    requires j < |fs| && i < |now| && Progress(start, now, fs, i, j) && line == Formatted(fs[j], now[i])
    ensures Progress(start, now[i := line], fs, i, j + 1)
  {
    assert fs[..j + 1][..j] == fs[..j];
  }

  lemma ProgressNext(start: seq<Line>, now: seq<Line>, fs: seq<Formatter>, i: nat)
    requires i < |now| && Progress(start, now, fs, i, |fs|)
    ensures Progress(start, now, fs, i + 1, 0)
  {
    assert fs[..|fs|] == fs;
  }

  /** The formatters that flags can ask for. */
  predicate Choice(fs: seq<Formatter>) {
    fs == [] || fs == [AddSpace] || fs == [EatSpace] || fs == [AddSpace, EatSpace]
  }

  /** Half-formatted lines stay within an int. */
  lemma StillShort(fs: seq<Formatter>, j: nat, s: Line)
    requires Choice(fs) && j < |fs| && |s| <= MAXIMUM_FILE_SIZE
    ensures |FormattedBy(fs[..j], s)| <= INT_MAX
  {
    if j == 1 {
      assert fs[..1] == [AddSpace] && fs[..1][..0] == [];
      assert FormattedBy([AddSpace], s) == Spaced(s);
      SpacedLength(s);
    }
  }

  method Apply(f: Formatter, text: Line, isCheck: bool) returns (line: Line, needFormat: bool)
    requires |text| <= INT_MAX
    ensures line == if isCheck then text else Formatted(f, text)
    ensures needFormat <==> isCheck && Formatted(f, text) != text
  {
    match f
    case AddSpace => line, needFormat := AddLineSpace(text, isCheck);
    case EatSpace => line, needFormat := EatTrailingSpace(text, isCheck);
  }

  // ---------------------------------------------------------------- what a text keeps

  /** A text formatted one way passes its own check. */
  lemma OneFormatterPasses(f: Formatter, lines: seq<Line>)
    ensures !TextWanting([f], FormattedLines([f], lines))
  {
    forall i | 0 <= i < |lines| ensures !LineWanting([f], FormattedLines([f], lines)[i]) {
      var s := lines[i];
      assert FormattedBy([f], s) == Formatted(f, s);
      SpacedIdempotent(s);
      TrimmedIdempotent(s);
    }
  }

  /** Formatting with any choice of formatters is idempotent. */
  lemma FormattedTwice(fs: seq<Formatter>, lines: seq<Line>)
    requires Choice(fs)
    ensures var once := FormattedLines(fs, lines); FormattedLines(fs, once) == once
  {
    forall i | 0 <= i < |lines| ensures FormattedBy(fs, FormattedBy(fs, lines[i])) == FormattedBy(fs, lines[i]) {
      ByChoice(fs, lines[i]);
      ByChoice(fs, FormattedBy(fs, lines[i]));
      SpacedIdempotent(lines[i]);
      TrimmedIdempotent(lines[i]);
      TidyIdempotent(lines[i]);
    }
  }

  lemma ByChoice(fs: seq<Formatter>, s: Line)
    requires Choice(fs)
    ensures FormattedBy(fs, s)
         == if fs == [] then s
            else if fs == [AddSpace] then Spaced(s)
            else if fs == [EatSpace] then Trimmed(s)
            else Tidy(s)
  {
    if |fs| > 0 {
      var first := fs[..|fs| - 1];
      if |first| > 0 {
        assert first == [AddSpace] && first[..0] == [];
        assert FormattedBy(first, s) == Spaced(s);
      }
    }
  }

  /** A line whose text, without the blanks at its end, has two bytes or more and ends in a
      byte that is set apart. */
  ghost predicate EndsInRun(s: Line) {
    var u := Trimmed(s);
    |u| >= 2 && IsCh(u[|u| - 1])
  }

  /** A text formatted both ways passes the check of both exactly when no line of the original
      ends in a run. */
  lemma BothFormattersPass(lines: seq<Line>)
    ensures var both := [AddSpace, EatSpace];
      TextWanting(both, FormattedLines(both, lines)) <==> exists i | 0 <= i < |lines| :: EndsInRun(lines[i])
  {
    var both := [AddSpace, EatSpace];
    var after := FormattedLines(both, lines);
    forall i | 0 <= i < |lines| ensures LineWanting(both, after[i]) <==> EndsInRun(lines[i]) {
      ByChoice(both, lines[i]);
      TidyStillWanting(lines[i]);
      assert both[0] == AddSpace && both[1] == EatSpace;
    }
  }

  /** What one line says to the check, against what formatting does to it. */
  lemma LineCheckExactly(fs: seq<Formatter>, s: Line)
    requires Choice(fs)
    ensures LineWanting(fs, s) <==> FormattedBy(fs, s) != s || (fs == [AddSpace, EatSpace] && EndsInRun(s))
  {
    ByChoice(fs, s);
    if fs == [AddSpace, EatSpace] {
      TidyStillWanting(s);
      assert fs[0] == AddSpace && fs[1] == EatSpace;
    } else if fs != [] {
      assert LineWanting(fs, s) <==> Formatted(fs[0], s) != s;
    }
  }

  /** The check speaks exactly when formatting would change the text or, with both formatters,
      some line ends in a run. So a silent check means that formatting changes nothing; with one
      formatter the check speaks only when it would change something; and with both it speaks
      although nothing would change exactly when some line ends in a run. */
  lemma CheckExactly(fs: seq<Formatter>, lines: seq<Line>)
    requires Choice(fs)
    ensures TextWanting(fs, lines) <==>
      || FormattedLines(fs, lines) != lines
      || (fs == [AddSpace, EatSpace] && exists i | 0 <= i < |lines| :: EndsInRun(lines[i]))
  {
    var after := FormattedLines(fs, lines);
    forall i | 0 <= i < |lines|
      ensures LineWanting(fs, lines[i]) <==>
        after[i] != lines[i] || (fs == [AddSpace, EatSpace] && EndsInRun(lines[i]))
    {
      LineCheckExactly(fs, lines[i]);
    }
    if after == lines {
      assert forall i | 0 <= i < |lines| :: after[i] == lines[i];
    }
  }

  /** A silent check means that formatting changes nothing. */
  lemma SilentCheck(fs: seq<Formatter>, lines: seq<Line>)
    requires Choice(fs) && !TextWanting(fs, lines)
    ensures FormattedLines(fs, lines) == lines
  {
    CheckExactly(fs, lines);
  }
}
