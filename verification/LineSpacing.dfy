/** What the two line formatters do to a line, and what they keep of it. */
module LineSpacing {
  import opened Bytes

  type Line = seq<Byte>

  /** The bytes that are set apart by spaces. */
  predicate IsCh(c: Byte) { 33 <= c <= 126 && c != 40 && c != 41 }

  /** Between these two bytes a space is missing: one belongs to a run and the other neither
      belongs to it nor is a space. */
  predicate Edge(a: Byte, b: Byte) {
    || (IsCh(b) && !IsCh(a) && a != SP)
    || (IsCh(a) && !IsCh(b) && b != SP)
  }

  /** The byte at the start of `s`; after the end of a line a NUL is read. */
  function Head(s: Line): Byte { if s == [] then 0 else s[0] }

  /** The space inserted at position `p` of a line, between `a` and `b`. The first two
      positions are left alone. */
  function Space(p: nat, a: Byte, b: Byte): (r: Line)
    ensures |r| <= 1
  {
    if p >= 2 && Edge(a, b) then [SP] else []
  }

  /** What `s` becomes, starting at position `p` of a line, after the byte `a`. */
  function SpacedAfter(p: nat, a: Byte, s: Line): Line
    decreases |s|, 1
  {
    Space(p, a, Head(s)) + Rest(p, s)
  }

  /** The same when the edge in front of `s` has been dealt with. */
  function Rest(p: nat, s: Line): Line
    decreases |s|, 0
  {
    if s == [] then [] else [s[0]] + SpacedAfter(p + 1, s[0], s[1..])
  }

  /** A line with the missing spaces inserted. */
  function Spaced(s: Line): Line { SpacedAfter(0, SP, s) }

  /** A line without its trailing blanks. */
  function Trimmed(s: Line): Line {
    if s != [] && IsBlank(s[|s| - 1]) then Trimmed(s[..|s| - 1]) else s
  }

  // ---------------------------------------------------------------- insertion is idempotent

  /** Positions that count alike. */
  predicate Alike(p: nat, q: nat) { p == q || (p >= 2 && q >= 2) }

  lemma {:induction false} AgainAfter(p: nat, q: nat, a: Byte, s: Line)
    requires Alike(p, q)
    ensures SpacedAfter(q, a, SpacedAfter(p, a, s)) == SpacedAfter(p, a, s)
    decreases |s|, 1
  {
    var rest := Rest(p, s);
    if Space(p, a, Head(s)) == [SP] {
      AgainRest(p, q + 1, s);
      assert ([SP] + rest)[1..] == rest;
      assert SpacedAfter(q + 1, SP, rest) == rest;
    } else {
      AgainRest(p, q, s);
      assert SpacedAfter(p, a, s) == rest;
      assert Head(rest) == Head(s);
    }
  }

  lemma {:induction false} AgainRest(p: nat, q: nat, s: Line)
    requires Alike(p, q)
    ensures Rest(q, Rest(p, s)) == Rest(p, s)
    decreases |s|, 0
  {
    if s != [] {
      AgainAfter(p + 1, q + 1, s[0], s[1..]);
      assert Rest(p, s)[1..] == SpacedAfter(p + 1, s[0], s[1..]);
    }
  }

  /** A spaced line has no space missing. */
  lemma SpacedIdempotent(s: Line)
    ensures Spaced(Spaced(s)) == Spaced(s)
  {
    AgainAfter(0, 0, SP, s);
  }

  // ---------------------------------------------------------------- where a space is missing

  function At(s: Line, p: nat): Byte
    requires p <= |s|
  {
    Head(s[p..])
  }

  /** A space is missing in front of position `p`. */
  predicate Missing(s: Line, p: nat) {
    2 <= p <= |s| && Edge(s[p - 1], At(s, p))
  }

  lemma {:induction false} LengthAfter(p: nat, a: Byte, s: Line)
    ensures |s| <= |SpacedAfter(p, a, s)| <= 2 * |s| + (if p >= 2 then 1 else 0)
    decreases |s|
  {
    if s != [] {
      LengthAfter(p + 1, s[0], s[1..]);
    }
  }

  /** A line loses no byte, and never grows to twice its length. */
  lemma SpacedLength(s: Line)
    ensures |s| <= |Spaced(s)| <= 2 * |s| && (s != [] ==> |Spaced(s)| < 2 * |s|)
  {
    LengthAfter(0, SP, s);
    if s != [] {
      LengthAfter(1, s[0], s[1..]);
    }
  }

  lemma {:induction false} UnchangedAfter(s: Line, p: nat)
    requires p <= |s|
    ensures var a := if p == 0 then SP else s[p - 1];
      SpacedAfter(p, a, s[p..]) == s[p..] <==> forall q | p <= q <= |s| :: !Missing(s, q)
    decreases |s| - p
  {
    var a := if p == 0 then SP else s[p - 1];
    assert Missing(s, p) <==> Space(p, a, Head(s[p..])) != [];
    if p < |s| {
      assert s[p..] == [s[p]] + s[p + 1..];
      UnchangedAfter(s, p + 1);
      LengthAfter(p + 1, s[p], s[p + 1..]);
      assert Rest(p, s[p..]) == [s[p]] + SpacedAfter(p + 1, s[p], s[p + 1..]);
      if !Missing(s, p) {
        assert SpacedAfter(p, a, s[p..])[1..] == SpacedAfter(p + 1, s[p], s[p + 1..]);
      }
    }
  }

  /** The dry run has something to say exactly when some space is missing. */
  lemma SpacedUnchanged(s: Line)
    ensures Spaced(s) == s <==> forall p | 0 <= p <= |s| :: !Missing(s, p)
  {
    UnchangedAfter(s, 0);
    assert s[0..] == s;
  }

  ghost function MissingFrom(s: Line, p: nat): set<nat> {
    set q | p <= q <= |s| && Missing(s, q)
  }

  lemma {:induction false} LengthFrom(s: Line, p: nat)
    requires p <= |s|
    ensures var a := if p == 0 then SP else s[p - 1];
      |SpacedAfter(p, a, s[p..])| == |s| - p + |MissingFrom(s, p)|
    decreases |s| - p
  {
    MissingSplit(s, p);
    if p < |s| {
      LengthFrom(s, p + 1);
      assert s[p..][1..] == s[p + 1..];
    }
  }

  lemma MissingSplit(s: Line, p: nat)
    requires p <= |s|
    ensures |MissingFrom(s, p)| == (if Missing(s, p) then 1 else 0) + if p < |s| then |MissingFrom(s, p + 1)| else 0
  {
    var here, later := if Missing(s, p) then {p} else {}, MissingFrom(s, p + 1);
    assert MissingFrom(s, p) == here + later;
    assert p == |s| ==> later == {};
  }

  /** One space is inserted for every position where one is missing. */
  lemma SpacedCount(s: Line)
    ensures |Spaced(s)| == |s| + |MissingFrom(s, 0)|
  {
    LengthFrom(s, 0);
    assert s[0..] == s;
  }

  /** How many spaces are missing in front of the positions from `p` to `q`. */
  function Gaps(s: Line, p: nat, q: nat): (n: nat)
    decreases q - p
  {
    if p >= q then 0 else (if Missing(s, p) then 1 else 0) + Gaps(s, p + 1, q)
  }

  /** Byte `i` of the line is moved on by the spaces missing from position `p` up to it. */
  ghost predicate ByteStands(s: Line, p: nat, i: nat, out: Line)
    requires p <= i < |s|
  {
    var k := i - p + Gaps(s, p, i + 1);
    k < |out| && out[k] == s[i]
  }

  /** The space missing at `i` stands there. */
  ghost predicate SpaceStands(s: Line, p: nat, i: nat, out: Line)
    requires p <= i <= |s|
  {
    var k := i - p + Gaps(s, p, i);
    k < |out| && out[k] == 32
  }

  /** Where the bytes of a line and the inserted spaces lie in the result, from position `p` on. */
  ghost predicate Placed(s: Line, p: nat, out: Line)
    requires p <= |s|
  {
    && |out| == |s| - p + Gaps(s, p, |s| + 1)
    && (forall i | p <= i < |s| :: ByteStands(s, p, i, out))
    && (forall i | p <= i <= |s| && Missing(s, i) :: SpaceStands(s, p, i, out))
  }

  lemma {:induction false} PlacedFrom(s: Line, p: nat)
    requires p <= |s|
    ensures Placed(s, p, SpacedAfter(p, if p == 0 then SP else s[p - 1], s[p..]))
    decreases |s| - p
  {
    if p < |s| {
      PlacedFrom(s, p + 1);
      assert s[p..][1..] == s[p + 1..];
      assert Rest(p, s[p..]) == [s[p]] + SpacedAfter(p + 1, s[p], s[p + 1..]);
      assert Missing(s, p) <==> Space(p, if p == 0 then SP else s[p - 1], Head(s[p..])) != [];
      PlacedOneMore(s, p, SpacedAfter(p + 1, s[p], s[p + 1..]));
    } else {
      assert s[p..] == [] && Gaps(s, p, p) == 0;
      assert Gaps(s, p, p + 1) == (if Missing(s, p) then 1 else 0) + Gaps(s, p + 1, p + 1);
      assert Rest(p, s[p..]) == [];
    }
  }

  lemma PlacedOneMore(s: Line, p: nat, tail: Line)
    requires p < |s| && Placed(s, p + 1, tail)
    ensures Placed(s, p, (if Missing(s, p) then [SP] else []) + ([s[p]] + tail))
  {
    var space: Line := if Missing(s, p) then [SP] else [];
    var out := space + ([s[p]] + tail);
    forall i | p <= i < |s|
      ensures ByteStands(s, p, i, out)
    {
      OneMoreByte(s, p, i, tail, space, out);
    }
    forall i | p <= i <= |s| && Missing(s, i)
      ensures SpaceStands(s, p, i, out)
    {
      OneMoreSpace(s, p, i, tail, space, out);
    }
  }

  lemma OneMoreByte(s: Line, p: nat, i: nat, tail: Line, space: Line, out: Line)
    requires p <= i < |s| && Placed(s, p + 1, tail)
    requires space == (if Missing(s, p) then [SP] else []) && out == space + ([s[p]] + tail)
    ensures ByteStands(s, p, i, out)
  {
    assert Gaps(s, p, i + 1) == |space| + Gaps(s, p + 1, i + 1);
    if p == i {
      assert out[|space|] == s[p];
    } else {
      assert ByteStands(s, p + 1, i, tail);
      var k := i - (p + 1) + Gaps(s, p + 1, i + 1);
      assert out[|space| + 1 + k] == tail[k];
    }
  }

  lemma OneMoreSpace(s: Line, p: nat, i: nat, tail: Line, space: Line, out: Line)
    requires p <= i <= |s| && Missing(s, i) && p < |s| && Placed(s, p + 1, tail)
    requires space == (if Missing(s, p) then [SP] else []) && out == space + ([s[p]] + tail)
    ensures SpaceStands(s, p, i, out)
  {
    if p < i {
      assert SpaceStands(s, p + 1, i, tail);
      assert Gaps(s, p, i) == |space| + Gaps(s, p + 1, i);
      var k := i - (p + 1) + Gaps(s, p + 1, i);
      assert out[|space| + 1 + k] == tail[k];
    }
  }

  /** The whole result, byte by byte: byte `i` of the line is moved on by the spaces missing up to
      it, and every missing space stands where it was missing; there is nothing else. */
  lemma SpacedByPlace(s: Line)
    ensures |Spaced(s)| == |s| + Gaps(s, 0, |s| + 1)
    ensures forall i | 0 <= i < |s| ::
      i + Gaps(s, 0, i + 1) < |Spaced(s)| && Spaced(s)[i + Gaps(s, 0, i + 1)] == s[i]
    ensures forall i | 0 <= i <= |s| && Missing(s, i) ::
      i + Gaps(s, 0, i) < |Spaced(s)| && Spaced(s)[i + Gaps(s, 0, i)] == 32
  {
    PlacedFrom(s, 0);
    assert s[0..] == s;
    forall i | 0 <= i < |s|
      ensures i + Gaps(s, 0, i + 1) < |Spaced(s)| && Spaced(s)[i + Gaps(s, 0, i + 1)] == s[i]
    {
      assert ByteStands(s, 0, i, Spaced(s));
    }
    forall i | 0 <= i <= |s| && Missing(s, i)
      ensures i + Gaps(s, 0, i) < |Spaced(s)| && Spaced(s)[i + Gaps(s, 0, i)] == 32
    {
      assert SpaceStands(s, 0, i, Spaced(s));
    }
  }

  /** In byte numbers: from the third position on, exactly one of the two neighbours is in 33 to
      126 and no parenthesis, and the other is not a space. The end of the line counts as a byte 0. */
  predicate Unspaced(s: Line, p: nat) {
    && 2 <= p <= |s|
    && var a, b: int := s[p - 1], if p == |s| then 0 else s[p];
    || (33 <= a <= 126 && a != 40 && a != 41 && b != 32 && !(33 <= b <= 126 && b != 40 && b != 41))
    || (33 <= b <= 126 && b != 40 && b != 41 && a != 32 && !(33 <= a <= 126 && a != 40 && a != 41))
  }

  lemma MissingMeans(s: Line, p: nat)
    ensures Missing(s, p) <==> Unspaced(s, p)
  {
  }

  /** The dry run speaks exactly of such a line. */
  lemma SpacedWhere(s: Line)
    ensures Spaced(s) == s <==> forall p: nat | p <= |s| :: !Unspaced(s, p)
  {
    SpacedUnchanged(s);
    forall p: nat | p <= |s|
      ensures Missing(s, p) == Unspaced(s, p)
    {
      MissingMeans(s, p);
    }
    assert Spaced(s) == s <==> forall p: nat | p <= |s| :: !Missing(s, p);
  }

  /** A call with one argument. */
  lemma Parentheses()
    ensures Spaced(Ascii("f(x)")) == Ascii("f( x )")
  {
    var s := Ascii("f(x)");
    assert s == [102, 40, 120, 41] && Ascii("f( x )") == [102, 40, 32, 120, 32, 41];
    assert s[1..] == [40, 120, 41] && s[1..][1..] == [120, 41] && s[1..][1..][1..] == [41];
    assert SpacedAfter(4, 41, []) == [];
    assert SpacedAfter(3, 120, [41]) == [32, 41];
    assert SpacedAfter(2, 40, [120, 41]) == [32, 120, 32, 41];
    assert SpacedAfter(1, 102, [40, 120, 41]) == [40, 32, 120, 32, 41];
  }

  // ---------------------------------------------------------------- only spaces are added

  /** `t` is `s` with spaces put in. */
  predicate Widens(s: Line, t: Line) {
    if t == [] then s == []
    else (s != [] && s[0] == t[0] && Widens(s[1..], t[1..])) || (t[0] == SP && Widens(s, t[1..]))
  }

  /** The line without its spaces. */
  function Inked(s: Line): Line {
    if s == [] then [] else (if s[0] == SP then [] else [s[0]]) + Inked(s[1..])
  }

  lemma {:induction false} WidensKeepsInk(s: Line, t: Line)
    requires Widens(s, t)
    ensures Inked(t) == Inked(s) && |s| <= |t|
    decreases |t|
  {
    if t != [] {
      if s != [] && s[0] == t[0] && Widens(s[1..], t[1..]) {
        WidensKeepsInk(s[1..], t[1..]);
      } else {
        WidensKeepsInk(s, t[1..]);
      }
    }
  }

  lemma {:induction false} WidensAfter(p: nat, a: Byte, s: Line)
    ensures Widens(s, SpacedAfter(p, a, s)) && Widens(s, Rest(p, s))
    decreases |s|
  {
    var rest := Rest(p, s);
    if s != [] {
      WidensAfter(p + 1, s[0], s[1..]);
      assert rest[1..] == SpacedAfter(p + 1, s[0], s[1..]);
    }
    if Space(p, a, Head(s)) == [SP] {
      assert SpacedAfter(p, a, s)[1..] == rest;
    } else {
      assert SpacedAfter(p, a, s) == rest;
    }
  }

  /** The original line is what is left when the right spaces are taken out again. */
  lemma SpacedWidens(s: Line)
    ensures Widens(s, Spaced(s)) && Inked(Spaced(s)) == Inked(s)
  {
    WidensAfter(0, SP, s);
    WidensKeepsInk(s, Spaced(s));
  }

  // ---------------------------------------------------------------- runs stay whole

  function Last(a: Byte, x: Line): Byte { if x == [] then a else x[|x| - 1] }

  /** `x` with the spaces inside it and in front of it, but none at its end. */
  function Woven(p: nat, a: Byte, x: Line): Line
    decreases |x|
  {
    if x == [] then [] else Space(p, a, x[0]) + ([x[0]] + Woven(p + 1, x[0], x[1..]))
  }

  /** A line is spaced part by part. */
  lemma {:induction false} WovenThen(p: nat, a: Byte, x: Line, z: Line)
    ensures SpacedAfter(p, a, x + z) == Woven(p, a, x) + SpacedAfter(p + |x|, Last(a, x), z)
    decreases |x|
  {
    if x == [] {
      assert x + z == z;
    } else {
      var c, tail := x[0], x[1..];
      var w, after := Woven(p + 1, c, tail), SpacedAfter(p + |x|, Last(a, x), z);
      WovenThen(p + 1, c, tail, z);
      assert Last(c, tail) == Last(a, x) && p + 1 + |tail| == p + |x|;
      assert x + z == [c] + (tail + z);
      SpacedCons(p, a, c, tail + z);
      assert SpacedAfter(p, a, x + z) == Space(p, a, c) + ([c] + (w + after));
      RegroupFirst(Space(p, a, c), c, w, after);
    }
  }

  lemma SpacedCons(p: nat, a: Byte, c: Byte, s: Line)
    ensures SpacedAfter(p, a, [c] + s) == Space(p, a, c) + ([c] + SpacedAfter(p + 1, c, s))
  {
    assert ([c] + s)[1..] == s;
  }

  lemma RegroupFirst(space: Line, c: Byte, w: Line, after: Line)
    ensures space + ([c] + (w + after)) == (space + ([c] + w)) + after
  {
  }

  lemma WovenAlone(p: nat, a: Byte, x: Line)
    ensures SpacedAfter(p, a, x) == Woven(p, a, x) + Space(p + |x|, Last(a, x), 0)
  {
    WovenThen(p, a, x, []);
    assert x + [] == x;
  }

  /** No two neighbours in `c` want a space between them. */
  ghost predicate Quiet(c: Line) {
    forall i | 0 < i < |c| :: !Edge(c[i - 1], c[i])
  }

  lemma QuietTail(c: Line)
    requires Quiet(c) && |c| > 1
    ensures !Edge(c[0], c[1]) && Quiet(c[1..])
  {
    var t := c[1..];
    forall i | 0 < i < |t| ensures !Edge(t[i - 1], t[i]) {
      assert !Edge(c[i + 1 - 1], c[i + 1]);
    }
  }

  lemma {:induction false} QuietStays(p: nat, a: Byte, c: Line)
    requires Quiet(c) && c != []
    ensures Woven(p, a, c) == Space(p, a, c[0]) + c
    decreases |c|
  {
    if |c| > 1 {
      QuietTail(c);
      QuietStays(p + 1, c[0], c[1..]);
      assert Space(p + 1, c[0], c[1]) == [];
    }
    assert c == [c[0]] + c[1..];
  }

  lemma {:induction false} WidensWoven(p: nat, a: Byte, x: Line, gap: Line)
    requires gap == [] || gap == [SP]
    ensures Widens(x, Woven(p, a, x) + gap)
    decreases |x|
  {
    if x == [] {
      assert gap != [] ==> gap[1..] == [];
      assert Woven(p, a, x) + gap == gap;
    } else {
      var tail := Woven(p + 1, x[0], x[1..]) + gap;
      WidensWoven(p + 1, x[0], x[1..], gap);
      WidensFirst(x, tail);
      assert Woven(p, a, x) + gap == Space(p, a, x[0]) + ([x[0]] + tail);
    }
  }

  lemma WidensFirst(x: Line, tail: Line)
    requires x != [] && Widens(x[1..], tail)
    ensures Widens(x, [x[0]] + tail) && Widens(x, [SP] + ([x[0]] + tail)) && Widens(x, [] + ([x[0]] + tail))
  {
    var t := [x[0]] + tail;
    assert t[1..] == tail && [] + t == t && ([SP] + t)[1..] == t;
    assert Widens(x, t);
  }

  /** A chunk without edges comes through in one piece, between what its surroundings became. */
  lemma QuietStaysWhole(x: Line, c: Line, y: Line) returns (before: Line, after: Line)
    requires Quiet(c) && c != []
    ensures Spaced(x + (c + y)) == before + (c + after)
    ensures Widens(x, before) && Widens(y, after)
  {
    var p, a := |x|, Last(SP, x);
    var gap := Space(p, a, c[0]);
    before := Woven(0, SP, x) + gap;
    after := SpacedAfter(p + |c|, Last(a, c), y);
    WovenThen(0, SP, x, c + y);
    QuietThen(p, a, c, y, gap, after);
    Regroup(Woven(0, SP, x), gap, c, after);
    WidensWoven(0, SP, x, gap);
    WidensAfter(p + |c|, Last(a, c), y);
  }

  lemma QuietThen(p: nat, a: Byte, c: Line, y: Line, gap: Line, after: Line)
    requires Quiet(c) && c != [] && gap == Space(p, a, c[0]) && after == SpacedAfter(p + |c|, Last(a, c), y)
    ensures SpacedAfter(p, a, c + y) == (gap + c) + after
  {
    WovenThen(p, a, c, y);
    QuietStays(p, a, c);
  }

  lemma Regroup(w: Line, gap: Line, c: Line, after: Line)
    ensures w + ((gap + c) + after) == (w + gap) + (c + after)
  {
  }

  /** So does any run of the bytes set apart, and any run of others, such as the bytes of one
      character beyond ASCII. */
  lemma RunsAreQuiet(c: Line)
    requires (forall i | 0 <= i < |c| :: IsCh(c[i])) || (forall i | 0 <= i < |c| :: c[i] >= 128)
    ensures Quiet(c)
  {
  }

  // ---------------------------------------------------------------- trimming

  ghost predicate Blanks(s: Line) {
    forall i | 0 <= i < |s| :: IsBlank(s[i])
  }

  /** No blank at the end. */
  predicate Trim(s: Line) { s != [] ==> !IsBlank(s[|s| - 1]) }

  /** Trimming cuts a line at one place: only blanks behind it, and none in front of it. */
  lemma {:induction false} TrimmedCuts(s: Line)
    ensures var t := Trimmed(s);
      |t| <= |s| && t == s[..|t|] && Trim(t) && Blanks(s[|t|..])
    decreases |s|
  {
    if s != [] && IsBlank(s[|s| - 1]) {
      var n := |s| - 1;
      TrimmedCuts(s[..n]);
      var t := Trimmed(s);
      assert s[..n][..|t|] == s[..|t|];
      assert s[|t|..] == s[..n][|t|..] + [s[n]];
    }
  }

  lemma {:induction false} TrimmedIs(x: Line, blanks: Line)
    requires Trim(x) && Blanks(blanks)
    ensures Trimmed(x + blanks) == x
    decreases |blanks|
  {
    if blanks == [] {
      assert x + blanks == x;
    } else {
      var n := |blanks| - 1;
      assert (x + blanks)[..|x| + n] == x + blanks[..n];
      TrimmedIs(x, blanks[..n]);
    }
  }

  lemma TrimmedIdempotent(s: Line)
    ensures Trimmed(Trimmed(s)) == Trimmed(s)
  {
    TrimmedCuts(s);
    TrimmedIs(Trimmed(s), []);
    assert Trimmed(s) + [] == Trimmed(s);
  }

  // ---------------------------------------------------------------- both formatters

  /** A line after both formatters, in the order they are applied. */
  function Tidy(s: Line): Line { Trimmed(Spaced(s)) }

  lemma {:induction false} BlanksAfter(p: nat, a: Byte, s: Line)
    requires Blanks(s)
    ensures Blanks(SpacedAfter(p, a, s))
    decreases |s|
  {
    if s != [] {
      BlanksAfter(p + 1, s[0], s[1..]);
    }
  }

  lemma {:induction false} WovenEnds(p: nat, a: Byte, x: Line)
    ensures |Woven(p, a, x)| >= |x| && Last(a, Woven(p, a, x)) == Last(a, x)
    decreases |x|
  {
    if x != [] {
      WovenEnds(p + 1, x[0], x[1..]);
      assert Last(x[0], x[1..]) == Last(a, x);
    }
  }

  /** The spaces put in and the trimming do not get in each other's way. */
  lemma TidyIsWoven(s: Line)
    ensures Tidy(s) == Woven(0, SP, Trimmed(s)) && Trim(Tidy(s))
  {
    var u := Trimmed(s);
    var blanks := BlanksBehind(s);
    var w, tail := Woven(0, SP, u), SpacedAfter(|u|, Last(SP, u), blanks);
    WovenThen(0, SP, u, blanks);
    assert Spaced(s) == w + tail;
    BlanksAfter(|u|, Last(SP, u), blanks);
    WovenTrim(u);
    TrimmedIs(w, tail);
  }

  lemma BlanksBehind(s: Line) returns (blanks: Line)
    ensures s == Trimmed(s) + blanks && Blanks(blanks) && Trim(Trimmed(s))
  {
    TrimmedCuts(s);
    blanks := s[|Trimmed(s)|..];
  }

  lemma WovenTrim(u: Line)
    requires Trim(u)
    ensures Trim(Woven(0, SP, u))
  {
    WovenEnds(0, SP, u);
  }

  /** A woven line is woven already. */
  lemma WovenIdempotent(u: Line)
    ensures var w := Woven(0, SP, u); Woven(0, SP, w) == w
  {
    var w := Woven(0, SP, u);
    var gap := Space(|u|, Last(SP, u), 0);
    WovenAlone(0, SP, u);
    SpacedIdempotent(u);
    WovenThen(0, SP, w, gap);
    WovenEnds(0, SP, w);
    LengthAfter(|w|, Last(SP, w), gap);
    assert (w + gap)[..|w|] == w;
  }

  /** Formatting a second time changes nothing, for every line. */
  lemma TidyIdempotent(s: Line)
    ensures Tidy(Tidy(s)) == Tidy(s)
  {
    var u, w := Trimmed(s), Tidy(s);
    TidyIsWoven(s);
    TidyIsWoven(w);
    TrimmedIs(w, []);
    assert w + [] == w;
    WovenIdempotent(u);
  }

  /** Yet a line formatted both ways is found wanting by its own check exactly when it has at
      least two bytes before its trailing blanks and the last of these is one set apart: the
      space wanted there is the one that trimming takes away. */
  lemma TidyStillWanting(s: Line)
    ensures var w, u := Tidy(s), Trimmed(s);
      (Spaced(w) != w || Trimmed(w) != w) <==> (|u| >= 2 && IsCh(u[|u| - 1]))
  {
    var u, w := Trimmed(s), Tidy(s);
    TidyIsWoven(s);
    TrimmedIs(w, []);
    assert w + [] == w;
    WovenWanting(u, w);
  }

  lemma WovenWanting(u: Line, w: Line)
    requires w == Woven(0, SP, u)
    ensures Spaced(w) != w <==> |u| >= 2 && IsCh(u[|u| - 1])
  {
    WovenIdempotent(u);
    WovenAlone(0, SP, w);
    WovenEnds(0, SP, u);
    assert Spaced(w) == w + Space(|w|, Last(SP, u), 0);
    assert |u| == 1 ==> w == u;
  }

  /** The two letters "ab" are such a line. */
  lemma TidyStillWantingWitness()
    ensures var s: Line := [97, 98]; Tidy(s) == s && Spaced(s) == s + [SP]
  {
    var s: Line := [97, 98];
    assert s[1..] == [98] && s[1..][1..] == [];
    assert SpacedAfter(2, 98, []) == [SP];
    assert SpacedAfter(1, 97, s[1..]) == [98, SP];
    assert Spaced(s) == [97, 98, SP];
    assert Trimmed(s) == s;
    TrimmedIs(s, [SP]);
    assert s + [SP] == [97, 98, SP];
  }
}
