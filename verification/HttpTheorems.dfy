/** The parser accepts exactly the printed well-formed messages, and reports their parts. */
module HttpTheorems {
  import opened Bytes
  import opened HttpGrammar

  // ---------------------------------------------------------------- reading a printed part

  /** At `p` the buffer continues with `part` and then `rest`. */
  ghost predicate Continues(s: seq<Byte>, p: nat, part: seq<Byte>, rest: seq<Byte>) {
    p <= |s| && s[p..] == part + rest
  }

  lemma Past(s: seq<Byte>, p: nat, part: seq<Byte>, rest: seq<Byte>)
    requires Continues(s, p, part, rest)
    ensures p + |part| <= |s| && s[p + |part|..] == rest
    ensures s[p..p + |part|] == part
    ensures forall i | p <= i < p + |part| :: s[i] == part[i - p]
  {
    assert s[p..][|part|..] == s[p + |part|..];
    forall i | p <= i < p + |part| ensures s[i] == part[i - p] {
      assert s[p..][i - p] == s[i];
    }
  }

  lemma First(s: seq<Byte>, p: nat, c: Byte, rest: seq<Byte>)
    requires p <= |s| && s[p..] == [c] + rest
    ensures p < |s| && s[p] == c && s[p + 1..] == rest
  {
    Past(s, p, [c], rest);
  }

  /** A scan stops where a part without stopping bytes ends. */
  lemma {:induction false} ScanIs(s: seq<Byte>, at: nat, p: Byte -> bool, e: nat)
    requires at <= e <= |s| && (forall i | at <= i < e :: !p(s[i])) && (e < |s| ==> p(s[e]))
    ensures Scan(s, at, p) == e
    decreases e - at
  {
    if at < e {
      ScanIs(s, at + 1, p, e);
    }
  }

  /** A scan over a printed part whose successor stops it; it may start one byte into it. */
  lemma ScanPart(s: seq<Byte>, p: nat, part: seq<Byte>, rest: seq<Byte>, stop: Byte -> bool)
    requires Continues(s, p, part, rest) && No(part, stop) && rest != [] && stop(rest[0])
    ensures p + |part| < |s| && s[p + |part|] == rest[0] && s[p + |part|..] == rest
    ensures Scan(s, p, stop) == p + |part|
    ensures part != [] ==> s[p] == part[0] && Scan(s, p + 1, stop) == p + |part|
  {
    Past(s, p, part, rest);
    assert s[p + |part|..][0] == rest[0];
    ScanIs(s, p, stop, p + |part|);
    if part != [] {
      ScanIs(s, p + 1, stop, p + |part|);
    }
  }

  lemma {:induction false} TrimIs(s: seq<Byte>, at: nat, t: nat, e: nat)
    requires at <= t <= e <= |s| && (forall i | t <= i < e :: IsBlank(s[i])) && (t > at ==> !IsBlank(s[t - 1]))
    ensures TrimmedEnd(s, at, e) == t
    decreases e
  {
    if t < e {
      TrimIs(s, at, t, e - 1);
    }
  }

  lemma EolAt(s: seq<Byte>, p: nat, eol: seq<Byte>, rest: seq<Byte>)
    requires Continues(s, p, eol, rest) && IsEol(eol)
    ensures p < |s| && (s[p] == CR || s[p] == LF)
    ensures PastEol(s, p) == Some(p + |eol|) && s[p + |eol|..] == rest
  {
    Past(s, p, eol, rest);
  }

  // ---------------------------------------------------------------- printed messages parse

  lemma ValueParses(s: seq<Byte>, p: nat, value: seq<Byte>, trail: seq<Byte>, eol: seq<Byte>, rest: seq<Byte>,
                    name: Option<Slice>)
    requires p <= |s| && s[p..] == PrintValue(value, trail, eol, rest) && ValueOk(value, trail, eol)
    ensures ParseValue(s, p, name) == Some(HeaderLine(name, Slice(p, |value|)))
  {
    var t := p + |value|;
    var e := t + |trail|;
    ValueEnds(s, p, value, trail + (eol + rest));
    TrailEnds(s, t, trail, eol + rest);
    EolAt(s, e, eol, rest);
    ValueIs(s, p, t, e, name);
  }

  lemma ValueEnds(s: seq<Byte>, p: nat, value: seq<Byte>, rest: seq<Byte>)
    requires Continues(s, p, value, rest) && No(value, IsControl)
    requires value != [] ==> !IsBlank(value[|value| - 1])
    ensures var t := p + |value|;
      t <= |s| && s[t..] == rest && (forall i | p <= i < t :: !IsControl(s[i])) && (t > p ==> !IsBlank(s[t - 1]))
  {
    Past(s, p, value, rest);
  }

  lemma TrailEnds(s: seq<Byte>, p: nat, trail: seq<Byte>, rest: seq<Byte>)
    requires Continues(s, p, trail, rest) && All(trail, IsBlank)
    ensures var e := p + |trail|; e <= |s| && s[e..] == rest && (forall i | p <= i < e :: IsBlank(s[i]))
  {
    Past(s, p, trail, rest);
  }

  lemma ValueIs(s: seq<Byte>, p: nat, t: nat, e: nat, name: Option<Slice>)
    requires p <= t <= e < |s|
    requires (forall i | p <= i < t :: !IsControl(s[i])) && (forall i | t <= i < e :: IsBlank(s[i]))
    requires (t > p ==> !IsBlank(s[t - 1])) && PastEol(s, e).Some?
    ensures ParseValue(s, p, name) == Some(HeaderLine(name, Slice(p, t - p)))
  {
    ScanIs(s, p, IsControl, e);
    TrimIs(s, p, t, e);
  }

  lemma HeaderParses(s: seq<Byte>, p: nat, h: Header, rest: seq<Byte>)
    requires p <= |s| && s[p..] == PrintHeader(h, rest) && HeaderOk(h)
    ensures ParseHeaderLine(s, p) == Some(HeaderFields(h, p))
  {
    match h
    case Named(name, gap, value, trail, eol) => NamedParses(s, p, name, gap, value, trail, eol, rest);
    case Folded(value, trail, eol) =>
      assert PrintValue(value, trail, eol, rest) == (value + trail) + (eol + rest);
      Past(s, p, value + trail, eol + rest);
      ValueParses(s, p, value, trail, eol, rest, None);
  }

  lemma NamedParses(s: seq<Byte>, p: nat, name: seq<Byte>, gap: seq<Byte>, value: seq<Byte>, trail: seq<Byte>,
                    eol: seq<Byte>, rest: seq<Byte>)
    requires p <= |s| && s[p..] == name + ([COLON] + (gap + PrintValue(value, trail, eol, rest)))
    requires HeaderOk(Named(name, gap, value, trail, eol))
    ensures ParseHeaderLine(s, p)
      == Some(HeaderLine(Some(Slice(p, |name|)), Slice(p + |name| + 1 + |gap|, |value|)))
  {
    var v := p + |name| + 1 + |gap|;
    var slice := Some(Slice(p, |name|));
    ValueStarts(value, trail, eol, rest);
    NameParses(s, p, name, gap, PrintValue(value, trail, eol, rest), v, slice);
    ValueParses(s, v, value, trail, eol, rest, slice);
  }

  /** The name, the colon and the blanks after it. */
  lemma NameParses(s: seq<Byte>, p: nat, name: seq<Byte>, gap: seq<Byte>, tail: seq<Byte>, v: nat, slice: Option<Slice>)
    requires p <= |s| && s[p..] == name + ([COLON] + (gap + tail))
    requires name != [] && All(name, IsToken) && All(gap, IsBlank) && tail != [] && !IsBlank(tail[0])
    requires v == p + |name| + 1 + |gap| && slice == Some(Slice(p, |name|))
    ensures v <= |s| && s[v..] == tail
    ensures ParseHeaderLine(s, p) == ParseValue(s, v, slice)
  {
    NameScans(s, p, name, gap + tail);
    GapScans(s, p + |name| + 1, gap, tail);
    NameIs(s, p, p + |name|, v);
  }

  lemma NameScans(s: seq<Byte>, p: nat, name: seq<Byte>, tail: seq<Byte>)
    requires p <= |s| && s[p..] == name + ([COLON] + tail)
    requires name != [] && All(name, IsToken)
    ensures var q := p + |name|;
      q < |s| && Scan(s, p, NotToken) == q && s[q] == COLON && s[q + 1..] == tail && IsToken(s[p])
  {
    ScanPart(s, p, name, [COLON] + tail, NotToken);
    First(s, p + |name|, COLON, tail);
  }

  lemma GapScans(s: seq<Byte>, p: nat, gap: seq<Byte>, tail: seq<Byte>)
    requires p <= |s| && s[p..] == gap + tail && All(gap, IsBlank) && tail != [] && !IsBlank(tail[0])
    ensures p + |gap| < |s| && Scan(s, p, NotBlank) == p + |gap| && s[p + |gap|..] == tail
  {
    ScanPart(s, p, gap, tail, NotBlank);
  }

  lemma NameIs(s: seq<Byte>, p: nat, q: nat, v: nat)
    requires p < q < v < |s| && IsToken(s[p])
    requires Scan(s, p, NotToken) == q && s[q] == COLON && Scan(s, q + 1, NotBlank) == v
    ensures ParseHeaderLine(s, p) == ParseValue(s, v, Some(Slice(p, q - p)))
  {
  }

  lemma ValueStarts(value: seq<Byte>, trail: seq<Byte>, eol: seq<Byte>, rest: seq<Byte>)
    requires IsEol(eol) && if value == [] then trail == [] else !IsBlank(value[0])
    ensures var tail := PrintValue(value, trail, eol, rest); tail != [] && !IsBlank(tail[0])
  {
    if value == [] {
      assert PrintValue(value, trail, eol, rest) == eol + rest;
    }
  }

  lemma LineParses(s: seq<Byte>, p: nat, m: Message, line: RequestLine)
    requires WellFormed(m) && p == |m.lead| <= |s| && s[p..] == PrintLine(m) && line == LineFields(m)
    ensures p < |s| && ParseRequestLine(s, p) == Some(line)
    ensures line.next <= |s| && s[line.next..] == PrintHeader(m.header, m.rest)
  {
    var rest := PrintHeader(m.header, m.rest);
    var p4 := line.path.at + |m.path| + |m.gap2|;
    HeadParses(s, p, m.method_, m.gap1, m.path, m.gap2, HTTP1 + ([m.digit] + (m.eol + rest)), p4, line.method_,
      line.path);
    EndParses(s, p4, m.digit, m.eol, rest, line);
  }

  lemma EndParses(s: seq<Byte>, p: nat, digit: Byte, eol: seq<Byte>, rest: seq<Byte>, line: RequestLine)
    requires p <= |s| && s[p..] == HTTP1 + ([digit] + (eol + rest)) && IsDigit(digit) && IsEol(eol)
    requires line.version == digit - 48 && line.next == p + 8 + |eol|
    ensures line.next <= |s| && s[line.next..] == rest
    ensures ParseLineEnd(s, p, line.method_, line.path) == Some(line)
  {
    VersionParses(s, p, digit, eol + rest);
    EolAt(s, p + 8, eol, rest);
  }

  /** The two words of the request line and the spaces after them. */
  lemma HeadParses(s: seq<Byte>, p0: nat, word1: seq<Byte>, gap1: seq<Byte>, word2: seq<Byte>, gap2: seq<Byte>,
                   rest: seq<Byte>, p4: nat, method_: Slice, path: Slice)
    requires p0 <= |s| && s[p0..] == word1 + (gap1 + (word2 + (gap2 + rest)))
    requires word1 != [] && All(word1, IsToken) && gap1 != [] && No(gap1, NotSpace)
    requires word2 != [] && No(word2, EndsPath) && gap2 != [] && No(gap2, NotSpace)
    requires rest != [] && rest[0] != SP
    requires method_ == Slice(p0, |word1|) && path == Slice(p0 + |word1| + |gap1|, |word2|)
    requires p4 == path.at + |word2| + |gap2|
    ensures p0 < p4 < |s| && s[p4..] == rest
    ensures ParseRequestLine(s, p0) == ParseLineEnd(s, p4, method_, path)
  {
    var tail := word2 + (gap2 + rest);
    assert tail[0] == word2[0];
    WordParses(s, p0, word1, gap1, tail, NotToken, Word(p0 + |word1|, path.at));
    WordParses(s, path.at, word2, gap2, rest, EndsPath, Word(path.at + |word2|, p4));
    HeadIs(s, p0, Word(p0 + |word1|, path.at), Word(path.at + |word2|, p4), method_, path);
  }

  lemma HeadIs(s: seq<Byte>, p: nat, w: Word, t: Word, method_: Slice, path: Slice)
    requires p < w.end < w.next < t.end < t.next < |s|
    requires ParseWord(s, p, NotToken) == Some(w) && ParseWord(s, w.next, EndsPath) == Some(t)
    requires method_ == Slice(p, w.end - p) && path == Slice(w.next, t.end - w.next)
    ensures ParseRequestLine(s, p) == ParseLineEnd(s, t.next, method_, path)
  {
  }

  /** A word, and then spaces up to something else. */
  lemma WordParses(s: seq<Byte>, p: nat, word: seq<Byte>, gap: seq<Byte>, rest: seq<Byte>, stop: Byte -> bool, w: Word)
    requires Continues(s, p, word, gap + rest) && No(word, stop) && stop(SP)
    requires gap != [] && No(gap, NotSpace) && rest != [] && rest[0] != SP
    requires w == Word(p + |word|, p + |word| + |gap|)
    ensures ParseWord(s, p, stop) == Some(w)
    ensures w.next < |s| && s[w.next..] == rest
  {
    assert (gap + rest)[0] == gap[0];
    ScanPart(s, p, word, gap + rest, stop);
    ScanPart(s, p + |word|, gap, rest, NotSpace);
  }

  lemma VersionParses(s: seq<Byte>, p: nat, digit: Byte, rest: seq<Byte>)
    requires p <= |s| && s[p..] == HTTP1 + ([digit] + rest) && IsDigit(digit) && rest != []
    ensures ParseVersion(s, p) == Some(digit - 48) && p + 8 < |s| && s[p + 8..] == rest
    ensures s[p] == 72
  {
    Past(s, p, HTTP1, [digit] + rest);
    First(s, p + 7, digit, rest);
  }

  /** Round trip: a printed well-formed message is accepted and its parts are reported. */
  lemma PrintedIsAccepted(m: Message)
    requires WellFormed(m)
    ensures ParseRequest(Print(m)) == Accepted(FieldsOf(m))
  {
    var s := Print(m);
    var line := LineFields(m);
    var header := HeaderFields(m.header, line.next);
    LeadParses(m);
    LineParses(s, |m.lead|, m, line);
    HeaderParses(s, line.next, m.header, m.rest);
    FieldsJoin(m, line, header, Fields(line.method_, line.path, line.version, header.name, header.value));
    RequestParses(s, |m.lead|, line, header);
  }

  lemma RequestParses(s: seq<Byte>, p: nat, line: RequestLine, header: HeaderLine)
    requires s != [] && PastEmptyLine(s) == Some(p) && p < |s|
    requires ParseRequestLine(s, p) == Some(line) && line.next <= |s| && ParseHeaderLine(s, line.next) == Some(header)
    ensures ParseRequest(s) == Accepted(Fields(line.method_, line.path, line.version, header.name, header.value))
  {
  }

  lemma LeadParses(m: Message)
    requires WellFormed(m)
    ensures var s := Print(m);
      s != [] && PastEmptyLine(s) == Some(|m.lead|) && s[|m.lead|..] == PrintLine(m)
  {
    var s := Print(m);
    assert s[0..] == s;
    if m.lead == [] {
      assert s == PrintLine(m);
      assert s[0] == m.method_[0];
      assert IsToken(s[0]) && PastEmptyLine(s) == Some(0);
    } else {
      EolAt(s, 0, m.lead, PrintLine(m));
    }
  }

  // ---------------------------------------------------------------- what parses was printed

  lemma Cut(s: seq<Byte>, a: nat, b: nat)
    requires a <= b <= |s|
    ensures s[a..] == s[a..b] + s[b..]
  {
  }

  lemma {:induction false} ScanMeans(s: seq<Byte>, at: nat, p: Byte -> bool)
    requires at <= |s|
    ensures forall i | at <= i < Scan(s, at, p) :: !p(s[i])
    ensures Scan(s, at, p) < |s| ==> p(s[Scan(s, at, p)])
    decreases |s| - at
  {
    if at < |s| && !p(s[at]) {
      ScanMeans(s, at + 1, p);
    }
  }

  lemma ScanCut(s: seq<Byte>, at: nat, p: Byte -> bool, e: nat)
    requires at <= |s| && e == Scan(s, at, p)
    ensures No(s[at..e], p) && s[at..] == s[at..e] + s[e..]
    ensures e < |s| ==> p(s[e])
  {
    ScanMeans(s, at, p);
    forall i | 0 <= i < |s[at..e]| ensures !p(s[at..e][i]) {
      assert s[at..e][i] == s[at + i];
    }
  }

  lemma {:induction false} TrimMeans(s: seq<Byte>, at: nat, end: nat)
    requires at <= end <= |s|
    ensures forall i | TrimmedEnd(s, at, end) <= i < end :: IsBlank(s[i])
    ensures TrimmedEnd(s, at, end) > at ==> !IsBlank(s[TrimmedEnd(s, at, end) - 1])
    decreases end
  {
    if end > at && IsBlank(s[end - 1]) {
      TrimMeans(s, at, end - 1);
    }
  }

  lemma GapCut(s: seq<Byte>, p: nat, next: nat)
    requires p < |s| && s[p] == SP && Scan(s, p + 1, NotSpace) == next < |s|
    ensures s[p..next] != [] && No(s[p..next], NotSpace)
    ensures s[p..] == s[p..next] + s[next..] && s[next] != SP
  {
    ScanMeans(s, p + 1, NotSpace);
  }

  lemma WordCut(s: seq<Byte>, p: nat, stop: Byte -> bool, w: Word)
    requires p <= |s| && ParseWord(s, p, stop) == Some(w)
    ensures No(s[p..w.end], stop)
    ensures s[w.end..w.next] != [] && No(s[w.end..w.next], NotSpace)
    ensures s[p..] == s[p..w.end] + (s[w.end..w.next] + s[w.next..])
    ensures s[w.next] != SP
  {
    ScanCut(s, p, stop, w.end);
    GapCut(s, w.end, w.next);
  }

  lemma EolCut(s: seq<Byte>, p: nat, next: nat)
    requires p < |s| && PastEol(s, p) == Some(next)
    ensures IsEol(s[p..next]) && s[p..] == s[p..next] + s[next..]
  {
  }

  lemma EndCut(s: seq<Byte>, p: nat, line: RequestLine) returns (digit: Byte, eol: seq<Byte>)
    requires p <= |s| && ParseLineEnd(s, p, line.method_, line.path) == Some(line)
    ensures IsDigit(digit) && line.version == digit - 48 && IsEol(eol) && line.next == p + 8 + |eol| <= |s|
    ensures s[p..] == HTTP1 + ([digit] + (eol + s[line.next..]))
  {
    EolCut(s, p + 8, line.next);
    digit, eol := s[p + 7], s[p + 8..line.next];
    Cut(s, p, p + 7);
    Cut(s, p + 7, p + 8);
  }

  /** The parts of a value and its line, as they lie in the buffer. */
  lemma ValueCut(s: seq<Byte>, p: nat, name: Option<Slice>, header: HeaderLine)
    returns (value: seq<Byte>, trail: seq<Byte>, eol: seq<Byte>, rest: seq<Byte>)
    requires p <= |s| && ParseValue(s, p, name) == Some(header)
    ensures ValueOk(value, trail, eol) && s[p..] == PrintValue(value, trail, eol, rest)
    ensures header == HeaderLine(name, Slice(p, |value|))
  {
    var t, e, next := ValueAt(s, p, name, header);
    value, trail, eol, rest := s[p..t], s[t..e], s[e..next], s[next..];
    EolCut(s, e, next);
    Cut(s, p, t);
    Cut(s, t, e);
  }

  lemma ValueAt(s: seq<Byte>, p: nat, name: Option<Slice>, header: HeaderLine) returns (t: nat, e: nat, next: nat)
    requires p <= |s| && ParseValue(s, p, name) == Some(header)
    ensures p <= t <= e < next <= |s| && PastEol(s, e) == Some(next)
    ensures No(s[p..t], IsControl) && All(s[t..e], IsBlank) && (t > p ==> !IsBlank(s[t - 1]))
    ensures header == HeaderLine(name, Slice(p, t - p))
  {
    e := Scan(s, p, IsControl);
    t := TrimmedEnd(s, p, e);
    next := PastEol(s, e).value;
    ScanMeans(s, p, IsControl);
    TrimMeans(s, p, e);
  }

  lemma StartsWith(x: seq<Byte>, eol: seq<Byte>, rest: seq<Byte>)
    requires IsEol(eol)
    ensures var t := x + (eol + rest); t != [] && t[0] == (if x == [] then eol[0] else x[0])
  {
  }

  lemma FoldedCut(s: seq<Byte>, p: nat, header: HeaderLine) returns (h: Header, rest: seq<Byte>)
    requires p < |s| && IsBlank(s[p]) && ParseHeaderLine(s, p) == Some(header)
    ensures HeaderOk(h) && s[p..] == PrintHeader(h, rest) && header == HeaderFields(h, p)
  {
    var value, trail, eol, tail := ValueCut(s, p, None, header);
    h, rest := Folded(value, trail, eol), tail;
    assert s[p..][0] == s[p];
    assert s[p..] == (value + trail) + (eol + tail);
    StartsWith(value + trail, eol, tail);
  }

  lemma NamedCut(s: seq<Byte>, p: nat, header: HeaderLine) returns (h: Header, rest: seq<Byte>)
    requires p < |s| && !IsBlank(s[p]) && ParseHeaderLine(s, p) == Some(header)
    ensures HeaderOk(h) && s[p..] == PrintHeader(h, rest) && header == HeaderFields(h, p)
  {
    var q, v := NameCut(s, p, header);
    var value, trail, eol, tail := ValueCut(s, v, Some(Slice(p, q - p)), header);
    h, rest := Named(s[p..q], s[q + 1..v], value, trail, eol), tail;
    assert s[v..][0] == s[v];
    if value == [] {
      assert trail == [] by {
        assert s[v..] == trail + (eol + tail);
      }
    }
    assert s[p..] == PrintHeader(h, tail);
  }

  lemma NameCut(s: seq<Byte>, p: nat, header: HeaderLine) returns (q: nat, v: nat)
    requires p < |s| && !IsBlank(s[p]) && ParseHeaderLine(s, p) == Some(header)
    ensures p < q < v < |s| && All(s[p..q], IsToken) && All(s[q + 1..v], IsBlank) && !IsBlank(s[v])
    ensures s[p..] == s[p..q] + ([COLON] + (s[q + 1..v] + s[v..]))
    ensures ParseValue(s, v, Some(Slice(p, q - p))) == Some(header)
  {
    q, v := NameAt(s, p, header);
    ScanCut(s, p, NotToken, q);
    ScanCut(s, q + 1, NotBlank, v);
    ColonCut(s, q, s[q + 1..v] + s[v..]);
  }

  lemma ColonCut(s: seq<Byte>, q: nat, tail: seq<Byte>)
    requires q < |s| && s[q] == COLON && s[q + 1..] == tail
    ensures s[q..] == [COLON] + tail
  {
  }

  lemma NameAt(s: seq<Byte>, p: nat, header: HeaderLine) returns (q: nat, v: nat)
    requires p < |s| && !IsBlank(s[p]) && ParseHeaderLine(s, p) == Some(header)
    ensures p < q < v < |s| && q == Scan(s, p, NotToken) && v == Scan(s, q + 1, NotBlank) && s[q] == COLON
    ensures ParseValue(s, v, Some(Slice(p, q - p))) == Some(header)
  {
    q := Scan(s, p, NotToken);
    v := Scan(s, q + 1, NotBlank);
  }

  lemma HeaderCut(s: seq<Byte>, p: nat, header: HeaderLine) returns (h: Header, rest: seq<Byte>)
    requires p <= |s| && ParseHeaderLine(s, p) == Some(header)
    ensures HeaderOk(h) && s[p..] == PrintHeader(h, rest) && header == HeaderFields(h, p)
  {
    if IsBlank(s[p]) {
      h, rest := FoldedCut(s, p, header);
    } else {
      h, rest := NamedCut(s, p, header);
    }
  }

  lemma WordsAre(s: seq<Byte>, p: nat, line: RequestLine) returns (w: Word, t: Word)
    requires p < |s| && ParseRequestLine(s, p) == Some(line)
    ensures p < w.end < w.next < t.end < t.next < |s|
    ensures ParseWord(s, p, NotToken) == Some(w) && ParseWord(s, w.next, EndsPath) == Some(t)
    ensures line.method_ == Slice(p, w.end - p) && line.path == Slice(w.next, t.end - w.next)
    ensures ParseLineEnd(s, t.next, line.method_, line.path) == Some(line)
  {
    w := ParseWord(s, p, NotToken).value;
    t := ParseWord(s, w.next, EndsPath).value;
  }

  /** The two words and their gaps, as they lie in the buffer. */
  lemma HeadCut(s: seq<Byte>, p: nat, line: RequestLine)
    returns (word1: seq<Byte>, gap1: seq<Byte>, word2: seq<Byte>, gap2: seq<Byte>, p4: nat)
    requires p < |s| && ParseRequestLine(s, p) == Some(line)
    ensures word1 != [] && All(word1, IsToken) && gap1 != [] && No(gap1, NotSpace)
    ensures word2 != [] && No(word2, EndsPath) && gap2 != [] && No(gap2, NotSpace)
    ensures line.method_ == Slice(p, |word1|) && line.path == Slice(p + |word1| + |gap1|, |word2|)
    ensures p4 == line.path.at + |word2| + |gap2| < |s|
    ensures s[p..] == word1 + (gap1 + (word2 + (gap2 + s[p4..])))
    ensures ParseLineEnd(s, p4, line.method_, line.path) == Some(line)
  {
    var w, t := WordsAre(s, p, line);
    WordCut(s, p, NotToken, w);
    WordCut(s, w.next, EndsPath, t);
    word1, gap1, word2, gap2, p4 := s[p..w.end], s[w.end..w.next], s[w.next..t.end], s[t.end..t.next], t.next;
  }

  lemma LineCut(s: seq<Byte>, p: nat, line: RequestLine, lead: seq<Byte>, h: Header, rest: seq<Byte>)
    returns (m: Message)
    requires p < |s| && ParseRequestLine(s, p) == Some(line)
    requires |lead| == p && (lead == [] || IsEol(lead))
    requires HeaderOk(h) && s[line.next..] == PrintHeader(h, rest)
    ensures WellFormed(m) && m.lead == lead && m.header == h
    ensures s[p..] == PrintLine(m) && LineFields(m) == line
  {
    var word1, gap1, word2, gap2, p4 := HeadCut(s, p, line);
    var digit, eol := EndCut(s, p4, line);
    var tail := s[line.next..];
    m := Message(lead, word1, gap1, word2, gap2, digit, eol, h, rest);
    LineJoins(m, s[p..], s[p4..], PrintHeader(h, rest));
    LineFieldsJoin(m, p, p4, line);
  }

  lemma LineFieldsJoin(m: Message, p: nat, p4: nat, line: RequestLine)
    requires p == |m.lead| && IsDigit(m.digit) && line.version == m.digit - 48
    requires line.method_ == Slice(p, |m.method_|) && line.path == Slice(p + |m.method_| + |m.gap1|, |m.path|)
    requires p4 == line.path.at + |m.path| + |m.gap2| && line.next == p4 + 8 + |m.eol|
    ensures LineFields(m) == line
  {
  }

  lemma LineJoins(m: Message, s: seq<Byte>, end: seq<Byte>, tail: seq<Byte>)
    requires s == m.method_ + (m.gap1 + (m.path + (m.gap2 + end)))
    requires end == HTTP1 + ([m.digit] + (m.eol + tail)) && tail == PrintHeader(m.header, m.rest)
    ensures s == PrintLine(m)
  {
  }

  /** An accepted buffer is the print of a well-formed message. */
  lemma AcceptedIsPrinted(s: seq<Byte>) returns (m: Message)
    requires ParseRequest(s).Accepted?
    ensures WellFormed(m) && Print(m) == s && ParseRequest(s).fields == FieldsOf(m)
  {
    var p, line, header := RequestIs(s);
    var h, rest := HeaderCut(s, line.next, header);
    m := LineCut(s, p, line, s[..p], h, rest);
    Whole(s, p, m);
    FieldsJoin(m, line, header, ParseRequest(s).fields);
  }

  lemma Whole(s: seq<Byte>, p: nat, m: Message)
    requires p <= |s| && m.lead == s[..p] && s[p..] == PrintLine(m)
    ensures Print(m) == s
  {
    assert s == s[..p] + s[p..];
  }

  lemma FieldsJoin(m: Message, line: RequestLine, header: HeaderLine, fields: Fields)
    requires IsDigit(m.digit) && line == LineFields(m) && header == HeaderFields(m.header, line.next)
    requires fields == Fields(line.method_, line.path, line.version, header.name, header.value)
    ensures fields == FieldsOf(m)
  {
  }

  lemma RequestIs(s: seq<Byte>) returns (p: nat, line: RequestLine, header: HeaderLine)
    requires ParseRequest(s).Accepted?
    ensures p < |s| && (s[..p] == [] || IsEol(s[..p]))
    ensures ParseRequestLine(s, p) == Some(line) && line.next <= |s| && ParseHeaderLine(s, line.next) == Some(header)
    ensures ParseRequest(s).fields == Fields(line.method_, line.path, line.version, header.name, header.value)
  {
    p := PastEmptyLine(s).value;
    line := ParseRequestLine(s, p).value;
    header := ParseHeaderLine(s, line.next).value;
  }

  // ---------------------------------------------------------------- the results

  /** The buffer is the print of a well-formed message with these parts. */
  ghost predicate Reads(s: seq<Byte>, fields: Fields) {
    exists m: Message :: WellFormed(m) && Print(m) == s && fields == FieldsOf(m)
  }

  /** Acceptance is exactly the grammar, and the fields are exactly the parts. */
  lemma AcceptsExactly(s: seq<Byte>, fields: Fields)
    ensures ParseRequest(s) == Accepted(fields) <==> Reads(s, fields)
  {
    if ParseRequest(s) == Accepted(fields) {
      var m := AcceptedIsPrinted(s);
      assert Reads(s, fields);
    }
    if Reads(s, fields) {
      var m: Message :| WellFormed(m) && Print(m) == s && fields == FieldsOf(m);
      PrintedIsAccepted(m);
    }
  }

  /** More bytes after an accepted request change nothing. */
  lemma AcceptedIsStable(s: seq<Byte>, more: seq<Byte>)
    requires ParseRequest(s).Accepted?
    ensures ParseRequest(s + more) == ParseRequest(s)
  {
    var m := AcceptedIsPrinted(s);
    LongerPrint(m, more);
    LongerReads(m, m.(rest := m.rest + more));
    PrintedIsAccepted(m.(rest := m.rest + more));
  }

  lemma LongerReads(m: Message, longer: Message)
    requires WellFormed(m) && longer == m.(rest := longer.rest)
    ensures WellFormed(longer) && FieldsOf(longer) == FieldsOf(m)
  {
  }

  lemma LongerPrint(m: Message, more: seq<Byte>)
    ensures Print(m.(rest := m.rest + more)) == Print(m) + more
  {
    LongerHeader(m.header, m.rest, more);
    var tail, longer := PrintHeader(m.header, m.rest), PrintHeader(m.header, m.rest + more);
    assert PrintLine(m.(rest := m.rest + more)) == PrintLine(m) + more;
  }

  lemma LongerHeader(h: Header, rest: seq<Byte>, more: seq<Byte>)
    ensures PrintHeader(h, rest + more) == PrintHeader(h, rest) + more
  {
    assert PrintValue(h.value, h.trail, h.eol, rest + more) == PrintValue(h.value, h.trail, h.eol, rest) + more;
  }

  function End(slice: Slice): nat { slice.at + slice.len }

  /** The slices of an accepted request lie in order inside the buffer, apart from each other. */
  lemma SlicesInOrder(s: seq<Byte>)
    requires ParseRequest(s).Accepted?
    ensures var f := ParseRequest(s).fields;
      && f.method_.len > 0 && f.path.len > 0
      && End(f.method_) < f.path.at && End(f.path) + 9 < f.value.at && End(f.value) < |s|
      && (f.name.Some? ==> f.name.value.len > 0 && End(f.path) + 9 < f.name.value.at && End(f.name.value) < f.value.at)
  {
    var m := AcceptedIsPrinted(s);
    HeaderLength(m.header, m.rest);
    LineLength(m);
  }

  /** The byte after the buffer is read exactly when the buffer is one empty line. */
  lemma OverReadExactly(s: seq<Byte>)
    ensures ParseRequest(s) == OverRead <==> IsEol(s)
  {
    if s != [] && PastEmptyLine(s) == Some(|s|) {
      assert s == [CR, LF] || s == [LF];
    }
  }

  lemma HeaderLength(h: Header, rest: seq<Byte>)
    requires HeaderOk(h)
    ensures End(HeaderFields(h, 0).value) < |PrintHeader(h, rest)|
  {
  }

  lemma LineLength(m: Message)
    requires WellFormed(m)
    ensures |Print(m)| == LineFields(m).next + |PrintHeader(m.header, m.rest)|
  {
  }

  /** The bytes of a slice. */
  function Text(s: seq<Byte>, slice: Slice): seq<Byte>
    requires End(slice) <= |s|
  {
    s[slice.at..End(slice)]
  }

  lemma TextIs(s: seq<Byte>, slice: Slice, part: seq<Byte>, rest: seq<Byte>)
    requires slice.len == |part| && Continues(s, slice.at, part, rest)
    ensures End(slice) <= |s| && Text(s, slice) == part && s[End(slice)..] == rest
  {
    Past(s, slice.at, part, rest);
  }

  /** What was printed comes back: the reported slices hold the very parts of the message. */
  lemma PartsComeBack(m: Message, f: Fields)
    requires WellFormed(m) && f == FieldsOf(m)
    ensures var s := Print(m);
      && ParseRequest(s) == Accepted(f) && f.version == m.digit - 48
      && End(f.value) <= |s| && Text(s, f.value) == m.header.value
      && End(f.path) <= |s| && Text(s, f.path) == m.path
      && End(f.method_) <= |s| && Text(s, f.method_) == m.method_
      && (m.header.Folded? <==> f.name == None)
      && (m.header.Named? ==> End(f.name.value) <= |s| && Text(s, f.name.value) == m.header.name)
  {
    var s, line := Print(m), LineFields(m);
    PrintedIsAccepted(m);
    LeadParses(m);
    LineParses(s, |m.lead|, m, line);
    WordsComeBack(s, m, line);
    HeaderComesBack(s, line.next, m.header, m.rest, f);
  }

  lemma WordsComeBack(s: seq<Byte>, m: Message, line: RequestLine)
    requires |m.lead| <= |s| && s[|m.lead|..] == PrintLine(m) && IsDigit(m.digit) && line == LineFields(m)
    ensures End(line.method_) <= |s| && Text(s, line.method_) == m.method_
    ensures End(line.path) <= |s| && Text(s, line.path) == m.path
  {
    var end := m.gap2 + (HTTP1 + ([m.digit] + (m.eol + PrintHeader(m.header, m.rest))));
    TextIs(s, line.method_, m.method_, m.gap1 + (m.path + end));
    TextIs(s, Slice(End(line.method_), |m.gap1|), m.gap1, m.path + end);
    TextIs(s, line.path, m.path, end);
  }

  lemma HeaderComesBack(s: seq<Byte>, p: nat, h: Header, rest: seq<Byte>, f: Fields)
    requires p <= |s| && s[p..] == PrintHeader(h, rest) && HeaderLine(f.name, f.value) == HeaderFields(h, p)
    ensures End(f.value) <= |s| && Text(s, f.value) == h.value
    ensures h.Folded? <==> f.name == None
    ensures h.Named? ==> End(f.name.value) <= |s| && Text(s, f.name.value) == h.name
  {
    var tail := PrintValue(h.value, h.trail, h.eol, rest);
    match h {
      case Named(name, gap, _, _, _) =>
        TextIs(s, Slice(p, |name|), name, [COLON] + (gap + tail));
        First(s, p + |name|, COLON, gap + tail);
        TextIs(s, Slice(p + |name| + 1, |gap|), gap, tail);
      case Folded(_, _, _) =>
    }
    TextIs(s, f.value, h.value, h.trail + (h.eol + rest));
  }
}
