/** What the request peeker accepts, said twice: as a byte-at-a-time parser, and as a grammar
    of messages with a printer (sections 3.1.1, 3.2, 3.2.6 and 3.5 of RFC 7230). */
module HttpGrammar {
  import opened Bytes

  const LF: Byte := 10
  const CR: Byte := 13
  const COLON: Byte := 58
  const DEL: Byte := 127

  /** "HTTP/1." */
  const HTTP1: seq<Byte> := [72, 84, 84, 80, 47, 49, 46]

  datatype Option<T> = None | Some(value: T)

  // ---------------------------------------------------------------- character classes

  /** The entries of the token table that are set: `tchar` of section 3.2.6. */
  predicate IsToken(c: Byte) {
    c == 33 || 35 <= c <= 39 || 42 <= c <= 43 || 45 <= c <= 46 || 48 <= c <= 57
    || 65 <= c <= 90 || 94 <= c <= 122 || c == 124 || c == 126
  }

  predicate NotToken(c: Byte) { !IsToken(c) }

  predicate IsPrintable(c: Byte) { 32 <= c < 127 }

  /** The bytes that end a line or make it unacceptable; a tab does neither. */
  predicate IsControl(c: Byte) { (c < 32 && c != HT) || c == DEL }

  predicate NotBlank(c: Byte) { !IsBlank(c) }

  predicate NotSpace(c: Byte) { c != SP }

  predicate EndsPath(c: Byte) { c <= SP || c == DEL }

  predicate IsDigit(c: Byte) { 48 <= c <= 57 }

  // ---------------------------------------------------------------- the parser

  /** The first position from `at` on whose byte satisfies `p`, or the end. */
  function Scan(s: seq<Byte>, at: nat, p: Byte -> bool): (r: nat)
    requires at <= |s|
    ensures at <= r <= |s|
    decreases |s| - at
  {
    if at == |s| || p(s[at]) then at else Scan(s, at + 1, p)
  }

  /** Part of the buffer: where it starts and how many bytes it has. */
  datatype Slice = Slice(at: nat, len: nat)

  datatype Fields = Fields(method_: Slice, path: Slice, version: nat, name: Option<Slice>, value: Slice)

  /** `OverRead`: the byte after the buffer is read before anything is decided. */
  datatype Outcome = OverRead | Rejected | Accepted(fields: Fields)

  datatype Word = Word(end: nat, next: nat)

  datatype RequestLine = RequestLine(method_: Slice, path: Slice, version: nat, next: nat)

  datatype HeaderLine = HeaderLine(name: Option<Slice>, value: Slice)

  /** Past the line end at `at`, which is CR LF or LF. */
  function PastEol(s: seq<Byte>, at: nat): (r: Option<nat>)
    requires at < |s|
    ensures r.Some? ==> at < r.value <= |s|
  {
    if s[at] == CR then
      if at + 1 < |s| && s[at + 1] == LF then Some(at + 2) else None
    else if s[at] == LF then Some(at + 1)
    else None
  }

  /** Past an empty line in front of the request. */
  function PastEmptyLine(s: seq<Byte>): (r: Option<nat>)
    requires s != []
    ensures r.Some? ==> r.value <= |s|
  {
    if s[0] == CR || s[0] == LF then PastEol(s, 0) else Some(0)
  }

  function ParseVersion(s: seq<Byte>, at: nat): (r: Option<nat>)
    requires at <= |s|
    ensures r.Some? ==> at + 8 < |s| && r.value < 10
  {
    if |s| - at < 9 || s[at..at + 7] != HTTP1 || !IsDigit(s[at + 7]) then None
    else Some(s[at + 7] - 48)
  }

  /** A word from `at` on, up to the first stopping byte, which must be a space, and the spaces
      after it, which must not be the last thing in the buffer. */
  function ParseWord(s: seq<Byte>, at: nat, stop: Byte -> bool): (r: Option<Word>)
    requires at <= |s|
    ensures r.Some? ==> at <= r.value.end < r.value.next < |s|
  {
    var end := Scan(s, at, stop);
    if end == |s| || s[end] != SP then None
    else
      var next := Scan(s, end + 1, NotSpace);
      if next == |s| then None else Some(Word(end, next))
  }

  function ParseRequestLine(s: seq<Byte>, p: nat): (r: Option<RequestLine>)
    requires p < |s|
    ensures r.Some? ==> r.value.next <= |s|
  {
    match ParseWord(s, p, NotToken)
    case None => None
    case Some(m) =>
      match ParseWord(s, m.next, EndsPath)
      case None => None
      case Some(t) =>
        if m.end == p || t.end == m.next then None
        else ParseLineEnd(s, t.next, Slice(p, m.end - p), Slice(m.next, t.end - m.next))
  }

  /** The version and the line end, after the two words. */
  function ParseLineEnd(s: seq<Byte>, p: nat, method_: Slice, path: Slice): (r: Option<RequestLine>)
    requires p <= |s|
    ensures r.Some? ==> r.value.next <= |s|
  {
    match ParseVersion(s, p)
    case None => None
    case Some(version) =>
      match PastEol(s, p + 8)
      case None => None
      case Some(next) => Some(RequestLine(method_, path, version, next))
  }

  /** The end of `s[at..end]` without trailing blanks. */
  function TrimmedEnd(s: seq<Byte>, at: nat, end: nat): (r: nat)
    requires at <= end <= |s|
    ensures at <= r <= end
    decreases end
  {
    if end > at && IsBlank(s[end - 1]) then TrimmedEnd(s, at, end - 1) else end
  }

  /** The text from `at` to the end of its line, without trailing blanks. */
  function ParseValue(s: seq<Byte>, at: nat, name: Option<Slice>): Option<HeaderLine>
    requires at <= |s|
  {
    var e := Scan(s, at, IsControl);
    if e == |s| || PastEol(s, e).None? then None
    else Some(HeaderLine(name, Slice(at, TrimmedEnd(s, at, e) - at)))
  }

  function ParseHeaderLine(s: seq<Byte>, p: nat): Option<HeaderLine>
    requires p <= |s|
  {
    if p == |s| || s[p] == CR || s[p] == LF then None
    else if IsBlank(s[p]) then ParseValue(s, p, None)
    else
      var q := Scan(s, p, NotToken);
      if q == |s| || s[q] != COLON || q == p then None
      else
        var v := Scan(s, q + 1, NotBlank);
        if v == |s| then None else ParseValue(s, v, Some(Slice(p, q - p)))
  }

  function ParseRequest(s: seq<Byte>): Outcome {
    if s == [] then Rejected
    else
      match PastEmptyLine(s)
      case None => Rejected
      case Some(p) =>
        if p == |s| then OverRead
        else
          match ParseRequestLine(s, p)
          case None => Rejected
          case Some(line) =>
            match ParseHeaderLine(s, line.next)
            case None => Rejected
            case Some(header) => Accepted(Fields(line.method_, line.path, line.version, header.name, header.value))
  }

  // ---------------------------------------------------------------- the grammar

  ghost predicate All(s: seq<Byte>, p: Byte -> bool) {
    forall i | 0 <= i < |s| :: p(s[i])
  }

  ghost predicate No(s: seq<Byte>, p: Byte -> bool) {
    forall i | 0 <= i < |s| :: !p(s[i])
  }

  predicate IsEol(s: seq<Byte>) {
    s == [CR, LF] || s == [LF]
  }

  /** A header field, or the continuation line of one, which starts with a blank. */
  datatype Header =
    | Named(name: seq<Byte>, gap: seq<Byte>, value: seq<Byte>, trail: seq<Byte>, eol: seq<Byte>)
    | Folded(value: seq<Byte>, trail: seq<Byte>, eol: seq<Byte>)

  datatype Message = Message(
    lead: seq<Byte>,
    method_: seq<Byte>,
    gap1: seq<Byte>,
    path: seq<Byte>,
    gap2: seq<Byte>,
    digit: Byte,
    eol: seq<Byte>,
    header: Header,
    rest: seq<Byte>)

  /** Text without controls that does not end in a blank, then blanks, then a line end. */
  ghost predicate ValueOk(value: seq<Byte>, trail: seq<Byte>, eol: seq<Byte>) {
    && No(value, IsControl) && (value != [] ==> !IsBlank(value[|value| - 1]))
    && All(trail, IsBlank) && IsEol(eol)
  }

  ghost predicate HeaderOk(h: Header) {
    && ValueOk(h.value, h.trail, h.eol)
    && match h
       case Named(name, gap, value, trail, _) =>
         && name != [] && All(name, IsToken) && All(gap, IsBlank)
         && (if value == [] then trail == [] else !IsBlank(value[0]))
       case Folded(value, trail, _) =>
         value + trail != [] && IsBlank((value + trail)[0])
  }

  ghost predicate WellFormed(m: Message) {
    && (m.lead == [] || IsEol(m.lead))
    && m.method_ != [] && All(m.method_, IsToken)
    && m.gap1 != [] && No(m.gap1, NotSpace)
    && m.path != [] && No(m.path, EndsPath)
    && m.gap2 != [] && No(m.gap2, NotSpace)
    && IsDigit(m.digit)
    && IsEol(m.eol)
    && HeaderOk(m.header)
  }

  function PrintValue(value: seq<Byte>, trail: seq<Byte>, eol: seq<Byte>, rest: seq<Byte>): seq<Byte> {
    value + (trail + (eol + rest))
  }

  function PrintHeader(h: Header, rest: seq<Byte>): seq<Byte> {
    match h
    case Named(name, gap, value, trail, eol) =>
      name + ([COLON] + (gap + PrintValue(value, trail, eol, rest)))
    case Folded(value, trail, eol) => PrintValue(value, trail, eol, rest)
  }

  function PrintLine(m: Message): seq<Byte> {
    m.method_ + (m.gap1 + (m.path + (m.gap2 + (HTTP1 + ([m.digit] + (m.eol + PrintHeader(m.header, m.rest)))))))
  }

  function Print(m: Message): seq<Byte> {
    m.lead + PrintLine(m)
  }

  /** Where the parts of a message lie in its print. */
  function LineFields(m: Message): RequestLine
    requires IsDigit(m.digit)
  {
    var p0 := |m.lead|;
    var p2 := p0 + |m.method_| + |m.gap1|;
    var p4 := p2 + |m.path| + |m.gap2|;
    RequestLine(Slice(p0, |m.method_|), Slice(p2, |m.path|), m.digit - 48, p4 + 8 + |m.eol|)
  }

  function HeaderFields(h: Header, p: nat): HeaderLine {
    match h
    case Named(name, gap, value, _, _) =>
      HeaderLine(Some(Slice(p, |name|)), Slice(p + |name| + 1 + |gap|, |value|))
    case Folded(value, _, _) => HeaderLine(None, Slice(p, |value|))
  }

  function FieldsOf(m: Message): Fields
    requires IsDigit(m.digit)
  {
    var line := LineFields(m);
    var header := HeaderFields(m.header, line.next);
    Fields(line.method_, line.path, line.version, header.name, header.value)
  }
}
