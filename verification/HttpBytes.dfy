/** The grammar in plain characters: which bytes the classes hold, what a well-formed message is
    made of, and requests that anybody would write. */
module HttpBytes {
  import opened Bytes
  import opened HttpGrammar
  import opened HttpTheorems

  // ---------------------------------------------------------------- the classes

  /** The rows of the token table below 128, a `1` for every entry that is set; the other half of
      the table is empty. */
  const TOKEN_CHAR_MAP: seq<string> := [
    "00000000000000000000000000000000",
    "01011111001101101111111111000000",
    "01111111111111111111111111100011",
    "11111111111111111111111111101010"]

  /** The class is what the table says. */
  lemma TableIs(row: nat, column: nat)
    requires row < 8 && column < 32
    ensures row < 4 ==> |TOKEN_CHAR_MAP[row]| == 32
    ensures IsToken(32 * row + column) <==> row < 4 && TOKEN_CHAR_MAP[row][column] == '1'
  {
  }

  /** `token` is every visible character that is not a delimiter (section 3.2.6). */
  lemma TokensAre(c: Byte)
    ensures IsToken(c) <==> 33 <= c <= 126 && c as char !in "\"(),/:;<=>?@[\\]{}"
  {
  }

  /** Letters, digits and fifteen marks, as section 3.2.6 lists them. */
  lemma TokensListed(c: Byte)
    ensures IsToken(c)
       <==> 'a' as int <= c <= 'z' as int || 'A' as int <= c <= 'Z' as int || '0' as int <= c <= '9' as int
            || c as char in "!#$%&'*+-.^_`|~"
  {
  }

  /** Everything that is not a control: the tab, printable characters, and bytes beyond ASCII. */
  lemma ControlsAre(c: Byte)
    ensures IsControl(c) <==> !(c == 9 || 32 <= c <= 126 || 128 <= c)
  {
  }

  lemma PathsEndAt(c: Byte)
    ensures EndsPath(c) <==> !(33 <= c <= 126 || 128 <= c)
  {
  }

  lemma DigitsAre(c: Byte)
    ensures IsDigit(c) <==> c as char in "0123456789"
    ensures IsDigit(c) ==> "0123456789"[c - 48] as int == c
  {
  }

  lemma ConstantsAre()
    ensures HTTP1 == Ascii("HTTP/1.")
    ensures CR as char == '\r' && LF as char == '\n' && HT as char == '\t'
    ensures SP as char == ' ' && COLON as char == ':' && DEL == 127
  {
  }

  // ---------------------------------------------------------------- the grammar

  /** What a well-formed message is, without the classes. */
  lemma WellFormedMeans(m: Message)
    ensures WellFormed(m) <==>
      && m.lead in {[], [10], [13, 10]} && m.eol in {[10], [13, 10]} && 48 <= m.digit <= 57
      && m.method_ != [] && (forall c | c in m.method_ :: 33 <= c <= 126 && c as char !in "\"(),/:;<=>?@[\\]{}")
      && m.gap1 != [] && (forall c | c in m.gap1 :: c == 32)
      && m.path != [] && (forall c | c in m.path :: 33 <= c && c != 127)
      && m.gap2 != [] && (forall c | c in m.gap2 :: c == 32)
      && HeaderOk(m.header)
  {
    TokenBytes(m.method_);
    EachByte(m.gap1, NotSpace, false);
    EachByte(m.path, EndsPath, false);
    EachByte(m.gap2, NotSpace, false);
  }

  lemma EachByte(s: seq<Byte>, p: Byte -> bool, holds: bool)
    ensures (if holds then All(s, p) else No(s, p)) <==> forall c | c in s :: p(c) == holds
  {
    if forall c | c in s :: p(c) == holds {
      assert forall i | 0 <= i < |s| :: s[i] in s;
    }
  }

  lemma TokenBytes(s: seq<Byte>)
    ensures All(s, IsToken) <==> forall c | c in s :: 33 <= c <= 126 && c as char !in "\"(),/:;<=>?@[\\]{}"
  {
    EachByte(s, IsToken, true);
  }

  lemma BlankBytes(s: seq<Byte>)
    ensures All(s, IsBlank) <==> forall c | c in s :: c == 32 || c == 9
  {
    EachByte(s, IsBlank, true);
  }

  lemma TextBytes(s: seq<Byte>)
    ensures No(s, IsControl) <==> forall c | c in s :: c == 9 || 32 <= c <= 126 || 128 <= c
  {
    EachByte(s, IsControl, false);
  }

  /** A header line has a name of token bytes and a value that neither starts nor ends with a
      blank, or starts with a blank itself; no control is in it. */
  lemma HeaderMeans(h: Header)
    ensures HeaderOk(h) <==>
      && h.eol in {[10], [13, 10]} && (forall c | c in h.trail :: c == 32 || c == 9)
      && (forall c | c in h.value :: c == 9 || 32 <= c <= 126 || 128 <= c)
      && (h.value != [] ==> h.value[|h.value| - 1] != 32 && h.value[|h.value| - 1] != 9)
      && match h
         case Named(name, gap, value, trail, _) =>
           && name != [] && (forall c | c in name :: 33 <= c <= 126 && c as char !in "\"(),/:;<=>?@[\\]{}")
           && (forall c | c in gap :: c == 32 || c == 9)
           && (if value == [] then trail == [] else value[0] != 32 && value[0] != 9)
         case Folded(value, trail, _) =>
           value + trail != [] && ((value + trail)[0] == 32 || (value + trail)[0] == 9)
  {
    BlankBytes(h.trail);
    TextBytes(h.value);
    if h.Named? {
      TokenBytes(h.name);
      BlankBytes(h.gap);
    }
  }

  /** The parts of a message in the order in which they are written. */
  lemma PrintMeans(m: Message)
    ensures var head := m.lead + m.method_ + m.gap1 + m.path + m.gap2 + Ascii("HTTP/1.") + [m.digit] + m.eol;
      Print(m) == match m.header
        case Named(name, gap, value, trail, eol) => head + name + Ascii(":") + gap + value + trail + eol + m.rest
        case Folded(value, trail, eol) => head + value + trail + eol + m.rest
  {
    ConstantsAre();
    assert Ascii(":") == [COLON];
  }

  // ---------------------------------------------------------------- plain requests

  predicate Wordy(c: Byte) {
    var ch := c as char;
    'a' <= ch <= 'z' || 'A' <= ch <= 'Z' || '0' <= ch <= '9' || ch == '-'
  }

  predicate Visible(c: Byte) { '!' <= c as char <= '~' }

  /** Letters, digits and hyphens. */
  predicate IsWord(s: seq<Byte>) {
    s != [] && forall i | 0 <= i < |s| :: Wordy(s[i])
  }

  predicate IsPath(s: seq<Byte>) {
    s != [] && forall i | 0 <= i < |s| :: Visible(s[i])
  }

  /** Visible characters and spaces, visible at both ends. */
  predicate IsText(s: seq<Byte>) {
    && (forall i | 0 <= i < |s| :: Visible(s[i]) || s[i] as char == ' ')
    && (s != [] ==> Visible(s[0]) && Visible(s[|s| - 1]))
  }

  function PlainMessage(method_: seq<Byte>, path: seq<Byte>, digit: Byte, name: seq<Byte>, value: seq<Byte>,
                        rest: seq<Byte>): Message {
    Message([], method_, [SP], path, [SP], digit, [CR, LF], Named(name, [SP], value, [], [CR, LF]), rest)
  }

  lemma PlainWellFormed(method_: seq<Byte>, path: seq<Byte>, digit: Byte, name: seq<Byte>, value: seq<Byte>,
                        rest: seq<Byte>)
    requires IsWord(method_) && IsPath(path) && 48 <= digit <= 57 && IsWord(name) && IsText(value)
    ensures WellFormed(PlainMessage(method_, path, digit, name, value, rest))
  {
  }

  lemma PlainFields(method_: seq<Byte>, path: seq<Byte>, digit: Byte, name: seq<Byte>, value: seq<Byte>,
                    rest: seq<Byte>)
    requires IsDigit(digit)
    ensures var at := |method_| + |path| + 12;
      FieldsOf(PlainMessage(method_, path, digit, name, value, rest))
        == Fields(Slice(0, |method_|), Slice(|method_| + 1, |path|), digit - 48,
             Some(Slice(at, |name|)), Slice(at + |name| + 2, |value|))
  {
  }

  lemma PlainPrint(method_: seq<Byte>, path: seq<Byte>, digit: Byte, name: seq<Byte>, value: seq<Byte>, rest: seq<Byte>)
    ensures Print(PlainMessage(method_, path, digit, name, value, rest))
         == method_ + [32] + path + [32] + Ascii("HTTP/1.") + [digit] + [13, 10]
            + name + [58] + [32] + value + [13, 10] + rest
  {
    assert [] + method_ == method_ && Ascii(":") == [58];
    NothingAdded(method_ + [32] + path + [32] + Ascii("HTTP/1.") + [digit] + [13, 10] + name + [58] + [32] + value);
    PrintMeans(PlainMessage(method_, path, digit, name, value, rest));
  }

  lemma NothingAdded(s: seq<Byte>)
    ensures s + [] == s
  {
  }

  /** A request as anybody would write it, with methods and header names of letters, digits and
      hyphens, is accepted, whatever follows it, and its parts are found. */
  lemma PlainRequest(method_: seq<Byte>, path: seq<Byte>, digit: Byte, name: seq<Byte>, value: seq<Byte>,
                     rest: seq<Byte>)
    requires IsWord(method_) && IsPath(path) && 48 <= digit <= 57 && IsWord(name) && IsText(value)
    ensures var s := method_ + [32] + path + [32] + Ascii("HTTP/1.") + [digit] + [13, 10]
                     + name + [58] + [32] + value + [13, 10] + rest;
      var at := |method_| + |path| + 12;
      ParseRequest(s) == Accepted(Fields(Slice(0, |method_|), Slice(|method_| + 1, |path|), digit - 48,
        Some(Slice(at, |name|)), Slice(at + |name| + 2, |value|)))
  {
    PlainWellFormed(method_, path, digit, name, value, rest);
    PlainFields(method_, path, digit, name, value, rest);
    PlainPrint(method_, path, digit, name, value, rest);
    PrintedIsAccepted(PlainMessage(method_, path, digit, name, value, rest));
  }
}
