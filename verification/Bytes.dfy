module Bytes {

  type Byte = b: int | 0 <= b < 256

  const HT: Byte := 9
  const SP: Byte := 32

  predicate IsBlank(c: Byte) { c == SP || c == HT }

  predicate AsciiOnly(text: string) {
    forall i | 0 <= i < |text| :: text[i] as int < 128
  }

  /** The bytes of a text. */
  function Ascii(text: string): (bytes: seq<Byte>)
    requires AsciiOnly(text)
    ensures |bytes| == |text|
    ensures forall i | 0 <= i < |text| :: bytes[i] == text[i] as int
  {
    seq(|text|, i requires 0 <= i < |text| => text[i] as int)
  }

  /** The two blanks are the space and the tab. */
  lemma BlanksAre(c: Byte)
    ensures IsBlank(c) <==> c as char in " \t"
  {
  }
}
