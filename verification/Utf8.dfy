/**
 The bytes of a text in UTF-8 (section 3 of RFC 3629), and what a write that stored only the first of them leaves.
 */
module Utf8 {
  import opened FilePlan

  type Byte = b: nat | b < 256

  function EncodeChar(c: char): (bytes: seq<Byte>)
    ensures bytes != []
  {
    var n := c as int;
    if n <= 0x7F then [n]
    else if n <= 0x7FF then [0xC0 + n / 64, 0x80 + n % 64]
    else if n <= 0xFFFF then [0xE0 + n / 4096, 0x80 + n / 64 % 64, 0x80 + n % 64]
    else [0xF0 + n / 262144, 0x80 + n / 4096 % 64, 0x80 + n / 64 % 64, 0x80 + n % 64]
  }

  function Encode(text: string): seq<Byte> {
    if text == [] then [] else EncodeChar(text[0]) + Encode(text[1..])
  }

  /** How many bytes a character has whose first byte is this one; zero if none starts with it. */
  function LengthFrom(b: Byte): nat {
    if b < 0x80 then 1 else if b < 0xC0 then 0 else if b < 0xE0 then 2 else if b < 0xF0 then 3 else if b < 0xF8 then 4 else 0
  }

  /** The bytes are whole characters, one after the other. */
  predicate Decodes(bytes: seq<Byte>) {
    bytes == [] || (0 < LengthFrom(bytes[0]) <= |bytes| && Decodes(bytes[LengthFrom(bytes[0])..]))
  }

  lemma CharBytes(c: char)
    ensures |EncodeChar(c)| == Width(c) == LengthFrom(EncodeChar(c)[0])
  {
  }

  function Prefix(bytes: seq<Byte>, k: nat): seq<Byte> {
    if k <= |bytes| then bytes[..k] else bytes
  }

  lemma PrefixBehind(c: seq<Byte>, rest: seq<Byte>, k: nat)
    requires k >= |c| > 0
    ensures Prefix(c + rest, k) == c + Prefix(rest, k - |c|) && Prefix(c + rest, k) != []
    ensures Prefix(c + rest, k)[0] == c[0] && Prefix(c + rest, k)[|c|..] == Prefix(rest, k - |c|)
  {
  }

  /**
   What a write leaves that stored the first `k` bytes: if they are whole characters, the text of exactly these bytes,
   and otherwise no text.
   */
  lemma {:induction false} CutIsDecoding(text: string, k: nat)
    ensures Cut(text, k).Text? <==> Decodes(Prefix(Encode(text), k))
    ensures Cut(text, k).Text? ==> Cut(text, k).text <= text && Encode(Cut(text, k).text) == Prefix(Encode(text), k)
  {
    if text != [] && k > 0 {
      var c, rest := EncodeChar(text[0]), Encode(text[1..]);
      CharBytes(text[0]);
      if k < |c| {
        assert Prefix(Encode(text), k) == c[..k] && c[..k][0] == c[0];
      } else {
        PrefixBehind(c, rest, k);
        CutIsDecoding(text[1..], k - |c|);
      }
    }
  }
}
