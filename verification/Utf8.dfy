/** UTF-8: text as bytes, and which bytes are a text. */
module Utf8 {
  type Byte = b: int | 0 <= b < 256

  function EncodeChar(c: char): (bytes: seq<Byte>)
    ensures bytes != []
  {
    var n := c as int;
    if n < 0x80 then [n]
    else if n < 0x800 then [0xc0 + n / 0x40, 0x80 + n % 0x40]
    else if n < 0x1_0000 then [0xe0 + n / 0x1000, 0x80 + n / 0x40 % 0x40, 0x80 + n % 0x40]
    else [0xf0 + n / 0x4_0000, 0x80 + n / 0x1000 % 0x40, 0x80 + n / 0x40 % 0x40, 0x80 + n % 0x40]
  }

  /** `str.encode("utf-8")` */
  function Encode(text: string): seq<Byte> {
    if text == "" then [] else EncodeChar(text[0]) + Encode(text[1..])
  }

  /** A strict decoder reads exactly the encodings of texts. */
  ghost predicate IsUtf8(bytes: seq<Byte>) { exists text :: Encode(text) == bytes }

  ghost function Decode(bytes: seq<Byte>): (text: string)
    requires IsUtf8(bytes)
    ensures Encode(text) == bytes
  {
    var text :| Encode(text) == bytes; text
  }

  /** The first byte of a character says how many there are. */
  function Length(lead: Byte): nat {
    if lead < 0x80 then 1 else if lead < 0xe0 then 2 else if lead < 0xf0 then 3 else 4
  }

  lemma LeadSaysLength(c: char)
    ensures |EncodeChar(c)| == Length(EncodeChar(c)[0])
  {
  }

  lemma EncodeCharIsInjective(c: char, d: char)
    requires EncodeChar(c) == EncodeChar(d)
    ensures c == d
  {
    Split(c as int);
    Split(d as int);
  }

  lemma Split(n: nat)
    ensures n == n / 0x40 * 0x40 + n % 0x40
    ensures n / 0x40 == n / 0x1000 * 0x40 + n / 0x40 % 0x40
    ensures n / 0x1000 == n / 0x4_0000 * 0x40 + n / 0x1000 % 0x40
  {
  }

  lemma {:induction false} EncodeConcat(a: string, b: string)
    ensures Encode(a + b) == Encode(a) + Encode(b)
    decreases |a|
  {
    if a == "" {
      assert a + b == b;
    } else {
      assert (a + b)[1..] == a[1..] + b;
      EncodeConcat(a[1..], b);
    }
  }

  /** A text whose encoding starts another one is the start of that text. */
  lemma {:induction false} EncodingOfAStart(a: string, b: string)
    requires Encode(a) <= Encode(b)
    ensures a <= b
    decreases |a|
  {
    if a != "" {
      var x, y := EncodeChar(a[0]), EncodeChar(b[0]);
      assert x[0] == Encode(a)[0] == Encode(b)[0] == y[0];
      LeadSaysLength(a[0]);
      LeadSaysLength(b[0]);
      assert x == Encode(a)[..|x|] == Encode(b)[..|x|] == y;
      EncodeCharIsInjective(a[0], b[0]);
      assert Encode(a[1..]) == Encode(a)[|x|..] && Encode(b[1..]) == Encode(b)[|x|..];
      EncodingOfAStart(a[1..], b[1..]);
      assert a == [a[0]] + a[1..] && b == [b[0]] + b[1..];
    }
  }

  lemma DecodeEncode(text: string)
    ensures IsUtf8(Encode(text)) && Decode(Encode(text)) == text
  {
    EncodingOfAStart(Decode(Encode(text)), text);
    EncodingOfAStart(text, Decode(Encode(text)));
  }
}
