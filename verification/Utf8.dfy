/** Sizes of texts in bytes. */
module Utf8 {
  /** UTF-8 length of a character. */
  function CharBytes(c: char): nat {
    var code := c as int;
    if code < 0x80 then 1 else if code < 0x800 then 2 else if code < 0x1_0000 then 3 else 4
  }

  function TextBytes(text: string): nat {
    if text == "" then 0 else CharBytes(text[0]) + TextBytes(text[1..])
  }

  lemma {:induction false} TextBytesAdd(a: string, b: string)
    ensures TextBytes(a + b) == TextBytes(a) + TextBytes(b)
  {
    if a == "" {
      assert a + b == b;
    } else {
      assert (a + b)[1..] == a[1..] + b;
      TextBytesAdd(a[1..], b);
    }
  }

  // ---------------------------------------------------------------- the bytes themselves

  /** The bytes of a code point (section 3 of RFC 3629). */
  function Encode(code: nat): seq<nat> {
    if code < 0x80 then [code]
    else if code < 0x800 then [0xC0 + code / 0x40, Trail(code)]
    else if code < 0x1_0000 then [0xE0 + code / 0x40 / 0x40, Trail(code / 0x40), Trail(code)]
    else [0xF0 + code / 0x40 / 0x40 / 0x40, Trail(code / 0x40 / 0x40), Trail(code / 0x40), Trail(code)]
  }

  function Trail(code: nat): nat {
    0x80 + code % 0x40
  }

  /** How many bytes the first one announces. */
  function Announced(first: nat): nat {
    if first < 0xC0 then 1 else if first < 0xE0 then 2 else if first < 0xF0 then 3 else 4
  }

  /** What a first byte carries itself. */
  function Carried(first: nat): int {
    match Announced(first)
    case 1 => first
    case 2 => first - 0xC0
    case 3 => first - 0xE0
    case _ => first - 0xF0
  }

  /** The code point of a byte sequence, six more bits with each further byte. */
  function Decode(bytes: seq<nat>): int
    requires bytes != []
  {
    if |bytes| == 1 then Carried(bytes[0])
    else Decode(bytes[..|bytes| - 1]) * 0x40 + bytes[|bytes| - 1] - 0x80
  }

  /** The length counted is that of an encoding from which the character can be read back. */
  lemma CharBytesAreItsEncoding(c: char)
    ensures var bytes := Encode(c as nat);
      && CharBytes(c) == |bytes| == Announced(bytes[0])
      && (forall i :: 0 < i < |bytes| ==> 0x80 <= bytes[i] < 0xC0)
      && Decode(bytes) == c as nat
  {
    var code := c as nat;
    var bytes := Encode(code);
    var once := code / 0x40;
    if 0x80 <= code < 0x800 {
      assert bytes[..1] == [bytes[0]];
    } else if 0x800 <= code < 0x1_0000 {
      assert bytes[..2] == [bytes[0], bytes[1]] && bytes[..2][..1] == [bytes[0]];
      assert Decode(bytes[..2]) == once;
    } else if 0x1_0000 <= code {
      var twice := once / 0x40;
      assert bytes[..3] == [bytes[0], bytes[1], bytes[2]] && bytes[..3][..2] == [bytes[0], bytes[1]];
      assert bytes[..3][..2][..1] == [bytes[0]];
      assert Decode(bytes[..3][..2]) == twice;
      assert Decode(bytes[..3]) == once;
    }
  }
}
