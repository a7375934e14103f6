/** UTF-8 as section 4 of RFC 3629 defines it: the clipboard text of a device message. */
module Utf8 {
  import opened Bytes

  /** Unicode scalar values: code points that are not surrogates. */
  type Scalar = c: int | 0 <= c < 0xD800 || 0xE000 <= c <= 0x10_FFFF

  predicate Tail(b: byte) {
    0x80 <= b <= 0xBF
  }

  function Width(c: Scalar): (n: nat)
    ensures 1 <= n <= 4
  {
    if c < 0x80 then 1 else if c < 0x800 then 2 else if c < 0x1_0000 then 3 else 4
  }

  function EncodeOne(c: Scalar): (b: seq<byte>)
    ensures |b| == Width(c)
  {
    if c < 0x80 then [c]
    else if c < 0x800 then [0xC0 + c / 0x40, 0x80 + c % 0x40]
    else if c < 0x1_0000 then [0xE0 + c / 0x1000, 0x80 + c / 0x40 % 0x40, 0x80 + c % 0x40]
    else [0xF0 + c / 0x4_0000, 0x80 + c / 0x1000 % 0x40, 0x80 + c / 0x40 % 0x40, 0x80 + c % 0x40]
  }

  function Encode(text: seq<Scalar>): seq<byte> {
    if text == [] then [] else EncodeOne(text[0]) + Encode(text[1..])
  }

  /** The grammar's alternatives, by lead byte and the range it leaves the second byte. */
  predicate Starts2(b: seq<byte>) {
    |b| >= 2 && 0xC2 <= b[0] <= 0xDF && Tail(b[1])
  }

  predicate Starts3(b: seq<byte>) {
    && |b| >= 3 && Tail(b[2])
    && (|| (b[0] == 0xE0 && 0xA0 <= b[1] <= 0xBF)
        || ((0xE1 <= b[0] <= 0xEC || b[0] == 0xEE || b[0] == 0xEF) && Tail(b[1]))
        || (b[0] == 0xED && 0x80 <= b[1] <= 0x9F))
  }

  predicate Starts4(b: seq<byte>) {
    && |b| >= 4 && Tail(b[2]) && Tail(b[3])
    && (|| (b[0] == 0xF0 && 0x90 <= b[1] <= 0xBF)
        || (0xF1 <= b[0] <= 0xF3 && Tail(b[1]))
        || (b[0] == 0xF4 && 0x80 <= b[1] <= 0x8F))
  }

  function DecodeOne(b: seq<byte>): (c: Option<Scalar>)
    ensures c.Some? ==> Width(c.value) <= |b|
  {
    if |b| >= 1 && b[0] < 0x80 then Some(b[0] as int)
    else if Starts2(b) then Some((b[0] as int - 0xC0) * 0x40 + (b[1] as int - 0x80))
    else if Starts3(b) then
      Some((b[0] as int - 0xE0) * 0x1000 + (b[1] as int - 0x80) * 0x40 + (b[2] as int - 0x80))
    else if Starts4(b) then
      Some((b[0] as int - 0xF0) * 0x4_0000 + (b[1] as int - 0x80) * 0x1000
           + (b[2] as int - 0x80) * 0x40 + (b[3] as int - 0x80))
    else None
  }

  /** `String::from_utf8`: the text, or None if the bytes are not in the grammar. */
  function Decode(b: seq<byte>): Option<seq<Scalar>>
    decreases |b|
  {
    if b == [] then Some([])
    else
      match DecodeOne(b)
      case None => None
      case Some(c) =>
        match Decode(b[Width(c)..])
        case None => None
        case Some(rest) => Some([c] + rest)
  }

  lemma DecodeEncodeOne(c: Scalar, rest: seq<byte>)
    ensures DecodeOne(EncodeOne(c) + rest) == Some(c)
  {
    var b := EncodeOne(c) + rest;
    if 0x800 <= c < 0x1_0000 {
      assert c / 0x40 / 0x40 == c / 0x1000;
      assert Starts3(b);
    } else if c >= 0x1_0000 {
      assert c / 0x40 / 0x40 == c / 0x1000 && c / 0x1000 / 0x40 == c / 0x4_0000;
      assert Starts4(b);
    }
  }

  lemma EncodeDecode3(b: seq<byte>)
    requires Starts3(b)
    ensures DecodeOne(b).Some? && EncodeOne(DecodeOne(b).value) == b[..3]
  {
    var c := DecodeOne(b).value;
    assert c / 0x40 == (b[0] as int - 0xE0) * 0x40 + (b[1] as int - 0x80);
    assert c / 0x1000 == b[0] as int - 0xE0;
  }

  lemma Sextets4(a: int, i: int, j: int, k: int)
    requires 0 <= i < 0x40 && 0 <= j < 0x40 && 0 <= k < 0x40
    ensures var c := a * 0x4_0000 + i * 0x1000 + j * 0x40 + k;
            && c / 0x40 == a * 0x1000 + i * 0x40 + j && c / 0x1000 == a * 0x40 + i && c / 0x4_0000 == a
            && c / 0x1000 % 0x40 == i && c / 0x40 % 0x40 == j && c % 0x40 == k
  {
  }

  lemma EncodeDecode4(b: seq<byte>)
    requires Starts4(b)
    ensures DecodeOne(b).Some? && EncodeOne(DecodeOne(b).value) == b[..4]
  {
    Sextets4(b[0] as int - 0xF0, b[1] as int - 0x80, b[2] as int - 0x80, b[3] as int - 0x80);
  }

  lemma EncodeDecode12(b: seq<byte>)
    requires DecodeOne(b).Some? && !Starts3(b) && !Starts4(b)
    ensures EncodeOne(DecodeOne(b).value) == b[..Width(DecodeOne(b).value)]
  {
  }

  lemma EncodeDecodeOne(b: seq<byte>)
    requires DecodeOne(b).Some?
    ensures EncodeOne(DecodeOne(b).value) == b[..Width(DecodeOne(b).value)]
  {
    hide DecodeOne, EncodeOne, Width;
    if Starts3(b) {
      EncodeDecode3(b);
    } else if Starts4(b) {
      EncodeDecode4(b);
    } else {
      EncodeDecode12(b);
    }
  }

  /** Every text is read back from its encoding. */
  lemma {:induction false} DecodeEncode(text: seq<Scalar>)
    ensures Decode(Encode(text)) == Some(text)
  {
    hide DecodeOne, EncodeOne, Width;
    if text != [] {
      DecodeEncode(text[1..]);
      DecodeEncodeOne(text[0], Encode(text[1..]));
      assert Encode(text)[Width(text[0])..] == Encode(text[1..]);
      assert text == [text[0]] + text[1..];
    }
  }

  /** Valid bytes are the encoding of the text they decode to, so no two byte strings share one. */
  lemma {:induction false} EncodeDecode(b: seq<byte>)
    requires Decode(b).Some?
    ensures Encode(Decode(b).value) == b
    decreases |b|
  {
    hide DecodeOne, EncodeOne, Width;
    if b != [] {
      var n := Width(DecodeOne(b).value);
      EncodeDecodeOne(b);
      EncodeDecode(b[n..]);
      assert b == b[..n] + b[n..];
    }
  }
}
