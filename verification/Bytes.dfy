/** Machine integers, byte strings and the error type shared by every part of the model. */
module Bytes {

  type byte = b: int | 0 <= b < 0x100
  type u16 = v: int | 0 <= v < 0x1_0000
  type u32 = v: int | 0 <= v < 0x1_0000_0000
  type u64 = v: int | 0 <= v < 0x1_0000_0000_0000_0000
  const U32_MAX: u32 := 0xFFFF_FFFF
  const U64_MAX: u64 := 0xFFFF_FFFF_FFFF_FFFF

  type i16 = v: int | -0x8000 <= v < 0x8000
  type i32 = v: int | -0x8000_0000 <= v < 0x8000_0000

  datatype Option<+T> = None | Some(value: T)

  datatype Result<+T> = Ok(value: T) | Err(error: Error)

  /** The error kinds that the modelled code can return. A failed transport call carries the
      number of that call, so two failures of one run are distinguishable. */
  datatype Error =
    | WriteFailed(call: nat)
    | FlushFailed(call: nat)
    | ControlMessageTooLarge
    | NameTooLong
    | ReportDescTooLong
    | ScancodeOutOfRange
    | SessionClosed
    | KeyboardNotOpen
    | MouseNotOpen
    | GamepadNotOpen
    | RawReportEmpty
    | UnsupportedChar
    | ChannelFull
    | DispatcherDown
    | PointerIdOutOfRange(id: nat)
    | PointerNotActive(id: nat)
    | PointerAlreadyDown(id: nat)

  // Byte order ---------------------------------------------------------------------------

  function U16Be(v: u16): (r: seq<byte>)
    ensures |r| == 2
  {
    [v / 0x100, v % 0x100]
  }

  function U16Le(v: u16): (r: seq<byte>)
    ensures |r| == 2
  {
    [v % 0x100, v / 0x100]
  }

  function U32Be(v: u32): (r: seq<byte>)
    ensures |r| == 4
  {
    [v / 0x100_0000, v / 0x1_0000 % 0x100, v / 0x100 % 0x100, v % 0x100]
  }

  function U64Be(v: u64): (r: seq<byte>)
    ensures |r| == 8
  {
    U32Be(v / 0x1_0000_0000) + U32Be(v % 0x1_0000_0000)
  }

  function ReadU16Be(b: seq<byte>): u16
    requires |b| == 2
  {
    b[0] as int * 0x100 + b[1] as int
  }

  function ReadU16Le(b: seq<byte>): u16
    requires |b| == 2
  {
    b[1] as int * 0x100 + b[0] as int
  }

  function ReadU32Be(b: seq<byte>): u32
    requires |b| == 4
  {
    b[0] as int * 0x100_0000 + b[1] as int * 0x1_0000 + b[2] as int * 0x100 + b[3] as int
  }

  function ReadU64Be(b: seq<byte>): u64
    requires |b| == 8
  {
    ReadU32Be(b[..4]) * 0x1_0000_0000 + ReadU32Be(b[4..])
  }

  /** Rust's `as u32` on an `i32`: two's complement. */
  function I32Bits(v: i32): u32 {
    if v < 0 then v + 0x1_0000_0000 else v
  }

  function I32FromBits(v: u32): i32 {
    if v >= 0x8000_0000 then v - 0x1_0000_0000 else v
  }

  lemma U32RoundTrip(v: u32)
    ensures ReadU32Be(U32Be(v)) == v
  {
    var hi, lo := v / 0x1_0000, v % 0x1_0000;
    assert v / 0x100_0000 == hi / 0x100 && v / 0x100 % 0x100 == lo / 0x100 && v % 0x100 == lo % 0x100;
  }

  lemma U64RoundTrip(v: u64)
    ensures ReadU64Be(U64Be(v)) == v
  {
    var b := U64Be(v);
    assert b[..4] == U32Be(v / 0x1_0000_0000) && b[4..] == U32Be(v % 0x1_0000_0000);
    U32RoundTrip(v / 0x1_0000_0000);
    U32RoundTrip(v % 0x1_0000_0000);
  }

  lemma U32FromBytes(b: seq<byte>)
    requires |b| == 4
    ensures U32Be(ReadU32Be(b)) == b
  {
    var v := ReadU32Be(b);
    assert v / 0x1_0000 == b[0] as int * 0x100 + b[1] as int;
    assert v / 0x100 == b[0] as int * 0x1_0000 + b[1] as int * 0x100 + b[2] as int;
  }

  lemma U64FromBytes(b: seq<byte>)
    requires |b| == 8
    ensures U64Be(ReadU64Be(b)) == b
  {
    var hi, lo := ReadU32Be(b[..4]), ReadU32Be(b[4..]);
    var v: u64 := hi as int * 0x1_0000_0000 + lo as int;
    assert v / 0x1_0000_0000 == hi && v % 0x1_0000_0000 == lo;
    assert U64Be(v) == b by {
      U32FromBytes(b[..4]);
      U32FromBytes(b[4..]);
      assert b == b[..4] + b[4..];
    }
  }

  // Concatenation ------------------------------------------------------------------------

  function Concat(parts: seq<seq<byte>>): seq<byte> {
    if parts == [] then [] else parts[0] + Concat(parts[1..])
  }

  lemma {:induction false} ConcatAppend(a: seq<seq<byte>>, b: seq<seq<byte>>)
    ensures Concat(a + b) == Concat(a) + Concat(b)
  {
    if a == [] {
      assert a + b == b;
    } else {
      ConcatAppend(a[1..], b);
      assert (a + b)[0] == a[0] && (a + b)[1..] == a[1..] + b;
    }
  }

  lemma ConcatSnoc(a: seq<seq<byte>>, x: seq<byte>)
    ensures Concat(a + [x]) == Concat(a) + x
  {
    ConcatAppend(a, [x]);
    assert Concat([x]) == x + Concat([x][1..]);
  }

  lemma {:induction false} ConcatLength(parts: seq<seq<byte>>, n: nat)
    requires forall i :: 0 <= i < |parts| ==> |parts[i]| == n
    ensures |Concat(parts)| == |parts| * n
  {
    if parts != [] {
      ConcatLength(parts[1..], n);
    }
  }
}
