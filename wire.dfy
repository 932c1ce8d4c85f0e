/** The primitive field readers of a game-server packet, with the inverse
    writers that give them meaning.

    The readers of the packet base class are not part of this model; these
    are written to the following encoding, which the rest of the model
    assumes: integers are little-endian two's complement; `readByte`
    yields a signed byte; `readBoolean` is "the next byte is not 0";
    `readShort` and `readInt` yield signed 16- and 32-bit values;
    `readString` reads UTF-16LE code units up to a 0 unit; `readSizedString`
    reads a signed 16-bit count of code units and then that many units.
    Every reader consumes a prefix of the unread buffer and fails with
    `BufferUnderflow` rather than reading past its end. */
module Wire {
  import opened Common

  type byte = x: int | 0 <= x < 0x100
  type CodeUnit = x: int | 0 <= x < 0x1_0000
  type Utf16 = seq<CodeUnit>

  /** The Java exceptions a read can raise. */
  datatype ReadError = BufferUnderflow | NegativeArraySize

  /** A value read, with the part of the buffer that is still unread. */
  type Reading<T> = Result<(T, seq<byte>), ReadError>

  predicate NoNul(t: Utf16) {
    forall k | 0 <= k < |t| :: t[k] != 0
  }

  // ---- bytes and booleans -------------------------------------------------

  function Signed8(b: byte): int {
    if b < 0x80 then b else b - 0x100
  }

  function ReadByte(s: seq<byte>): (r: Reading<int>)
    ensures r.Success? <==> |s| >= 1
    ensures r.Success? ==> -0x80 <= r.value.0 < 0x80 && r.value.1 == s[1..]
  {
    if |s| < 1 then Failure(BufferUnderflow) else Success((Signed8(s[0]), s[1..]))
  }

  function EncodeByte(v: int): (e: seq<byte>)
    requires -0x80 <= v < 0x80
  {
    [if v < 0 then v + 0x100 else v]
  }

  function ReadBoolean(s: seq<byte>): (r: Reading<bool>)
    ensures r.Success? <==> |s| >= 1
    ensures r.Success? ==> r.value.0 == (s[0] != 0) && r.value.1 == s[1..]
  {
    if |s| < 1 then Failure(BufferUnderflow) else Success((s[0] != 0, s[1..]))
  }

  function EncodeBoolean(b: bool): seq<byte> {
    [if b then 1 else 0]
  }

  // ---- 16- and 32-bit integers --------------------------------------------

  function ReadShort(s: seq<byte>): (r: Reading<int>)
    ensures r.Success? <==> |s| >= 2
    ensures r.Success? ==> -0x8000 <= r.value.0 < 0x8000 && r.value.1 == s[2..]
  {
    if |s| < 2 then Failure(BufferUnderflow)
    else
      var u := s[0] as int + 0x100 * s[1] as int;
      Success((if u < 0x8000 then u else u - 0x1_0000, s[2..]))
  }

  function EncodeShort(v: int): (e: seq<byte>)
    requires -0x8000 <= v < 0x8000
    ensures |e| == 2
  {
    var u := if v < 0 then v + 0x1_0000 else v;
    [u % 0x100, u / 0x100]
  }

  function ReadInt(s: seq<byte>): (r: Reading<int>)
    ensures r.Success? <==> |s| >= 4
    ensures r.Success? ==> IsInt32(r.value.0) && r.value.1 == s[4..]
  {
    if |s| < 4 then Failure(BufferUnderflow)
    else
      var u := s[0] as int + 0x100 * (s[1] as int + 0x100 * (s[2] as int + 0x100 * s[3] as int));
      Success((if u < 0x8000_0000 then u else u - 0x1_0000_0000, s[4..]))
  }

  function EncodeInt(v: int): (e: seq<byte>)
    requires IsInt32(v)
    ensures |e| == 4
  {
    var u := if v < 0 then v + 0x1_0000_0000 else v;
    var u1 := u / 0x100;
    var u2 := u1 / 0x100;
    [u % 0x100, u1 % 0x100, u2 % 0x100, u2 / 0x100]
  }

  // ---- strings --------------------------------------------------------------

  function EncodeUnits(t: Utf16): (e: seq<byte>)
    ensures |e| == 2 * |t|
  {
    if t == [] then [] else [t[0] % 0x100, t[0] / 0x100] + EncodeUnits(t[1..])
  }

  /** `readString`: code units up to (and consuming) the terminating 0 unit. */
  function ReadString(s: seq<byte>): (r: Reading<Utf16>)
    ensures r.Success? ==> NoNul(r.value.0) && |r.value.1| <= |s| - 2
    decreases |s|
  {
    if |s| < 2 then Failure(BufferUnderflow)
    else
      var c: CodeUnit := s[0] as int + 0x100 * s[1] as int;
      if c == 0 then Success(([], s[2..]))
      else
        var t :- ReadString(s[2..]);
        Success(([c] + t.0, t.1))
  }

  function EncodeString(t: Utf16): seq<byte>
    requires NoNul(t)
  {
    EncodeUnits(t) + [0, 0]
  }

  /** Exactly `n` code units. */
  function ReadUnits(s: seq<byte>, n: nat): (r: Reading<Utf16>)
    ensures r.Success? ==> |r.value.0| == n && |r.value.1| == |s| - 2 * n
  {
    if n == 0 then Success(([], s))
    else if |s| < 2 then Failure(BufferUnderflow)
    else
      var c: CodeUnit := s[0] as int + 0x100 * s[1] as int;
      var t :- ReadUnits(s[2..], n - 1);
      Success(([c] + t.0, t.1))
  }

  /** `readSizedString`: a signed 16-bit unit count, then that many units. */
  function ReadSizedString(s: seq<byte>): (r: Reading<Utf16>)
    ensures r.Success? ==> |r.value.0| < 0x8000 && |r.value.1| <= |s| - 2
  {
    var n :- ReadShort(s);
    if n.0 < 0 then Failure(NegativeArraySize) else ReadUnits(n.1, n.0)
  }

  function EncodeSizedString(t: Utf16): seq<byte>
    requires |t| < 0x8000
  {
    EncodeShort(|t|) + EncodeUnits(t)
  }

  // ---- round trips: every reader undoes its writer, whatever follows --------

  lemma ReadByteEncode(v: int, rest: seq<byte>)
    requires -0x80 <= v < 0x80
    ensures ReadByte(EncodeByte(v) + rest) == Success((v, rest))
  {
    assert (EncodeByte(v) + rest)[1..] == rest;
  }

  lemma ReadBooleanEncode(b: bool, rest: seq<byte>)
    ensures ReadBoolean(EncodeBoolean(b) + rest) == Success((b, rest))
  {
    assert (EncodeBoolean(b) + rest)[1..] == rest;
  }

  lemma ReadShortEncode(v: int, rest: seq<byte>)
    requires -0x8000 <= v < 0x8000
    ensures ReadShort(EncodeShort(v) + rest) == Success((v, rest))
  {
    assert (EncodeShort(v) + rest)[2..] == rest;
  }

  lemma ReadIntEncode(v: int, rest: seq<byte>)
    requires IsInt32(v)
    ensures ReadInt(EncodeInt(v) + rest) == Success((v, rest))
  {
    var s := EncodeInt(v) + rest;
    assert s[4..] == rest;
    var u := if v < 0 then v + 0x1_0000_0000 else v;
    var u1 := u / 0x100;
    var u2 := u1 / 0x100;
    assert s[2] + 0x100 * s[3] == u2;
    assert s[1] + 0x100 * u2 == u1;
    assert s[0] + 0x100 * u1 == u;
  }

  lemma {:induction false} ReadStringEncode(t: Utf16, rest: seq<byte>)
    requires NoNul(t)
    ensures ReadString(EncodeString(t) + rest) == Success((t, rest))
  {
    var s := EncodeString(t) + rest;
    if t == [] {
      assert s[2..] == rest;
    } else {
      assert NoNul(t[1..]);
      assert s == [t[0] % 0x100, t[0] / 0x100] + (EncodeString(t[1..]) + rest);
      assert s[2..] == EncodeString(t[1..]) + rest;
      ReadStringEncode(t[1..], rest);
      assert [t[0]] + t[1..] == t;
    }
  }

  lemma {:induction false} ReadUnitsEncode(t: Utf16, rest: seq<byte>)
    ensures ReadUnits(EncodeUnits(t) + rest, |t|) == Success((t, rest))
  {
    var s := EncodeUnits(t) + rest;
    if t == [] {
      assert s == rest;
    } else {
      assert s == [t[0] % 0x100, t[0] / 0x100] + (EncodeUnits(t[1..]) + rest);
      assert s[2..] == EncodeUnits(t[1..]) + rest;
      assert s[0] as int + 0x100 * s[1] as int == t[0];
      ReadUnitsEncode(t[1..], rest);
      assert [t[0]] + t[1..] == t;
    }
  }

  lemma ReadSizedStringEncode(t: Utf16, rest: seq<byte>)
    requires |t| < 0x8000
    ensures ReadSizedString(EncodeSizedString(t) + rest) == Success((t, rest))
  {
    assert EncodeSizedString(t) + rest == EncodeShort(|t|) + (EncodeUnits(t) + rest);
    ReadShortEncode(|t|, EncodeUnits(t) + rest);
    ReadUnitsEncode(t, rest);
  }
}
