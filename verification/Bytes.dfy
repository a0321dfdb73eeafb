// Big-endian integers and strings as QDataStream writes and reads them.

module Bytes {
  type byte = x: int | 0 <= x < 0x100
  type u16 = x: int | 0 <= x < 0x1_0000
  type u32 = x: int | 0 <= x < 0x1_0000_0000
  type u64 = x: int | 0 <= x < 0x1_0000_0000_0000_0000
  type i32 = x: int | -0x8000_0000 <= x < 0x8000_0000

  function Pow256(width: nat): (p: nat)
    ensures p > 0
  {
    if width == 0 then 1 else 256 * Pow256(width - 1)
  }

  function Be(n: nat, width: nat): (r: seq<byte>)
    ensures |r| == width
  {
    if width == 0 then [] else Be(n / 256, width - 1) + [n % 256]
  }

  /** Four bytes, the most significant first. */
  lemma FourBytes(n: nat)
    ensures Be(n, 4) == [n / 0x100 / 0x100 / 0x100 % 0x100, n / 0x100 / 0x100 % 0x100, n / 0x100 % 0x100, n % 0x100]
  {
    var a := n / 0x100;
    var b := a / 0x100;
    var c := b / 0x100;
    assert Be(c, 1) == Be(c / 0x100, 0) + [c % 0x100] == [c % 0x100];
    assert Be(b, 2) == Be(c, 1) + [b % 0x100];
    assert Be(a, 3) == Be(b, 2) + [a % 0x100];
    assert Be(n, 4) == Be(a, 3) + [n % 0x100];
  }

  function FromBe(b: seq<byte>): (n: nat)
    ensures n < Pow256(|b|)
  {
    if b == [] then 0 else 256 * FromBe(b[..|b| - 1]) + b[|b| - 1]
  }

  lemma {:induction false} BeRoundTrip(n: nat, width: nat)
    requires n < Pow256(width)
    ensures FromBe(Be(n, width)) == n
  {
    if width > 0 {
      BeRoundTrip(n / 256, width - 1);
      assert Be(n, width)[..width - 1] == Be(n / 256, width - 1);
    }
  }

  lemma Widths()
    ensures Pow256(1) == 0x100 && Pow256(2) == 0x1_0000
    ensures Pow256(4) == 0x1_0000_0000 && Pow256(8) == 0x1_0000_0000_0000_0000
  {
    assert Pow256(3) == 0x100_0000;
    assert Pow256(5) == 0x100_0000_0000;
    assert Pow256(6) == 0x1_0000_0000_0000;
    assert Pow256(7) == 0x100_0000_0000_0000;
  }

  // ---- two's complement ----

  function ToUnsigned(i: i32): u32 { if i < 0 then i + 0x1_0000_0000 else i }

  function ToSigned(u: u32): i32 { if u < 0x8000_0000 then u else u - 0x1_0000_0000 }

  // ---- reading from the front of what is left ----

  /** A short read consumes what is there and yields zero. */
  function GetUInt(rest: seq<byte>, width: nat): (r: (nat, seq<byte>))
    ensures r.0 < Pow256(width)
  {
    if |rest| < width then (0, []) else (FromBe(rest[..width]), rest[width..])
  }

  function GetU32(rest: seq<byte>): (u32, seq<byte>) {
    Widths(); GetUInt(rest, 4)
  }

  function GetU64(rest: seq<byte>): (u64, seq<byte>) {
    Widths(); GetUInt(rest, 8)
  }

  function GetI32(rest: seq<byte>): (i32, seq<byte>) {
    var (u, tail) := GetU32(rest); (ToSigned(u), tail)
  }

  function PutI32(i: i32): seq<byte> { Be(ToUnsigned(i), 4) }

  lemma GetPut(n: nat, width: nat, tail: seq<byte>)
    requires n < Pow256(width)
    ensures GetUInt(Be(n, width) + tail, width) == (n, tail)
  {
    BeRoundTrip(n, width);
    assert (Be(n, width) + tail)[..width] == Be(n, width);
    assert (Be(n, width) + tail)[width..] == tail;
  }

  lemma GetPutU32(n: u32, tail: seq<byte>)
    ensures GetU32(Be(n, 4) + tail) == (n, tail)
  {
    Widths();
    GetPut(n, 4, tail);
  }

  lemma GetPutU64(n: u64, tail: seq<byte>)
    ensures GetU64(Be(n, 8) + tail) == (n, tail)
  {
    Widths();
    GetPut(n, 8, tail);
  }

  lemma GetPutI32(i: i32, tail: seq<byte>)
    ensures GetI32(PutI32(i) + tail) == (i, tail)
  {
    GetPutU32(ToUnsigned(i), tail);
  }

  // ---- QString ----

  /** UTF-16 code units; a null string is a value of its own on the wire. */
  datatype QString = NullString | Text(units: seq<u16>)

  const NULL_LENGTH := 0xFFFF_FFFF

  /** The byte length of the string fits the 32-bit length field. */
  predicate Sendable(s: QString) { s.Text? ==> 2 * |s.units| < NULL_LENGTH }

  function PutU16(u: u16): (b: seq<byte>)
    ensures |b| == 2
  {
    [u / 256, u % 256]
  }

  function GetU16(b: seq<byte>): u16
    requires |b| == 2
  {
    var high: int := b[0];
    256 * high + b[1]
  }

  function PutUnits(units: seq<u16>): (r: seq<byte>)
    ensures |r| == 2 * |units|
  {
    if units == [] then [] else PutU16(units[0]) + PutUnits(units[1..])
  }

  function GetUnits(b: seq<byte>): (r: seq<u16>)
    decreases |b|
  {
    if |b| < 2 then [] else [GetU16(b[..2])] + GetUnits(b[2..])
  }

  function PutString(s: QString): seq<byte>
    requires Sendable(s)
  {
    match s
    case NullString => Be(NULL_LENGTH, 4)
    case Text(units) => Be(2 * |units|, 4) + PutUnits(units)
  }

  function GetString(rest: seq<byte>): (QString, seq<byte>) {
    var (n, tail) := GetU32(rest);
    if n == NULL_LENGTH then (NullString, tail)
    else if n == 0 then (Text([]), tail)
    else if n % 2 == 1 then (NullString, tail)
    else if |tail| < n then (NullString, [])
    else (Text(GetUnits(tail[..n])), tail[n..])
  }

  lemma {:induction false} UnitsRoundTrip(units: seq<u16>)
    ensures GetUnits(PutUnits(units)) == units
  {
    if units != [] {
      var b := PutUnits(units);
      assert b[..2] == PutU16(units[0]) && b[2..] == PutUnits(units[1..]);
      UnitsRoundTrip(units[1..]);
    }
  }

  lemma GetPutString(s: QString, tail: seq<byte>)
    requires Sendable(s)
    ensures GetString(PutString(s) + tail) == (s, tail)
  {
    match s
    case NullString => GetPutU32(NULL_LENGTH, tail);
    case Text(units) =>
      var body := PutUnits(units);
      GetPutU32(2 * |units|, body + tail);
      assert PutString(s) + tail == Be(2 * |units|, 4) + (body + tail);
      assert (body + tail)[..2 * |units|] == body && (body + tail)[2 * |units|..] == tail;
      UnitsRoundTrip(units);
  }

  /** A length that is odd, or beyond what is there, leaves a null string. */
  lemma BrokenString(n: u32, tail: seq<byte>)
    requires n != NULL_LENGTH && (n % 2 == 1 || n > |tail|)
    ensures GetString(Be(n, 4) + tail) == (NullString, if n % 2 == 1 then tail else [])
  {
    GetPutU32(n, tail);
  }

  // ---- QDateTime, as stored by stream version 5.0 ----

  /** Julian day and milliseconds in UTC, and the time specification. */
  datatype DateTime = DateTime(day: u64, msecs: u32, spec: byte)

  function PutDate(d: DateTime): seq<byte> { Be(d.day, 8) + (Be(d.msecs, 4) + Be(d.spec, 1)) }

  function GetDate(rest: seq<byte>): (DateTime, seq<byte>) {
    Widths();
    var (day, a) := GetU64(rest);
    var (msecs, b) := GetU32(a);
    var (spec, c) := GetUInt(b, 1);
    (DateTime(day, msecs, spec), c)
  }

  lemma GetPutDate(d: DateTime, tail: seq<byte>)
    ensures GetDate(PutDate(d) + tail) == (d, tail)
  {
    Widths();
    var c := Be(d.spec, 1) + tail;
    var b := Be(d.msecs, 4) + c;
    assert PutDate(d) + tail == Be(d.day, 8) + b;
    GetPutU64(d.day, b);
    GetPutU32(d.msecs, c);
    GetPut(d.spec, 1, tail);
  }

  // ---- the stream object ----

  /** QDataStream over a byte array: writes append, reads move the cursor. */
  class DataStream {
    var data: seq<byte>
    var pos: nat

    ghost predicate Valid()
      reads this
    {
      pos <= |data|
    }

    ghost function Rest(): seq<byte>
      requires Valid()
      reads this
    {
      data[pos..]
    }

    constructor (input: seq<byte>)
      ensures Valid() && data == input && Rest() == input
    {
      data, pos := input, 0;
    }

    method WriteRaw(b: seq<byte>)
      modifies this`data
      ensures data == old(data) + b
    {
      data := data + b;
    }

    method WriteU32(n: u32)
      modifies this`data
      ensures data == old(data) + Be(n, 4)
    {
      data := data + Be(n, 4);
    }

    method WriteU64(n: u64)
      modifies this`data
      ensures data == old(data) + Be(n, 8)
    {
      data := data + Be(n, 8);
    }

    method WriteI32(i: i32)
      modifies this`data
      ensures data == old(data) + PutI32(i)
    {
      WriteU32(ToUnsigned(i));
    }

    method WriteString(s: QString)
      requires Sendable(s)
      modifies this`data
      ensures data == old(data) + PutString(s)
    {
      match s {
        case NullString =>
          WriteU32(NULL_LENGTH);
        case Text(units) =>
          WriteU32(2 * |units|);
          data := data + PutUnits(units);
      }
    }

    method WriteDate(d: DateTime)
      modifies this`data
      ensures data == old(data) + PutDate(d)
    {
      WriteU64(d.day);
      WriteU32(d.msecs);
      data := data + Be(d.spec, 1);
    }

    method ReadBytes(n: nat) returns (b: seq<byte>)
      requires Valid()
      modifies this`pos
      ensures Valid() && b + Rest() == old(Rest())
      ensures |b| == if n <= |old(Rest())| then n else |old(Rest())|
    {
      var stop := if pos + n <= |data| then pos + n else |data|;
      b := data[pos..stop];
      pos := stop;
    }

    method ReadUInt(width: nat) returns (n: nat)
      requires Valid()
      modifies this`pos
      ensures Valid() && (n, Rest()) == GetUInt(old(Rest()), width)
    {
      ghost var before := Rest();
      var b := ReadBytes(width);
      n := if |b| < width then 0 else FromBe(b);
      assert |b| == width ==> before[..width] == b && before[width..] == Rest();
    }

    method ReadU32() returns (n: u32)
      requires Valid()
      modifies this`pos
      ensures Valid() && (n, Rest()) == GetU32(old(Rest()))
    {
      Widths();
      n := ReadUInt(4);
    }

    method ReadU64() returns (n: u64)
      requires Valid()
      modifies this`pos
      ensures Valid() && (n, Rest()) == GetU64(old(Rest()))
    {
      Widths();
      n := ReadUInt(8);
    }

    method ReadI32() returns (i: i32)
      requires Valid()
      modifies this`pos
      ensures Valid() && (i, Rest()) == GetI32(old(Rest()))
    {
      var u := ReadU32();
      i := ToSigned(u);
    }

    method ReadString() returns (s: QString)
      requires Valid()
      modifies this`pos
      ensures Valid() && (s, Rest()) == GetString(old(Rest()))
    {
      var n := ReadU32();
      if n == NULL_LENGTH {
        return NullString;
      }
      if n == 0 {
        return Text([]);
      }
      if n % 2 == 1 {
        return NullString;
      }
      ghost var tail := Rest();
      var b := ReadBytes(n);
      if |b| < n {
        return NullString;
      }
      assert tail[..n] == b && tail[n..] == Rest();
      s := Text(GetUnits(b));
    }

    method ReadDate() returns (d: DateTime)
      requires Valid()
      modifies this`pos
      ensures Valid() && (d, Rest()) == GetDate(old(Rest()))
    {
      Widths();
      var day := ReadU64();
      var msecs := ReadU32();
      var spec := ReadUInt(1);
      d := DateTime(day, msecs, spec);
    }
  }
}
