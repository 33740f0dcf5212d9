/** Base 128 varints as Go's encoding/binary reads and writes them for a uint64. */
module Varint {
  type Byte = x: int | 0 <= x < 256

  type Bytes = seq<Byte>

  const UINT64_LIMIT: nat := 0x1_0000_0000_0000_0000

  /** What reading a varint yields: the value with the number of bytes it took, or one of the two failures. */
  datatype Read = Done(value: nat, width: nat) | Short | Overflow

  // ----- Specification -----

  function Put(x: nat): (b: Bytes)
    ensures |b| >= 1
  {
    if x < 128 then [x] else [x % 128 + 128] + Put(x / 128)
  }

  /** Reads a varint whose first `i` bytes have already been consumed; the value counts from byte `i` on. */
  function GetFrom(b: Bytes, i: nat): (r: Read)
    ensures r.Done? ==> 1 <= r.width <= |b|
  {
    if b == [] then Short
    else if i >= 10 then Overflow
    else if b[0] < 128 then (if i == 9 && b[0] > 1 then Overflow else Done(b[0], 1))
    else
      match GetFrom(b[1..], i + 1)
      case Done(v, w) => Done(b[0] - 128 + 128 * v, w + 1)
      case Short => Short
      case Overflow => Overflow
  }

  function Get(b: Bytes): (r: Read)
    ensures r.Done? ==> 1 <= r.width <= |b|
  {
    GetFrom(b, 0)
  }

  /** Exclusive bound on the value that may still follow once `i` bytes are consumed: 2^(64-7i). */
  function Room(i: nat): (r: nat)
    requires i <= 9
    ensures r > 0
    decreases 9 - i
  {
    if i == 9 then 2 else 128 * Room(i + 1)
  }

  // ----- The loops of the source -----

  method Append(b: Bytes, value: nat) returns (r: Bytes)
    ensures r == b + Put(value)
  {
    var x := value;
    r := b;
    while x >= 128
      invariant r + Put(x) == b + Put(value)
    {
      assert Put(x) == [x % 128 + 128] + Put(x / 128);
      assert r + ([x % 128 + 128] + Put(x / 128)) == (r + [x % 128 + 128]) + Put(x / 128);
      r := r + [x % 128 + 128];
      x := x / 128;
    }
    r := r + [x];
  }

  function Pow128(i: nat): (r: nat)
    ensures r > 0
  {
    if i == 0 then 1 else 128 * Pow128(i - 1)
  }

  /** What the whole read yields when its first `i` bytes gave `acc` and the rest reads as given. */
  function Resume(acc: nat, i: nat, rest: Read): Read {
    match rest
    case Done(v, w) => Done(acc + Pow128(i) * v, i + w)
    case Short => Short
    case Overflow => Overflow
  }

  /** Puts a continuation byte's seven bits in front of what follows it. */
  function Prefixed(digit: nat, rest: Read): Read {
    match rest
    case Done(v, w) => Done(digit + 128 * v, w + 1)
    case Short => Short
    case Overflow => Overflow
  }

  lemma ResumeStep(acc: nat, i: nat, digit: nat, rest: Read)
    ensures digit * Pow128(i) >= 0
    ensures Resume(acc + digit * Pow128(i), i + 1, rest) == Resume(acc, i, Prefixed(digit, rest))
  {
    match rest
    case Done(v, w) =>
      assert Pow128(i + 1) == 128 * Pow128(i);
      assert Pow128(i) * (digit + 128 * v) == digit * Pow128(i) + 128 * Pow128(i) * v;
    case Short =>
    case Overflow =>
  }

  lemma GetFromStep(b: Bytes, i: nat)
    requires i < |b|
    ensures GetFrom(b[i..], i) ==
            if i >= 10 then Overflow
            else if b[i] < 128 then (if i == 9 && b[i] > 1 then Overflow else Done(b[i], 1))
            else Prefixed(b[i] - 128, GetFrom(b[i + 1..], i + 1))
  {
    assert b[i..][1..] == b[i + 1..];
  }

  method Uvarint(b: Bytes) returns (r: Read)
    ensures r == Get(b)
  {
    var x: nat, i: nat := 0, 0;
    assert b[0..] == b;
    while i < |b|
      invariant i <= |b|
      invariant Resume(x, i, GetFrom(b[i..], i)) == Get(b)
    {
      GetFromStep(b, i);
      if i >= 10 {
        return Overflow;
      }
      if b[i] < 128 {
        if i == 9 && b[i] > 1 {
          return Overflow;
        }
        return Done(x + Pow128(i) * b[i], i + 1);
      }
      var digit: nat := b[i] - 128;
      ResumeStep(x, i, digit, GetFrom(b[i + 1..], i + 1));
      x := x + digit * Pow128(i);
      i := i + 1;
    }
    return Short;
  }

  // ----- Laws -----

  lemma {:induction false} GetPut(x: nat, i: nat, rest: Bytes)
    requires i <= 9 && x < Room(i)
    ensures GetFrom(Put(x) + rest, i) == Done(x, |Put(x)|)
  {
    if x >= 128 {
      assert i < 9;
      GetPut(x / 128, i + 1, rest);
      assert (Put(x) + rest)[1..] == Put(x / 128) + rest;
    }
  }

  /** Reading back a written uint64 gives it again, whatever follows it. */
  lemma RoundTrip(x: nat, rest: Bytes)
    requires x < UINT64_LIMIT
    ensures Get(Put(x) + rest) == Done(x, |Put(x)|)
  {
    RoomIs64();
    GetPut(x, 0, rest);
  }

  lemma RoomIs64()
    ensures Room(0) == UINT64_LIMIT
  {
    assert Room(9) == 2;
    assert Room(8) == 0x100;
    assert Room(7) == 0x8000;
    assert Room(6) == 0x40_0000;
    assert Room(5) == 0x2000_0000;
    assert Room(4) == 0x10_0000_0000;
    assert Room(3) == 0x800_0000_0000;
    assert Room(2) == 0x4_0000_0000_0000;
    assert Room(1) == 0x200_0000_0000_0000;
  }

  lemma {:induction false} GetFromBounds(b: Bytes, i: nat)
    requires i <= 9 && GetFrom(b, i).Done?
    ensures GetFrom(b, i).value < Room(i)
    ensures |Put(GetFrom(b, i).value)| <= GetFrom(b, i).width
    ensures |Put(GetFrom(b, i).value)| == GetFrom(b, i).width ==> Put(GetFrom(b, i).value) == b[..GetFrom(b, i).width]
  {
    if b[0] >= 128 {
      if i == 9 {
        assert GetFrom(b[1..], 10).Overflow? || GetFrom(b[1..], 10).Short?;
        assert false;
      } else {
        GetFromBounds(b[1..], i + 1);
        var r := GetFrom(b[1..], i + 1);
        var v := GetFrom(b, i).value;
        assert v == b[0] - 128 + 128 * r.value;
        if v >= 128 {
          assert v / 128 == r.value && v % 128 == b[0] - 128;
          assert b[..r.width + 1] == [b[0]] + b[1..][..r.width];
        }
      }
    } else {
      RoomAtLeast2(i);
      assert b[..1] == [b[0]];
    }
  }

  lemma {:induction false} RoomAtLeast2(i: nat)
    requires i <= 9
    ensures Room(i) >= 2 && (i < 9 ==> Room(i) >= 128)
    decreases 9 - i
  {
    if i < 9 { RoomAtLeast2(i + 1); }
  }

  /** A value that was read fits a uint64, its own encoding is never longer than what was read, and is
      the very bytes read when it is as long. */
  lemma Canonical(b: Bytes)
    requires Get(b).Done?
    ensures Get(b).value < UINT64_LIMIT
    ensures |Put(Get(b).value)| <= Get(b).width
    ensures |Put(Get(b).value)| == Get(b).width ==> Put(Get(b).value) == b[..Get(b).width]
  {
    RoomIs64();
    GetFromBounds(b, 0);
  }

  /** The value of the low seven bits of each byte, least significant first. */
  function Value(b: Bytes): nat {
    if b == [] then 0 else b[0] % 128 + 128 * Value(b[1..])
  }

  /** What is on the wire: seven bits a byte, least significant first, the high bit on all bytes but the last, and no
      more bytes than needed. */
  lemma {:induction false} WrittenLeastFirst(x: nat)
    ensures var b := Put(x);
            && Value(b) == x
            && (forall i :: 0 <= i < |b| - 1 ==> b[i] >= 128) && b[|b| - 1] < 128
            && (|b| > 1 ==> b[|b| - 1] > 0)
  {
    if x < 128 {
      assert Put(x)[1..] == [];
    } else {
      WrittenLeastFirst(x / 128);
      assert Put(x)[1..] == Put(x / 128);
    }
  }
}
