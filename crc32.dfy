/**
 * CRC-32 as section 4.4.7 of PKWARE's APPNOTE.TXT defines it: the reflected CRC with polynomial
 * 0xEDB88320, register preset to 0xFFFFFFFF and complemented at the end. The checksum is
 * specified bit by bit (`Register`) and computed the way the exporter does, with a 256-entry
 * table of eight-round values.
 */
module Crc32 {
  /** A byte of data: an element of a `Uint8Array`. */
  type Byte = b: int | 0 <= b < 256

  /** A byte as a register value, for folding it in. */
  function ByteBits(b: Byte): bv32 {
    b as bv32
  }

  lemma {:induction false} ByteBitsSmall(b: Byte)
    ensures ByteBits(b) < 256
  {
  }

  /** The reflected CRC-32 polynomial. */
  const Polynomial: bv32 := 0xEDB8_8320

  /** `f` applied `n` times. */
  function Iterate<T>(f: T -> T, c: T, n: nat): T
    decreases n
  {
    if n == 0 then c else f(Iterate(f, c, n - 1))
  }

  /** A map that distributes over `plus` still does so when iterated. */
  lemma {:induction false} IterateDistributes<T>(f: T -> T, plus: (T, T) -> T, x: T, y: T, n: nat)
    requires forall a, b :: f(plus(a, b)) == plus(f(a), f(b))
    ensures Iterate(f, plus(x, y), n) == plus(Iterate(f, x, n), Iterate(f, y, n))
    decreases n
  {
    if n > 0 {
      IterateDistributes(f, plus, x, y, n - 1);
    }
  }

  /** Iterating `f` along a chain where each element maps to the next reaches the last one. */
  lemma {:induction false} IterateAlong<T>(f: T -> T, s: seq<T>)
    requires |s| > 0
    requires forall k :: 0 <= k < |s| - 1 ==> f(s[k]) == s[k + 1]
    ensures Iterate(f, s[0], |s| - 1) == s[|s| - 1]
    decreases |s|
  {
    if |s| > 1 {
      IterateAlong(f, s[..|s| - 1]);
    }
  }

  /**
   * The register operations the table method is made of. They are named so that statements
   * about the register can be made without exposing their bits.
   */
  function Xor(a: bv32, b: bv32): bv32 {
    a ^ b
  }

  /** The low byte of a register value. */
  function LowByte(x: bv32): bv32 {
    x & 0xFF
  }

  /** A register value with its low byte cleared. */
  function HighBytes(x: bv32): bv32 {
    x & 0xFFFF_FF00
  }

  /** A register value shifted down a byte. */
  function ShiftByte(x: bv32): bv32 {
    x >> 8
  }

  /** One bit of the division: shift right, and subtract the polynomial when a one fell out. */
  function Round(c: bv32): bv32 {
    if c & 1 == 1 then (c >> 1) ^ Polynomial else c >> 1
  }

  lemma {:induction false} RoundOfOdd(c: bv32)
    requires c & 1 == 1
    ensures Round(c) == (c >> 1) ^ Polynomial
  {
  }

  lemma {:induction false} RoundOfEven(c: bv32)
    requires c & 1 == 0
    ensures Round(c) == c >> 1
  {
  }

  lemma {:induction false} ShiftXor(x: bv32, y: bv32)
    ensures (x ^ y) >> 1 == (x >> 1) ^ (y >> 1)
    ensures (x ^ y) & 1 == (x & 1) ^ (y & 1)
    ensures x & 1 == 0 || x & 1 == 1
    ensures y & 1 == 0 || y & 1 == 1
  {
  }

  /** A round is linear over exclusive or. */
  lemma {:induction false} RoundDistributes(x: bv32, y: bv32)
    ensures Round(Xor(x, y)) == Xor(Round(x), Round(y))
  {
    ShiftXor(x, y);
    var a, b := x >> 1, y >> 1;
    if x & 1 == 1 {
      RoundOfOdd(x);
      if y & 1 == 1 {
        RoundOfOdd(y);
        assert (x ^ y) & 1 == 0;
        RoundOfEven(x ^ y);
        assert (a ^ Polynomial) ^ (b ^ Polynomial) == a ^ b;
      } else {
        RoundOfEven(y);
        assert (x ^ y) & 1 == 1;
        RoundOfOdd(x ^ y);
        assert (a ^ Polynomial) ^ b == (a ^ b) ^ Polynomial;
      }
    } else {
      RoundOfEven(x);
      if y & 1 == 1 {
        RoundOfOdd(y);
        assert (x ^ y) & 1 == 1;
        RoundOfOdd(x ^ y);
        assert a ^ (b ^ Polynomial) == (a ^ b) ^ Polynomial;
      } else {
        RoundOfEven(y);
        assert (x ^ y) & 1 == 0;
        RoundOfEven(x ^ y);
      }
    }
  }

  lemma {:induction false} EvenRound0(x: bv32)
    requires x & 0xFF == 0
    ensures Round(x) == x >> 1
  {
    assert (x) & 1 == 0;
    RoundOfEven(x);
  }

  lemma {:induction false} EvenRound1(x: bv32)
    requires x & 0xFF == 0
    ensures Round(x >> 1) == x >> 2
  {
    assert (x >> 1) & 1 == 0;
    assert (x >> 1) >> 1 == x >> 2;
    RoundOfEven(x >> 1);
  }

  lemma {:induction false} EvenRound2(x: bv32)
    requires x & 0xFF == 0
    ensures Round(x >> 2) == x >> 3
  {
    assert (x >> 2) & 1 == 0;
    assert (x >> 2) >> 1 == x >> 3;
    RoundOfEven(x >> 2);
  }

  lemma {:induction false} EvenRound3(x: bv32)
    requires x & 0xFF == 0
    ensures Round(x >> 3) == x >> 4
  {
    assert (x >> 3) & 1 == 0;
    assert (x >> 3) >> 1 == x >> 4;
    RoundOfEven(x >> 3);
  }

  lemma {:induction false} EvenRound4(x: bv32)
    requires x & 0xFF == 0
    ensures Round(x >> 4) == x >> 5
  {
    assert (x >> 4) & 1 == 0;
    assert (x >> 4) >> 1 == x >> 5;
    RoundOfEven(x >> 4);
  }

  lemma {:induction false} EvenRound5(x: bv32)
    requires x & 0xFF == 0
    ensures Round(x >> 5) == x >> 6
  {
    assert (x >> 5) & 1 == 0;
    assert (x >> 5) >> 1 == x >> 6;
    RoundOfEven(x >> 5);
  }

  lemma {:induction false} EvenRound6(x: bv32)
    requires x & 0xFF == 0
    ensures Round(x >> 6) == x >> 7
  {
    assert (x >> 6) & 1 == 0;
    assert (x >> 6) >> 1 == x >> 7;
    RoundOfEven(x >> 6);
  }

  lemma {:induction false} EvenRound7(x: bv32)
    requires x & 0xFF == 0
    ensures Round(x >> 7) == x >> 8
  {
    assert (x >> 7) & 1 == 0;
    assert (x >> 7) >> 1 == x >> 8;
    RoundOfEven(x >> 7);
  }

  /** The chain a value whose low byte is zero passes through in eight rounds. */
  function Shifts(x: bv32): seq<bv32> {
    [x, x >> 1, x >> 2, x >> 3, x >> 4, x >> 5, x >> 6, x >> 7, x >> 8]
  }

  lemma {:induction false} ShiftsChain(x: bv32)
    requires Round(x) == x >> 1 && Round(x >> 1) == x >> 2 && Round(x >> 2) == x >> 3
    requires Round(x >> 3) == x >> 4 && Round(x >> 4) == x >> 5 && Round(x >> 5) == x >> 6
    requires Round(x >> 6) == x >> 7 && Round(x >> 7) == x >> 8
    ensures forall k :: 0 <= k < 8 ==> Round(Shifts(x)[k]) == Shifts(x)[k + 1]
  {
  }

  /** With a zero low byte no one bit falls out in eight rounds: they only shift by eight. */
  lemma {:induction false} EightRoundsOfHighBits(x: bv32)
    requires LowByte(x) == 0
    ensures Iterate(Round, x, 8) == ShiftByte(x)
  {
    EvenRound0(x); EvenRound1(x); EvenRound2(x); EvenRound3(x);
    EvenRound4(x); EvenRound5(x); EvenRound6(x); EvenRound7(x);
    ShiftsChain(x);
    IterateAlong(Round, Shifts(x));
  }

  /** Rounds, however many, are linear over exclusive or. */
  lemma {:induction false} RoundsDistribute(x: bv32, y: bv32, n: nat)
    ensures Iterate(Round, Xor(x, y), n) == Xor(Iterate(Round, x, n), Iterate(Round, y, n))
  {
    forall a, b ensures Round(Xor(a, b)) == Xor(Round(a), Round(b)) {
      RoundDistributes(a, b);
    }
    IterateDistributes(Round, Xor, x, y, n);
  }

  /** The eight rounds of one byte: the value a table entry holds. */
  function ByteRounds(x: bv32): bv32 {
    Iterate(Round, x, 8)
  }

  /**
   * What the table method needs of a byte's rounds `g`: they distribute over exclusive or, and a
   * value whose low byte is clear is just shifted down a byte.
   */
  ghost predicate IsByteStep(g: bv32 -> bv32) {
    (forall x, y {:trigger g(Xor(x, y))} :: g(Xor(x, y)) == Xor(g(x), g(y))) &&
    (forall x {:trigger g(x)} :: LowByte(x) == 0 ==> g(x) == ShiftByte(x))
  }

  lemma {:induction false} ByteRoundsIsByteStep()
    ensures IsByteStep(ByteRounds)
  {
    forall x, y ensures ByteRounds(Xor(x, y)) == Xor(ByteRounds(x), ByteRounds(y)) {
      RoundsDistribute(x, y, 8);
    }
    forall x | LowByte(x) == 0 ensures ByteRounds(x) == ShiftByte(x) {
      EightRoundsOfHighBits(x);
    }
  }

  /** A register value is its low byte and the rest, folded together. */
  lemma {:induction false} SplitLowByte(x: bv32)
    ensures x == Xor(LowByte(x), HighBytes(x))
    ensures LowByte(HighBytes(x)) == 0
  {
  }

  /** Folding a byte in does not touch what shifting down a byte keeps. */
  lemma {:induction false} ShiftOfFolded(crc: bv32, b: bv32)
    requires b < 256
    ensures ShiftByte(HighBytes(Xor(crc, b))) == ShiftByte(crc)
  {
  }

  /**
   * The table identity: the rounds of a byte folded into the register are the table entry of
   * the low byte, folded with the register shifted down a byte.
   */
  lemma {:induction false} TableStep(g: bv32 -> bv32, crc: bv32, b: bv32)
    requires b < 256
    requires IsByteStep(g)
    ensures g(Xor(crc, b)) == Xor(g(LowByte(Xor(crc, b))), ShiftByte(crc))
  {
    var x := Xor(crc, b);
    SplitLowByte(x);
    ShiftOfFolded(crc, b);
    assert g(x) == Xor(g(LowByte(x)), g(HighBytes(x)));
  }

  /** The register after folding the bytes of `data` in, preset to all ones, `g` doing each byte. */
  function FoldWith(g: bv32 -> bv32, data: seq<Byte>): bv32
    decreases |data|
  {
    if data == [] then 0xFFFF_FFFF
    else g(Xor(FoldWith(g, data[..|data| - 1]), ByteBits(data[|data| - 1])))
  }

  /** The register after the bytes of `data`, bit by bit: preset to all ones, eight rounds per byte. */
  function Register(data: seq<Byte>): bv32 {
    FoldWith(ByteRounds, data)
  }

  /** The CRC-32 of `data`: the final register, complemented. */
  function Checksum(data: seq<Byte>): bv32 {
    Xor(Register(data), 0xFFFF_FFFF)
  }

  /** The register of one byte more of `data`. */
  lemma {:induction false} FoldPrefix(g: bv32 -> bv32, data: seq<Byte>, n: nat)
    requires n < |data|
    ensures FoldWith(g, data[..n + 1]) == g(Xor(FoldWith(g, data[..n]), ByteBits(data[n])))
  {
    assert data[..n + 1][..n] == data[..n];
  }

  /** One byte folded in through its table entry: the register of one byte more of `data`. */
  lemma {:induction false} NextRegister(g: bv32 -> bv32, data: seq<Byte>, n: nat, crc: bv32, entry: bv32)
    requires IsByteStep(g)
    requires n < |data| && crc == FoldWith(g, data[..n])
    requires entry == g(LowByte(Xor(crc, ByteBits(data[n]))))
    ensures Xor(entry, ShiftByte(crc)) == FoldWith(g, data[..n + 1])
  {
    FoldPrefix(g, data, n);
    ByteBitsSmall(data[n]);
    TableStep(g, crc, ByteBits(data[n]));
  }

  lemma {:induction false} FoldAll(g: bv32 -> bv32, data: seq<Byte>)
    ensures FoldWith(g, data[..|data|]) == FoldWith(g, data)
  {
    assert data[..|data|] == data;
  }

  /** A byte-sized register value survives the trip to an array index and back. */
  lemma {:induction false} IndexRoundTrip(x: bv32)
    requires x < 256
    ensures 0 <= x as int < 256 && (x as int) as bv32 == x
  {
  }

  lemma {:induction false} LowByteIsByte(x: bv32)
    ensures LowByte(x) < 256
  {
  }

  lemma {:induction false} IterateStep<T>(f: T -> T, c: T, j: nat)
    ensures Iterate(f, c, j + 1) == f(Iterate(f, c, j))
  {
  }

  /** The source's round, written with its own branch, is `Round`. */
  lemma {:induction false} RoundBranches(prev: bv32, next: bv32)
    requires next == if prev & 1 == 1 then (prev >> 1) ^ Polynomial else prev >> 1
    ensures next == Round(prev)
  {
  }

  /** One table entry: eight rounds of the byte `i`. */
  method TableEntry(i: int) returns (crc: bv32)
    requires 0 <= i < 256
    ensures crc == ByteRounds(i as bv32)
  {
    var start := i as bv32;
    crc := start;
    for j := 0 to 8
      invariant crc == Iterate(Round, start, j)
    {
      var prev := crc;
      if crc & 1 == 1 {
        crc := (crc >> 1) ^ Polynomial;
      } else {
        crc := crc >> 1;
      }
      RoundBranches(prev, crc);
      IterateStep(Round, start, j);
    }
  }

  /** The table half of `crc32`: entry `k` holds the eight-round value of byte `k`. */
  method CrcTable() returns (crcTable: array<bv32>)
    ensures fresh(crcTable) && crcTable.Length == 256
    ensures forall k :: 0 <= k < 256 ==> crcTable[k] == ByteRounds(k as bv32)
  {
    crcTable := new bv32[256];
    for i := 0 to 256
      invariant forall k :: 0 <= k < i ==> crcTable[k] == ByteRounds(k as bv32)
    {
      var entry := TableEntry(i);
      crcTable[i] := entry;
      forall k | 0 <= k < i + 1 ensures crcTable[k] == ByteRounds(k as bv32) {
        if k == i {
          assert crcTable[k] == entry;
        }
      }
    }
  }

  /** The array index of a byte-sized register value. */
  method ByteIndex(x: bv32) returns (k: int)
    requires x < 256
    ensures 0 <= k < 256 && k as bv32 == x
  {
    IndexRoundTrip(x);
    k := x as int;
  }

  /** The byte loop of `crc32`: each byte folded into the register through the table of `g`. */
  method FoldBytes(crcTable: array<bv32>, g: bv32 -> bv32, data: seq<Byte>) returns (crc: bv32)
    requires IsByteStep(g)
    requires crcTable.Length == 256
    requires forall k :: 0 <= k < 256 ==> crcTable[k] == g(k as bv32)
    ensures crc == FoldWith(g, data)
  {
    crc := 0xFFFF_FFFF;
    for n := 0 to |data|
      invariant crc == FoldWith(g, data[..n])
    {
      var low := LowByte(Xor(crc, ByteBits(data[n])));
      LowByteIsByte(Xor(crc, ByteBits(data[n])));
      var k := ByteIndex(low);
      var entry := crcTable[k];
      NextRegister(g, data, n, crc, entry);
      crc := Xor(entry, ShiftByte(crc));
    }
    FoldAll(g, data);
  }

  /**
   * `crc32`: builds the table, then folds each byte in through it. The result is the checksum,
   * as a number in [0, 2^32).
   */
  method Crc32(data: seq<Byte>) returns (r: int)
    ensures 0 <= r < 0x1_0000_0000
    ensures r == Checksum(data) as int
  {
    var crcTable := CrcTable();
    ByteRoundsIsByteStep();
    var crc := FoldBytes(crcTable, ByteRounds, data);
    r := Xor(crc, 0xFFFF_FFFF) as int;
  }

  /** An empty entry, such as a directory, has checksum zero. */
  lemma {:induction false} EmptyChecksum()
    ensures Checksum([]) == 0
  {
  }
}
