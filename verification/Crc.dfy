/** CRC-32 as the archive writer computes it (sdk/zip.js:18-41), against its bit-serial definition. */
module Registers {
  // Shift registers over any type of state: `f` steps the register, `add` combines two states,
  // `down` drops a state's lowest bit, `feed` steps the register on the lowest bit of an input.

  function Iterate<T>(f: T -> T, c: T, k: nat): T
    decreases k
  {
    if k == 0 then c else Iterate(f, f(c), k - 1)
  }

  function Feed<T>(feed: (T, T) -> T, down: T -> T, c: T, b: T, k: nat): T
    decreases k
  {
    if k == 0 then c else Feed(feed, down, feed(c, b), down(b), k - 1)
  }

  lemma {:induction false} IterateLast<T>(f: T -> T, c: T, k: nat)
    ensures Iterate(f, c, k + 1) == f(Iterate(f, c, k))
    decreases k
  {
    if k > 0 { IterateLast(f, f(c), k - 1); }
  }

  ghost predicate LinearAt<T(!new)>(f: T -> T, add: (T, T) -> T, a: T, b: T) { f(add(a, b)) == add(f(a), f(b)) }

  lemma {:induction false} IterateLinear<T(!new)>(f: T -> T, add: (T, T) -> T, a: T, b: T, k: nat)
    requires forall x, y :: LinearAt(f, add, x, y)
    ensures Iterate(f, add(a, b), k) == add(Iterate(f, a, k), Iterate(f, b, k))
    decreases k
  {
    if k > 0 {
      assert LinearAt(f, add, a, b);
      IterateLinear(f, add, f(a), f(b), k - 1);
    }
  }

  ghost predicate FeedsAt<T(!new)>(f: T -> T, add: (T, T) -> T, feed: (T, T) -> T, down: T -> T, c: T, b: T) {
    f(add(c, b)) == add(feed(c, b), down(b))
  }

  /** Feeding the bits one by one is adding them all at once, minus those not yet reached. */
  lemma {:induction false} BitsAtOnce<T(!new)>(f: T -> T, add: (T, T) -> T, feed: (T, T) -> T, down: T -> T, c: T, b: T, k: nat)
    requires forall x, y :: FeedsAt(f, add, feed, down, x, y)
    ensures Iterate(f, add(c, b), k) == add(Feed(feed, down, c, b, k), Iterate(down, b, k))
    decreases k
  {
    if k > 0 {
      assert FeedsAt(f, add, feed, down, c, b);
      BitsAtOnce(f, add, feed, down, feed(c, b), down(b), k - 1);
    }
  }

  ghost predicate FallsAt<T(!new)>(f: T -> T, down: T -> T, clear: (T, nat) -> bool, x: T, k: nat) {
    k > 0 && clear(x, k) ==> f(x) == down(x) && clear(down(x), k - 1)
  }

  /** While the lowest bits are clear, a step only shifts. */
  lemma {:induction false} ClearBitsShift<T(!new)>(f: T -> T, down: T -> T, clear: (T, nat) -> bool, y: T, k: nat)
    requires forall x, n :: FallsAt(f, down, clear, x, n)
    requires clear(y, k)
    ensures Iterate(f, y, k) == Iterate(down, y, k)
    decreases k
  {
    if k > 0 {
      assert FallsAt(f, down, clear, y, k);
      ClearBitsShift(f, down, clear, down(y), k - 1);
    }
  }
}

module Crc {
  import opened Bytes
  import opened Registers

  // ---------------------------------------------------------------------------
  // 32-bit words, as their bits from the least significant up
  // ---------------------------------------------------------------------------

  type Bits = seq<bool>

  function False(n: nat): Bits { seq(n, _ => false) }

  type Word = w: Bits | |w| == 32 witness False(32)

  /** The number some bits stand for. */
  function Number(b: Bits): nat { if b == [] then 0 else (if b[0] then 1 else 0) + 2 * Number(b[1..]) }

  /** The `k` low bits of a number. */
  function BitsOf(n: nat, k: nat): (b: Bits)
    ensures |b| == k
  {
    if k == 0 then [] else [n % 2 == 1] + BitsOf(n / 2, k - 1)
  }

  function WordOf(n: nat): Word { BitsOf(n, 32) }

  lemma {:induction false} BitsOfNumber(b: Bits)
    ensures BitsOf(Number(b), |b|) == b && Number(b) < Pow2(|b|)
  {
    if b != [] { BitsOfNumber(b[1..]); }
  }

  lemma {:induction false} HighZeros(low: Bits, n: nat)
    ensures Number(low + False(n)) == Number(low)
    decreases |low|, n
  {
    if low != [] {
      assert (low + False(n))[1..] == low[1..] + False(n);
      HighZeros(low[1..], n);
    } else if n > 0 {
      assert (low + False(n))[1..] == low + False(n - 1);
      HighZeros(low, n - 1);
    }
  }

  /** `^`. */
  function Xor(a: Word, b: Word): (w: Word)
    ensures forall i :: 0 <= i < 32 ==> w[i] == (a[i] != b[i])
  {
    seq(32, i requires 0 <= i < 32 => a[i] != b[i])
  }

  /** `>>> k`. */
  function ShiftRight(x: Word, k: nat): Word
    requires k <= 32
  {
    x[k..] + False(k)
  }

  function Down(x: Word): Word { ShiftRight(x, 1) }

  /** `& 0xff`. */
  function LowByte(x: Word): Word { x[..8] + False(24) }

  const POLYNOMIAL: Word := WordOf(0xedb88320)
  function Ones(): Word { seq(32, _ => true) }

  // ---------------------------------------------------------------------------
  // The reference: one bit at a time, least significant first
  // ---------------------------------------------------------------------------

  /** The lowest bit of `b` enters the reflected shift register. */
  function ShiftIn(crc: Word, b: Word): Word {
    if crc[0] != b[0] then Xor(Down(crc), POLYNOMIAL) else Down(crc)
  }

  /** The eight bits of a byte, lowest first. */
  function ByteIn(crc: Word, b: Byte): Word { Feed(ShiftIn, Down, crc, WordOf(b), 8) }

  function BitSerial(crc: Word, data: seq<Byte>): Word
    decreases |data|
  {
    if data == [] then crc else BitSerial(ByteIn(crc, data[0]), data[1..])
  }

  /** CRC-32: the register starts and ends complemented. */
  function Crc32(data: seq<Byte>): nat { Number(Xor(BitSerial(Ones(), data), Ones())) }

  lemma CrcFits(data: seq<Byte>)
    ensures Crc32(data) < 0x1_0000_0000
  {
    BitsOfNumber(Xor(BitSerial(Ones(), data), Ones()));
    assert Pow2(8) == 0x100 && Pow2(16) == 0x1_0000;
    assert Pow2(24) == 0x100_0000 && Pow2(32) == 0x1_0000_0000;
  }

  // ---------------------------------------------------------------------------
  // Eight steps of the register
  // ---------------------------------------------------------------------------

  function Step(c: Word): Word { if c[0] then Xor(Down(c), POLYNOMIAL) else Down(c) }

  /** What the table holds for each byte. */
  function Steps(c: Word): Word { Iterate(Step, c, 8) }

  lemma XorDown(a: Word, b: Word)
    ensures Down(Xor(a, b)) == Xor(Down(a), Down(b))
  {
  }

  lemma XorFlips(a: Word, b: Word, p: Word)
    ensures Xor(Xor(a, p), Xor(b, p)) == Xor(a, b)
    ensures Xor(Xor(a, p), b) == Xor(Xor(a, b), p) == Xor(a, Xor(b, p))
  {
  }

  lemma XorCommutes(a: Word, b: Word)
    ensures Xor(a, b) == Xor(b, a)
  {
  }

  lemma StepLinear(a: Word, b: Word)
    ensures Step(Xor(a, b)) == Xor(Step(a), Step(b))
  {
    XorDown(a, b);
    XorFlips(Down(a), Down(b), POLYNOMIAL);
  }

  lemma StepsLinear(a: Word, b: Word)
    ensures Steps(Xor(a, b)) == Xor(Steps(a), Steps(b))
  {
    forall x, y
      ensures LinearAt(Step, Xor, x, y)
    {
      StepLinear(x, y);
    }
    IterateLinear(Step, Xor, a, b, 8);
  }

  lemma StepFeeds(crc: Word, b: Word)
    ensures Step(Xor(crc, b)) == Xor(ShiftIn(crc, b), Down(b))
  {
    XorDown(crc, b);
    XorFlips(Down(crc), Down(b), POLYNOMIAL);
  }

  lemma {:induction false} Shifted(x: Word, k: nat)
    requires k <= 32
    ensures Iterate(Down, x, k) == ShiftRight(x, k)
  {
    if k == 0 {
      assert ShiftRight(x, 0) == x;
    } else {
      Shifted(x, k - 1);
      IterateLast(Down, x, k - 1);
      assert Down(ShiftRight(x, k - 1)) == ShiftRight(x, k);
    }
  }

  lemma {:induction false} ZeroBits(k: nat)
    ensures BitsOf(0, k) == False(k)
  {
    if k > 0 { ZeroBits(k - 1); }
  }

  /** A byte has no bits above the eighth. */
  lemma ByteBits(b: Byte)
    ensures ShiftRight(WordOf(b), 8) == False(32)
  {
    ZeroBits(24);
    BitsOfSplit(b, 8, 24);
    assert Halved(b, 8) == 0 by { HalvedByte(b); }
  }

  function Halved(n: nat, k: nat): nat { if k == 0 then n else Halved(n / 2, k - 1) }

  lemma {:induction false} BitsOfSplit(n: nat, k: nat, m: nat)
    ensures BitsOf(n, k + m) == BitsOf(n, k) + BitsOf(Halved(n, k), m)
  {
    if k > 0 { BitsOfSplit(n / 2, k - 1, m); }
  }

  lemma HalvedByte(b: Byte)
    ensures Halved(b, 8) == 0
  {
    HalvedSmall(b, 8);
  }

  lemma {:induction false} HalvedSmall(n: nat, k: nat)
    requires n < Pow2(k)
    ensures Halved(n, k) == 0
  {
    if k > 0 { HalvedSmall(n / 2, k - 1); }
  }

  lemma XorZero(x: Word)
    ensures Xor(x, False(32)) == x
  {
  }

  lemma ByteInIsSteps(crc: Word, b: Byte)
    ensures ByteIn(crc, b) == Steps(Xor(crc, WordOf(b)))
  {
    forall x, y
      ensures FeedsAt(Step, Xor, ShiftIn, Down, x, y)
    {
      StepFeeds(x, y);
    }
    BitsAtOnce(Step, Xor, ShiftIn, Down, crc, WordOf(b), 8);
    Shifted(WordOf(b), 8);
    ByteBits(b);
    XorZero(ByteIn(crc, b));
  }

  predicate Clear(x: Word, k: nat) { k <= 32 && forall i :: 0 <= i < k ==> !x[i] }

  /** A register whose low byte is clear only shifts. */
  lemma HighBytesShift(y: Word)
    requires Clear(y, 8)
    ensures Steps(y) == ShiftRight(y, 8)
  {
    forall x, n: nat
      ensures FallsAt(Step, Down, Clear, x, n)
    {
    }
    ClearBitsShift(Step, Down, Clear, y, 8);
    Shifted(y, 8);
  }

  /** One table lookup and one shift feed the register a whole byte. */
  lemma TableStep(crc: Word, b: Byte)
    ensures Xor(Steps(LowByte(Xor(crc, WordOf(b)))), ShiftRight(crc, 8)) == ByteIn(crc, b)
  {
    var x := Xor(crc, WordOf(b));
    var high: Word := False(8) + x[8..];
    assert x == Xor(LowByte(x), high);
    StepsLinear(LowByte(x), high);
    HighBytesShift(high);
    ByteBits(b);
    assert ShiftRight(high, 8) == ShiftRight(x, 8);
    assert ShiftRight(x, 8) == Xor(ShiftRight(crc, 8), ShiftRight(WordOf(b), 8));
    XorZero(ShiftRight(crc, 8));
    ByteInIsSteps(crc, b);
  }

  // ---------------------------------------------------------------------------
  // The table and the loop
  // ---------------------------------------------------------------------------

  predicate IsTable(table: seq<Word>) {
    |table| == 256 && forall n :: 0 <= n < 256 ==> table[n] == Steps(WordOf(n))
  }

  /** One entry: eight conditional shifts. */
  method TableEntry(n: nat) returns (c: Word)
    ensures c == Steps(WordOf(n))
  {
    c := WordOf(n);
    for k := 0 to 8
      invariant c == Iterate(Step, WordOf(n), k)
    {
      IterateLast(Step, WordOf(n), k);
      XorCommutes(POLYNOMIAL, ShiftRight(c, 1));
      c := if c[0] then Xor(POLYNOMIAL, ShiftRight(c, 1)) else ShiftRight(c, 1);
    }
  }

  /** `CRC_TABLE`. */
  method CrcTable() returns (table: seq<Word>)
    ensures IsTable(table)
  {
    table := [];
    for n := 0 to 256
      invariant |table| == n && forall i :: 0 <= i < n ==> table[i] == Steps(WordOf(i))
    {
      var c := TableEntry(n);
      table := table + [c];
    }
  }

  lemma LookUp(table: seq<Word>, x: Word)
    requires IsTable(table)
    ensures Number(LowByte(x)) < 256 && table[Number(LowByte(x))] == Steps(LowByte(x))
  {
    HighZeros(x[..8], 24);
    BitsOfNumber(x[..8]);
    BitsOfNumber(LowByte(x));
    assert Pow2(8) == 256;
  }

  /** `crc32`: the table-driven loop computes the bit-serial CRC-32 of every byte string. */
  method Crc32ByTable(table: seq<Word>, data: seq<Byte>) returns (r: nat)
    requires IsTable(table)
    ensures r == Crc32(data)
  {
    var crc := Ones();
    assert data[0..] == data;
    for i := 0 to |data|
      invariant BitSerial(crc, data[i..]) == BitSerial(Ones(), data)
    {
      var x := Xor(crc, WordOf(data[i]));
      LookUp(table, x);
      TableStep(crc, data[i]);
      assert data[i..][0] == data[i] && data[i..][1..] == data[i + 1..];
      crc := Xor(table[Number(LowByte(x))], ShiftRight(crc, 8));
    }
    r := Number(Xor(crc, Ones()));
  }

  /** The same, with the table at hand. */
  method Checksum(data: seq<Byte>) returns (r: nat)
    ensures r == Crc32(data)
  {
    var table := CrcTable();
    r := Crc32ByTable(table, data);
  }
}
