/** Base64 as the metadata header uses it (crates/libfw-core/src/metadata.rs:165-218; section 4 of RFC 4648). */
module Base64 {
  import opened Wrappers
  import opened Bytes

  const U32: nat := 0x1_0000_0000

  type Six = v: nat | v < 64

  // ---------------------------------------------------------------------------
  // Bits, most significant first
  // ---------------------------------------------------------------------------

  type Bits = seq<bool>

  /** The low `k` bits of `n`. */
  function BitsOf(n: nat, k: nat): (b: Bits)
    ensures |b| == k
  {
    if k == 0 then [] else BitsOf(n / 2, k - 1) + [n % 2 == 1]
  }

  function Number(b: Bits): nat {
    if b == [] then 0 else 2 * Number(b[..|b| - 1]) + (if b[|b| - 1] then 1 else 0)
  }

  /** `>>`. */
  function Shr(n: nat, k: nat): nat { if k == 0 then n else Shr(n / 2, k - 1) }

  lemma {:induction false} SplitBits(n: nat, j: nat, k: nat)
    ensures BitsOf(n, j + k) == BitsOf(Shr(n, k), j) + BitsOf(n, k)
    decreases k
  {
    if k > 0 {
      SplitBits(n / 2, j, k - 1);
      assert BitsOf(n, j + k) == BitsOf(n / 2, j + (k - 1)) + [n % 2 == 1];
      assert BitsOf(n, k) == BitsOf(n / 2, k - 1) + [n % 2 == 1];
    }
  }

  /** Higher bits do not show. */
  lemma {:induction false} LowBits(r: nat, q: nat, j: nat, k: nat)
    requires k <= j
    ensures BitsOf(r + q * Pow2(j), k) == BitsOf(r, k)
    decreases k
  {
    if k > 0 {
      var t := q * Pow2(j - 1);
      assert q * Pow2(j) == 2 * t;
      assert (r + 2 * t) / 2 == r / 2 + t && (r + 2 * t) % 2 == r % 2;
      LowBits(r / 2, q, j - 1, k - 1);
    }
  }

  lemma {:induction false} NumberOfBits(n: nat, k: nat)
    requires n < Pow2(k)
    ensures Number(BitsOf(n, k)) == n
  {
    if k > 0 {
      NumberOfBits(n / 2, k - 1);
      var b := BitsOf(n, k);
      assert b[..|b| - 1] == BitsOf(n / 2, k - 1);
    }
  }

  /** Numbers of `k` bits, end to end. */
  function Joined(v: seq<nat>, k: nat): Bits { if v == [] then [] else BitsOf(v[0], k) + Joined(v[1..], k) }

  function SixBits(v: seq<Six>): Bits { Joined(v, 6) }

  function ByteBits(x: seq<Byte>): Bits { Joined(x, 8) }

  lemma {:induction false} JoinedAppend(a: seq<nat>, b: seq<nat>, k: nat)
    ensures Joined(a + b, k) == Joined(a, k) + Joined(b, k)
    decreases |a|
  {
    if a == [] {
      assert a + b == b;
    } else {
      assert (a + b)[1..] == a[1..] + b;
      JoinedAppend(a[1..], b, k);
    }
  }

  lemma JoinedOne(a: nat, k: nat)
    ensures Joined([a], k) == BitsOf(a, k)
  {
    assert [a][1..] == [];
  }

  lemma JoinedTwo(a: nat, b: nat, k: nat)
    ensures Joined([a, b], k) == BitsOf(a, k) + BitsOf(b, k)
  {
    assert [a, b] == [a] + [b];
    JoinedAppend([a], [b], k);
    JoinedOne(a, k);
    JoinedOne(b, k);
  }

  /** A number's bits in two, three and four equal parts. */
  lemma TwoParts(n: nat, k: nat)
    ensures BitsOf(n, k + k) == Joined([Shr(n, k), n], k)
  {
    SplitBits(n, k, k);
    JoinedTwo(Shr(n, k), n, k);
  }

  lemma ThreeParts(n: nat, k: nat)
    ensures BitsOf(n, k + k + k) == Joined([Shr(n, k + k), Shr(n, k), n], k)
  {
    SplitBits(n, k + k, k);
    TwoParts(Shr(n, k), k);
    ShrShr(n, k, k);
    assert [Shr(n, k + k), Shr(n, k), n] == [Shr(n, k + k), Shr(n, k)] + [n];
    JoinedAppend([Shr(n, k + k), Shr(n, k)], [n], k);
    JoinedOne(n, k);
  }

  lemma FourParts(n: nat, k: nat)
    ensures BitsOf(n, k + k + k + k) == Joined([Shr(n, k + k + k), Shr(n, k + k), Shr(n, k), n], k)
  {
    SplitBits(n, k + k + k, k);
    ThreeParts(Shr(n, k), k);
    ShrShr(n, k, k + k);
    ShrShr(n, k, k);
    var front := [Shr(n, k + k + k), Shr(n, k + k), Shr(n, k)];
    assert front + [n] == [Shr(n, k + k + k), Shr(n, k + k), Shr(n, k), n];
    JoinedAppend(front, [n], k);
    JoinedOne(n, k);
  }

  /** Only the low `k` bits of each number count. */
  lemma {:induction false} JoinedSame(a: seq<nat>, b: seq<nat>, k: nat)
    requires |a| == |b| && forall i :: 0 <= i < |a| ==> BitsOf(a[i], k) == BitsOf(b[i], k)
    ensures Joined(a, k) == Joined(b, k)
    decreases |a|
  {
    if a != [] { JoinedSame(a[1..], b[1..], k); }
  }

  lemma {:induction false} JoinedPrefix(v: seq<nat>, n: nat, k: nat)
    requires n <= |v|
    ensures |Joined(v, k)| == k * |v|
    ensures k * n <= k * |v| && Joined(v[..n], k) == Joined(v, k)[..k * n]
    decreases |v|
  {
    JoinedLength(v, k);
    JoinedLength(v[..n], k);
    assert v == v[..n] + v[n..];
    JoinedAppend(v[..n], v[n..], k);
    JoinedLength(v[n..], k);
    assert k * n + k * (|v| - n) == k * |v|;
  }

  lemma {:induction false} JoinedLength(v: seq<nat>, k: nat)
    ensures |Joined(v, k)| == k * |v|
  {
    if v != [] {
      JoinedLength(v[1..], k);
      assert k + k * (|v| - 1) == k * |v|;
    }
  }

  lemma {:induction false} ShrShr(n: nat, j: nat, k: nat)
    ensures Shr(Shr(n, j), k) == Shr(n, j + k)
    decreases j
  {
    if j > 0 { ShrShr(n / 2, j - 1, k); }
  }

  /** Whole bytes; the bits left over are dropped. */
  function Group(b: Bits): seq<nat>
    decreases |b|
  {
    if |b| < 8 then [] else [Number(b[..8])] + Group(b[8..])
  }

  function Zeros(n: nat): Bits { seq(n, _ => false) }

  lemma {:induction false} GroupBytes(x: seq<Byte>, tail: Bits)
    requires |tail| < 8
    ensures Group(ByteBits(x) + tail) == x
    decreases |x|
  {
    if x != [] {
      var b := ByteBits(x) + tail;
      assert b[..8] == BitsOf(x[0], 8) && b[8..] == ByteBits(x[1..]) + tail;
      assert Pow2(8) == 256;
      NumberOfBits(x[0], 8);
      GroupBytes(x[1..], tail);
      assert [x[0]] + x[1..] == x;
    }
  }

  // ---------------------------------------------------------------------------
  // Characters
  // ---------------------------------------------------------------------------

  function Value(c: char): Option<Six> {
    if 'A' <= c <= 'Z' then Some(c as int - 'A' as int)
    else if 'a' <= c <= 'z' then Some(c as int - 'a' as int + 26)
    else if '0' <= c <= '9' then Some(c as int - '0' as int + 52)
    else if c == '+' then Some(62)
    else if c == '/' then Some(63)
    else None
  }

  /** Unicode `White_Space`. */
  predicate IsWhitespace(c: char) {
    var n := c as int;
    || 0x09 <= n <= 0x0d || n == 0x20 || n == 0x85 || n == 0xa0 || n == 0x1680 || 0x2000 <= n <= 0x200a
    || n == 0x2028 || n == 0x2029 || n == 0x202f || n == 0x205f || n == 0x3000
  }

  predicate Skipped(c: char) { c == '=' || IsWhitespace(c) }

  /** `n` consecutive characters. */
  function Run(first: char, n: nat): (r: string)
    requires first as int + n <= 0x80
    ensures |r| == n && forall i :: 0 <= i < n ==> r[i] == (first as int + i) as char
  {
    seq(n, i requires 0 <= i < n => (first as int + i) as char)
  }

  /** `B64_ALPHABET`: A to Z, a to z, 0 to 9, plus and slash. */
  function Alphabet(): (r: string)
    ensures |r| == 64
  {
    Run('A', 26) + Run('a', 26) + Run('0', 10) + "+/"
  }

  lemma Letter(v: Six)
    ensures Value(Alphabet()[v]) == Some(v) && !Skipped(Alphabet()[v])
  {
  }

  // ---------------------------------------------------------------------------
  // Encoding
  // ---------------------------------------------------------------------------

  /** `n & 63`. */
  function Low6(n: nat): Six { n % 64 }

  /** `(b0 << 16) | (b1 << 8) | b2`, absent bytes being zero. */
  function Word(chunk: seq<Byte>): nat
    requires 1 <= |chunk| <= 3
  {
    chunk[0] as nat * 0x1_0000 + (if |chunk| > 1 then chunk[1] as nat else 0) * 0x100 + (if |chunk| > 2 then chunk[2] as nat else 0)
  }

  /** The four characters of up to three bytes. */
  function Quad(chunk: seq<Byte>): (q: string)
    requires 1 <= |chunk| <= 3
    ensures |q| == 4
  {
    var n := Word(chunk);
    [Alphabet()[Low6(Shr(n, 18))], Alphabet()[Low6(Shr(n, 12))],
     if |chunk| > 1 then Alphabet()[Low6(Shr(n, 6))] else '=',
     if |chunk| > 2 then Alphabet()[Low6(n)] else '=']
  }

  function Encode(x: seq<Byte>): string {
    if x == [] then [] else Quad(x[..Min(3, |x|)]) + Encode(x[Min(3, |x|)..])
  }

  /** `base64_encode`. */
  method Base64Encode(input: seq<Byte>) returns (out: string)
    ensures out == Encode(input)
  {
    out := "";
    var rest := input;
    while rest != []
      invariant out + Encode(rest) == Encode(input)
      decreases |rest|
    {
      var n := Min(3, |rest|);
      out := out + Quad(rest[..n]);
      rest := rest[n..];
    }
  }

  lemma {:induction false} EncodedLength(x: seq<Byte>)
    ensures |Encode(x)| == 4 * ((|x| + 2) / 3)
  {
    if |x| > 3 {
      EncodedLength(x[3..]);
      assert (|x| - 3 + 2) / 3 + 1 == (|x| + 2) / 3;
    } else if x != [] {
      assert x[|x|..] == [] && (|x| + 2) / 3 == 1;
    }
  }

  // ---------------------------------------------------------------------------
  // Decoding
  // ---------------------------------------------------------------------------

  /** The values of the characters that count; `None` if one is not in the alphabet. */
  function Values(s: string): Option<seq<Six>> {
    if s == "" then Some([])
    else if Skipped(s[0]) then Values(s[1..])
    else
      match Value(s[0])
      case None => None
      case Some(v) =>
        match Values(s[1..])
        case None => None
        case Some(vs) => Some([v] + vs)
  }

  /** What a base64 text stands for: its six-bit values end to end, in whole bytes. */
  function Meaning(s: string): Option<seq<nat>> {
    match Values(s)
    case None => None
    case Some(vs) => Some(Group(SixBits(vs)))
  }

  /** `(buf << 6) | val` on 32 bits: the six highest bits are lost. */
  function Push(buf: nat, v: Six): nat { buf * 64 % U32 + v }

  /** Losing them costs nothing: only the lowest bits of the accumulator are ever looked at. */
  lemma PushBits(buf: nat, v: Six, k: nat)
    requires k <= 26
    ensures BitsOf(Push(buf, v), k + 6) == BitsOf(buf, k) + BitsOf(v, 6)
  {
    var n, kept := Push(buf, v), buf % 0x400_0000;
    assert buf * 64 % U32 == kept * 64;
    SplitBits(n, k, 6);
    ShrSix(kept, v);
    SixLow(kept, v);
    assert Pow2(26) == 0x400_0000 by { PowerOf26(); }
    LowBits(kept, buf / 0x400_0000, 26, k);
  }

  lemma PowerOf26()
    ensures Pow2(26) == 0x400_0000
  {
    assert Pow2(8) == 0x100 && Pow2(16) == 0x1_0000;
    assert Pow2(24) == 0x100_0000;
  }

  lemma ShrSix(kept: nat, v: Six)
    ensures Shr(kept * 64 + v, 6) == kept
  {
    var n := kept * 64 + v;
    assert n / 2 / 2 / 2 / 2 / 2 / 2 == kept;
    assert Shr(n, 6) == Shr(n / 2, 5) == Shr(n / 2 / 2, 4) == Shr(n / 2 / 2 / 2, 3);
    var m := n / 2 / 2 / 2;
    assert Shr(m, 3) == Shr(m / 2, 2) == Shr(m / 2 / 2, 1) == Shr(m / 2 / 2 / 2, 0);
  }

  lemma SixLow(kept: nat, v: Six)
    ensures BitsOf(kept * 64 + v, 6) == BitsOf(v, 6)
  {
    assert Pow2(6) == 64;
    LowBits(v, kept, 6, 6);
  }

  /** `(buf >> bits) as u8` is the oldest eight of the bits held, and the rest stay. */
  lemma TakeByte(buf: nat, bits: nat)
    ensures Number(BitsOf(buf, bits + 8)[..8]) == Shr(buf, bits) % 256
    ensures BitsOf(buf, bits + 8)[8..] == BitsOf(buf, bits)
  {
    SplitBits(buf, 8, bits);
    var n := Shr(buf, bits);
    assert Pow2(8) == 256;
    LowBits(n % 256, n / 256, 8, 8);
    NumberOfBits(n % 256, 8);
  }

  /** `base64_decode`: the 32-bit accumulator computes the meaning of every text. */
  method Base64Decode(input: string) returns (r: Option<seq<nat>>)
    ensures r == Meaning(input)
  {
    var out: seq<nat> := [];
    var buf: nat, bits: nat := 0, 0;
    var rest := input;
    PendingStart(Values(input));
    while rest != ""
      invariant bits < 8
      invariant Meaning(input) == Pending(out, BitsOf(buf, bits), Values(rest))
      decreases |rest|
    {
      var c := rest[0];
      ghost var held := BitsOf(buf, bits);
      PendingValue(out, held, rest);
      rest := rest[1..];
      if Skipped(c) { continue; }
      var val := Value(c);
      if val.None? { return None; }
      PushBits(buf, val.value, bits);
      buf := Push(buf, val.value);
      bits := bits + 6;
      if bits >= 8 {
        bits := bits - 8;
        TakeByte(buf, bits);
        PendingByte(out, BitsOf(buf, bits + 8), Values(rest));
        out := out + [Shr(buf, bits) % 256];
      }
    }
    assert BitsOf(buf, bits) + SixBits([]) == BitsOf(buf, bits);
    assert out + [] == out;
    return Some(out);
  }

  /** The result, given what is out, the bits held and the values to come. */
  function Pending(out: seq<nat>, held: Bits, values: Option<seq<Six>>): Option<seq<nat>> {
    match values
    case None => None
    case Some(vs) => Some(out + Group(held + SixBits(vs)))
  }

  lemma PendingStart(values: Option<seq<Six>>)
    ensures Pending([], [], values) == match values case None => None case Some(vs) => Some(Group(SixBits(vs)))
  {
    if values.Some? {
      var b := SixBits(values.value);
      assert [] + b == b && [] + Group(b) == Group(b);
    }
  }

  /** The next character: skipped, refused, or six more bits. */
  lemma PendingValue(out: seq<nat>, held: Bits, s: string)
    requires s != ""
    ensures Pending(out, held, Values(s)) ==
              if Skipped(s[0]) then Pending(out, held, Values(s[1..]))
              else if Value(s[0]).None? then None
              else Pending(out, held + BitsOf(Value(s[0]).value, 6), Values(s[1..]))
  {
    if !Skipped(s[0]) && Value(s[0]).Some? && Values(s[1..]).Some? {
      var v, vs := Value(s[0]).value, Values(s[1..]).value;
      assert ([v] + vs)[1..] == vs;
      assert held + SixBits([v] + vs) == held + BitsOf(v, 6) + SixBits(vs);
    }
  }

  /** Eight bits at hand are the next byte. */
  lemma PendingByte(out: seq<nat>, held: Bits, values: Option<seq<Six>>)
    requires |held| >= 8
    ensures Pending(out, held, values) == Pending(out + [Number(held[..8])], held[8..], values)
  {
    if values.Some? {
      var b := held + SixBits(values.value);
      assert b[..8] == held[..8] && b[8..] == held[8..] + SixBits(values.value);
      assert out + Group(b) == out + [Number(held[..8])] + Group(b[8..]);
    }
  }

  // ---------------------------------------------------------------------------
  // The round trip
  // ---------------------------------------------------------------------------

  /** Unused bits after `n` bytes: the last character carries two or four of them. */
  function Padding(n: nat): nat { match n % 3 case 0 => 0 case 1 => 4 case _ => 2 }

  lemma LowSix(n: nat)
    ensures BitsOf(Low6(n), 6) == BitsOf(n, 6)
  {
    assert Pow2(6) == 64;
    LowBits(n % 64, n / 64, 6, 6);
  }

  lemma ShrEight(hi: nat, lo: Byte)
    ensures Shr(hi * 256 + lo, 8) == hi
  {
    var n := hi * 256 + lo;
    var m := n / 2 / 2 / 2 / 2;
    assert Shr(n, 8) == Shr(n / 2, 7) == Shr(n / 2 / 2, 6) == Shr(n / 2 / 2 / 2, 5) == Shr(m, 4);
    assert Shr(m, 4) == Shr(m / 2, 3) == Shr(m / 2 / 2, 2) == Shr(m / 2 / 2 / 2, 1) == Shr(m / 2 / 2 / 2 / 2, 0);
    assert m / 2 / 2 / 2 / 2 == hi;
  }

  lemma ByteLow(hi: nat, lo: Byte)
    ensures BitsOf(hi * 256 + lo, 8) == BitsOf(lo, 8)
  {
    assert Pow2(8) == 256;
    LowBits(lo, hi, 8, 8);
  }

  function Letters(vs: seq<Six>): string { if vs == [] then "" else [Alphabet()[vs[0]]] + Letters(vs[1..]) }

  function Equals(n: nat): (r: string)
    ensures |r| == n
  {
    seq(n, _ => '=')
  }

  lemma {:induction false} EqualsSkipped(n: nat)
    ensures Values(Equals(n)) == Some([])
  {
    if n > 0 {
      EqualsSkipped(n - 1);
      assert Equals(n)[1..] == Equals(n - 1);
    }
  }

  /** Letters decode to their values. */
  lemma {:induction false} LettersBack(vs: seq<Six>, s: string)
    requires Values(s) == Some([])
    ensures Values(Letters(vs) + s) == Some(vs)
    decreases |vs|
  {
    if vs == [] {
      assert Letters(vs) + s == s;
    } else {
      Letter(vs[0]);
      LettersBack(vs[1..], s);
      assert (Letters(vs) + s)[1..] == Letters(vs[1..]) + s;
      assert [vs[0]] + vs[1..] == vs;
    }
  }

  /** The values of the letters of one group. */
  function Sextets(chunk: seq<Byte>): (vs: seq<Six>)
    requires 1 <= |chunk| <= 3
    ensures |vs| == |chunk| + 1
  {
    var n := Word(chunk);
    [Low6(Shr(n, 18)), Low6(Shr(n, 12)), Low6(Shr(n, 6)), Low6(n)][..|chunk| + 1]
  }

  lemma QuadIsLetters(chunk: seq<Byte>)
    requires 1 <= |chunk| <= 3
    ensures Quad(chunk) == Letters(Sextets(chunk)) + Equals(3 - |chunk|)
  {
    LettersAt(Sextets(chunk));
  }

  lemma {:induction false} LettersAt(vs: seq<Six>)
    ensures |Letters(vs)| == |vs| && forall i :: 0 <= i < |vs| ==> Letters(vs)[i] == Alphabet()[vs[i]]
  {
    if vs != [] { LettersAt(vs[1..]); }
  }

  /** The four values of a word, and its three bytes, have the word's 24 bits. */
  lemma WordInSixes(n: nat, k: nat)
    requires k == 6
    ensures Joined([Low6(Shr(n, 18)), Low6(Shr(n, 12)), Low6(Shr(n, 6)), Low6(n)], k) == BitsOf(n, 4 * k)
  {
    FourParts(n, k);
    LowSix(n);
    LowSix(Shr(n, 6));
    LowSix(Shr(n, 12));
    LowSix(Shr(n, 18));
    JoinedSame([Low6(Shr(n, 18)), Low6(Shr(n, 12)), Low6(Shr(n, 6)), Low6(n)], [Shr(n, 18), Shr(n, 12), Shr(n, 6), n], k);
  }

  lemma WordInBytes(b0: Byte, b1: Byte, b2: Byte, k: nat)
    requires k == 8
    ensures Joined([b0, b1, b2], k) == BitsOf(b0 as nat * 0x1_0000 + b1 as nat * 0x100 + b2, 3 * k)
  {
    var m := b0 as nat * 256 + b1;
    var n := m * 256 + b2;
    ThreeParts(n, k);
    ShrEight(m, b2);
    ShrEight(b0, b1);
    ShrShr(n, k, k);
    ByteLow(m, b2);
    ByteLow(b0, b1);
    JoinedSame([b0, b1, b2], [b0, m, n], k);
  }

  lemma SextetBits(chunk: seq<Byte>, k: nat)
    requires 1 <= |chunk| <= 3 && k == 6
    ensures Joined(Sextets(chunk), k) == BitsOf(Word(chunk), 4 * k)[..k * (|chunk| + 1)]
  {
    var n := Word(chunk);
    var all: seq<nat> := [Low6(Shr(n, 18)), Low6(Shr(n, 12)), Low6(Shr(n, 6)), Low6(n)];
    WordInSixes(n, k);
    JoinedPrefix(all, |chunk| + 1, k);
  }

  lemma {:induction false} NoBits(k: nat)
    ensures BitsOf(0, k) == Zeros(k)
  {
    if k > 0 { NoBits(k - 1); }
  }

  /** A chunk's bits begin its word, and zeros follow. */
  lemma ChunkBits(chunk: seq<Byte>, k: nat, j: nat)
    requires 1 <= |chunk| <= 3 && k == 8 && j == 6
    ensures Joined(chunk, k) + Zeros(Padding(|chunk|)) == BitsOf(Word(chunk), 3 * k)[..j * (|chunk| + 1)]
  {
    var b1: Byte, b2: Byte := if |chunk| > 1 then chunk[1] else 0, if |chunk| > 2 then chunk[2] else 0;
    WordInBytes(chunk[0], b1, b2, k);
    assert chunk + Nulls(3 - |chunk|) == [chunk[0], b1, b2];
    JoinedAppend(chunk, Nulls(3 - |chunk|), k);
    NullBits(3 - |chunk|, k);
    JoinedLength(chunk, k);
    PaddedPrefix(Joined(chunk, k), |chunk|, k, j);
  }

  lemma PaddedPrefix(bits: Bits, n: nat, k: nat, j: nat)
    requires 1 <= n <= 3 && k == 8 && j == 6 && |bits| == k * n
    ensures j * (n + 1) <= k * 3 && (bits + Zeros(k * (3 - n)))[..j * (n + 1)] == bits + Zeros(Padding(n))
  {
    ZerosAfter(bits, k * (3 - n), Padding(n));
  }

  function Nulls(n: nat): (v: seq<nat>) { seq(n, _ => 0) }

  lemma {:induction false} NullBits(n: nat, k: nat)
    ensures Joined(Nulls(n), k) == Zeros(k * n)
  {
    if n > 0 {
      assert Nulls(n)[1..] == Nulls(n - 1);
      NullBits(n - 1, k);
      NoBits(k);
      assert k + k * (n - 1) == k * n;
    }
  }

  lemma ZerosAfter(b: Bits, n: nat, m: nat)
    requires m <= n
    ensures (b + Zeros(n))[..|b| + m] == b + Zeros(m)
  {
  }

  /** The values of one group of characters hold the bits of its bytes, then zeros. */
  lemma QuadBits(chunk: seq<Byte>, k: nat, j: nat)
    requires 1 <= |chunk| <= 3 && k == 8 && j == 6
    ensures Values(Quad(chunk)) == Some(Sextets(chunk))
    ensures Joined(Sextets(chunk), j) == Joined(chunk, k) + Zeros(Padding(|chunk|))
  {
    QuadIsLetters(chunk);
    EqualsSkipped(3 - |chunk|);
    LettersBack(Sextets(chunk), Equals(3 - |chunk|));
    SextetBits(chunk, j);
    ChunkBits(chunk, k, j);
  }

  lemma {:induction false} ValuesAppend(a: string, b: string)
    requires Values(a).Some? && Values(b).Some?
    ensures Values(a + b) == Some(Values(a).value + Values(b).value)
    decreases |a|
  {
    if a == "" {
      assert a + b == b;
      assert [] + Values(b).value == Values(b).value;
    } else {
      assert (a + b)[1..] == a[1..] + b;
      ValuesAppend(a[1..], b);
      var va, vb := Values(a[1..]).value, Values(b).value;
      if !Skipped(a[0]) { assert [Value(a[0]).value] + (va + vb) == [Value(a[0]).value] + va + vb; }
    }
  }

  /** Section 4 of RFC 4648: the letters carry the input's bits, then zeros up to a whole letter. */
  lemma EncodedBits(x: seq<Byte>)
    ensures Values(Encode(x)).Some?
    ensures SixBits(Values(Encode(x)).value) == ByteBits(x) + Zeros(Padding(|x|))
  {
    EncodedJoined(x, 8, 6);
  }

  lemma {:induction false} EncodedJoined(x: seq<Byte>, k: nat, j: nat)
    requires k == 8 && j == 6
    ensures Values(Encode(x)).Some?
    ensures Joined(Values(Encode(x)).value, j) == Joined(x, k) + Zeros(Padding(|x|))
    decreases |x|
  {
    if x != [] {
      var n := Min(3, |x|);
      EncodedJoined(x[n..], k, j);
      EncodedStep(x, n, k, j);
    }
  }

  lemma EncodedStep(x: seq<Byte>, n: nat, k: nat, j: nat)
    requires k == 8 && j == 6 && x != [] && n == Min(3, |x|)
    requires Values(Encode(x[n..])).Some?
    requires Joined(Values(Encode(x[n..])).value, j) == Joined(x[n..], k) + Zeros(Padding(|x| - n))
    ensures Values(Encode(x)).Some?
    ensures Joined(Values(Encode(x)).value, j) == Joined(x, k) + Zeros(Padding(|x|))
  {
    var head, tail := x[..n], x[n..];
    QuadBits(head, k, j);
    ValuesAppend(Quad(head), Encode(tail));
    JoinedAppend(Sextets(head), Values(Encode(tail)).value, j);
    JoinedAppend(head, tail, k);
    assert head + tail == x;
    PadOnce(Joined(head, k), Joined(tail, k), |x|, n);
  }

  /** Only the last group is padded. */
  lemma PadOnce(head: Bits, tail: Bits, size: nat, n: nat)
    requires n == Min(3, size) > 0 && (size <= 3 ==> tail == [])
    ensures head + Zeros(Padding(n)) + (tail + Zeros(Padding(size - n))) == head + tail + Zeros(Padding(size))
  {
    if size > 3 {
      assert Padding(3) == 0 && Padding(size - 3) == Padding(size);
      assert head + Zeros(0) == head;
      var pad := Zeros(Padding(size));
      assert head + (tail + pad) == head + tail + pad;
    } else {
      var pad := Zeros(Padding(size));
      assert Padding(0) == 0 && tail + Zeros(0) == [];
      assert head + pad + [] == head + [] + pad;
    }
  }

  /** The characters that count. */
  function Significant(s: string): string {
    if s == "" then "" else (if Skipped(s[0]) then "" else [s[0]]) + Significant(s[1..])
  }

  lemma SignificantKept(c: char, rest: string)
    requires !Skipped(c)
    ensures Values([c] + rest) ==
              if Value(c).None? || Values(rest).None? then None else Some([Value(c).value] + Values(rest).value)
  {
    assert ([c] + rest)[1..] == rest;
  }

  lemma {:induction false} OnlySignificantCounts(s: string)
    ensures Values(s) == Values(Significant(s))
  {
    if s != "" {
      OnlySignificantCounts(s[1..]);
      var rest := Significant(s[1..]);
      if Skipped(s[0]) {
        assert Significant(s) == rest;
      } else {
        assert Significant(s) == [s[0]] + rest;
        SignificantKept(s[0], rest);
        SignificantKept(s[0], s[1..]);
        assert [s[0]] + s[1..] == s;
      }
    }
  }

  /** Padding and whitespace may be inserted, or dropped, anywhere. */
  lemma {:induction false} InsertedIsInsignificant(a: string, c: char, b: string)
    requires Skipped(c)
    ensures Significant(a + [c] + b) == Significant(a + b)
    decreases |a|
  {
    if a == "" {
      assert a + b == b && (a + [c] + b)[1..] == b;
      assert "" + Significant(b) == Significant(b);
    } else {
      assert (a + [c] + b)[1..] == a[1..] + [c] + b && (a + b)[1..] == a[1..] + b;
      InsertedIsInsignificant(a[1..], c, b);
    }
  }

  /** Any text with the characters of an encoding decodes to what was encoded. */
  lemma RoundTrip(x: seq<Byte>, s: string)
    requires Significant(s) == Significant(Encode(x))
    ensures Meaning(s) == Some(x)
  {
    OnlySignificantCounts(s);
    OnlySignificantCounts(Encode(x));
    EncodedBits(x);
    GroupBytes(x, Zeros(Padding(|x|)));
  }
}
