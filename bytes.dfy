/** Byte-level values shared by the device firmware and its host-side
    tools: bytes, little-endian unsigned and two's complement integers, and
    the 8-byte `long long` that carries the inference time.  The ESP32 and
    the x86 host are both little-endian, so the in-memory layout of an
    integer is its little-endian encoding. */
module Bytes {

  type byte = x: int | 0 <= x < 256

  /** Four bytes: the memory of one `float`. */
  type Word32 = s: seq<byte> | |s| == 4 witness [0, 0, 0, 0]

  const INT64_LIMIT: int := 0x8000_0000_0000_0000

  /** A C `long long` / `int64_t`. */
  type int64 = x: int | -INT64_LIMIT <= x < INT64_LIMIT

  function Min(a: int, b: int): int { if a <= b then a else b }

  function Pow256(k: nat): (p: nat)
    ensures p >= 1
  {
    if k == 0 then 1 else 256 * Pow256(k - 1)
  }

  lemma Pow256Of8()
    ensures Pow256(8) == 2 * INT64_LIMIT
  {
  }

  /** The k least significant bytes of n, least significant first. */
  function LittleEndian(n: nat, k: nat): (bs: seq<byte>)
    ensures |bs| == k
  {
    if k == 0 then [] else [n % 256] + LittleEndian(n / 256, k - 1)
  }

  /** The unsigned value of a little-endian byte sequence. */
  function FromLittleEndian(bs: seq<byte>): (n: nat)
    ensures n < Pow256(|bs|)
  {
    if bs == [] then 0 else bs[0] + 256 * FromLittleEndian(bs[1..])
  }

  /** Encoding a value that fits in k bytes and decoding it gives it back. */
  lemma {:induction false} FromLittleEndianOfLittleEndian(n: nat, k: nat)
    requires n < Pow256(k)
    ensures FromLittleEndian(LittleEndian(n, k)) == n
  {
    if k > 0 {
      var bs := LittleEndian(n, k);
      assert bs[1..] == LittleEndian(n / 256, k - 1);
      FromLittleEndianOfLittleEndian(n / 256, k - 1);
    }
  }

  /** Decoding k bytes and encoding the value in k bytes gives them back. */
  lemma {:induction false} LittleEndianOfFromLittleEndian(bs: seq<byte>)
    ensures LittleEndian(FromLittleEndian(bs), |bs|) == bs
  {
    if bs != [] {
      var n := FromLittleEndian(bs);
      assert n % 256 == bs[0] && n / 256 == FromLittleEndian(bs[1..]);
      LittleEndianOfFromLittleEndian(bs[1..]);
    }
  }

  /** The two's complement value of a non-empty little-endian byte sequence. */
  function SignedFromLittleEndian(bs: seq<byte>): (v: int)
    requires |bs| > 0
    ensures -(Pow256(|bs|) as int) <= 2 * v < Pow256(|bs|)
  {
    var u := FromLittleEndian(bs);
    if 2 * u >= Pow256(|bs|) then u - Pow256(|bs|) else u
  }

  /** The k-byte two's complement encoding of v. */
  function TwosComplement(v: int, k: nat): (bs: seq<byte>)
    requires -(Pow256(k) as int) <= 2 * v < Pow256(k)
    ensures |bs| == k
  {
    LittleEndian(if v < 0 then v + Pow256(k) else v, k)
  }

  lemma SignedOfTwosComplement(v: int, k: nat)
    requires k > 0
    requires -(Pow256(k) as int) <= 2 * v < Pow256(k)
    ensures SignedFromLittleEndian(TwosComplement(v, k)) == v
  {
    FromLittleEndianOfLittleEndian(if v < 0 then v + Pow256(k) else v, k);
  }

  /** The memory of a `long long`, as `send` transmits it. */
  function EncodeInt64(v: int64): (bs: seq<byte>)
    ensures |bs| == 8
  {
    Pow256Of8();
    TwosComplement(v, 8)
  }

  /** `struct.unpack('q', bs)[0]` on a little-endian host. */
  function DecodeInt64(bs: seq<byte>): (v: int64)
    requires |bs| == 8
  {
    Pow256Of8();
    SignedFromLittleEndian(bs)
  }

  /** The host reads back exactly the time the device sent. */
  lemma DecodeEncodeInt64(v: int64)
    ensures DecodeInt64(EncodeInt64(v)) == v
  {
    Pow256Of8();
    SignedOfTwosComplement(v, 8);
  }

  /** Every 8-byte block is the encoding of the value it decodes to. */
  lemma EncodeDecodeInt64(bs: seq<byte>)
    requires |bs| == 8
    ensures EncodeInt64(DecodeInt64(bs)) == bs
  {
    Pow256Of8();
    var u := FromLittleEndian(bs);
    LittleEndianOfFromLittleEndian(bs);
    if 2 * u >= Pow256(8) {
      assert DecodeInt64(bs) + Pow256(8) == u;
    }
  }

  /** The blocks laid out one after another, as an array of fixed-width
      values is laid out in memory. */
  function Flatten(blocks: seq<seq<byte>>): seq<byte>
  {
    if blocks == [] then [] else Flatten(blocks[..|blocks| - 1]) + blocks[|blocks| - 1]
  }

  /** Laying out `n` blocks of `w` bytes takes `n * w` bytes. */
  lemma {:induction false} FlattenLength(blocks: seq<seq<byte>>, w: nat)
    requires forall k :: 0 <= k < |blocks| ==> |blocks[k]| == w
    ensures |Flatten(blocks)| == |blocks| * w
  {
    if blocks != [] {
      var front := blocks[..|blocks| - 1];
      FlattenLength(front, w);
      assert |Flatten(blocks)| == |Flatten(front)| + w;
      assert |blocks| * w == |front| * w + w;
    }
  }

  /** `len` bytes laid out as `n` blocks of `w` bytes, for the widths of
      the scalar types (1 to 4 bytes), hold `len / w == n` values. */
  lemma CountOfBlocks(len: nat, n: nat, w: nat)
    requires 1 <= w <= 4 && len == n * w
    ensures len / w == n
  {
    if w == 1 {
    } else if w == 2 {
    } else if w == 3 {
    } else {
    }
  }

  /** Block `i` of a layout of `w`-byte blocks sits at bytes `i*w` to
      `i*w + w`. */
  lemma {:induction false} FlattenSlice(blocks: seq<seq<byte>>, w: nat, i: nat)
    requires forall k :: 0 <= k < |blocks| ==> |blocks[k]| == w
    requires i < |blocks|
    ensures |Flatten(blocks)| == |blocks| * w
    ensures i * w + w <= |Flatten(blocks)|
    ensures Flatten(blocks)[i * w .. i * w + w] == blocks[i]
  {
    if i < |blocks| - 1 {
      FlattenSlice(blocks[..|blocks| - 1], w, i);
    }
    FlattenSliceStep(blocks, w, i);
  }

  /** The last block sits after the others; any earlier block sits where it
      sat among them. */
  lemma FlattenSliceStep(blocks: seq<seq<byte>>, w: nat, i: nat)
    requires forall k :: 0 <= k < |blocks| ==> |blocks[k]| == w
    requires i < |blocks|
    requires var front := blocks[..|blocks| - 1];
      i < |front| ==> i * w + w <= |Flatten(front)| && Flatten(front)[i * w .. i * w + w] == front[i]
    ensures |Flatten(blocks)| == |blocks| * w
    ensures i * w + w <= |Flatten(blocks)|
    ensures Flatten(blocks)[i * w .. i * w + w] == blocks[i]
  {
    var front, last := blocks[..|blocks| - 1], blocks[|blocks| - 1];
    assert |Flatten(blocks)| == |blocks| * w by { FlattenLength(blocks, w); }
    assert Flatten(blocks) == Flatten(front) + last;
    if i < |front| {
      assert front[i] == blocks[i];
      SliceOfFront(Flatten(front), last, i * w, i * w + w);
    } else {
      assert i * w == |Flatten(front)| by { FlattenLength(front, w); }
      SliceOfBack(Flatten(front), last);
    }
  }

  lemma SliceOfFront<T>(a: seq<T>, b: seq<T>, lo: nat, hi: nat)
    requires lo <= hi <= |a|
    ensures (a + b)[lo..hi] == a[lo..hi]
  {
  }

  lemma SliceOfBack<T>(a: seq<T>, b: seq<T>)
    ensures (a + b)[|a|..|a| + |b|] == b
  {
  }

  lemma MultiplyMonotone(a: nat, b: nat, w: nat)
    requires a <= b
    ensures a * w <= b * w
  {
  }

  /** Two ways of cutting `x` at the same place give the same halves. */
  lemma SplitAt(x: seq<byte>, a: seq<byte>, y: seq<byte>, b: seq<byte>, c: seq<byte>)
    requires x == a + y && x == b + c && |a| == |b|
    ensures a == b && y == c
  {
    assert a == x[..|a|] && b == x[..|a|];
    assert y == x[|a|..] && c == x[|a|..];
  }

  /** Appending `y` adds one copy of `y` and nothing else. */
  lemma CountSnoc<T>(s: seq<T>, y: T, x: T)
    ensures multiset(s + [y])[x] == multiset(s)[x] + (if x == y then 1 else 0)
  {
    assert multiset(s + [y]) == multiset(s) + multiset{y};
  }

  /** Concatenation is associative. */
  lemma Associate<T>(a: seq<T>, b: seq<T>, c: seq<T>)
    ensures (a + b) + c == a + (b + c)
  {
  }
}
