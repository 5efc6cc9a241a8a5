/** `PredictionInterpreter`: turns the raw bytes of the model's output
    tensor into a vector of scores, then erases the scores below a
    threshold.  Scores are real numbers here (single-precision rounding is
    not modelled); the byte layout of a `float` is the parameter
    `decodeFloat`. */
module PredictionInterpreter {

  import opened Bytes

  /** The TFLite element types the interpreter knows; any other
      `TfLiteType` code is `OtherType`. */
  datatype TensorType = Float32 | UInt8 | Int8 | Int16 | Int32 | Bool | OtherType(code: int)

  /** The parts of a `TfLiteTensor` the interpreter reads: the element type,
      the `data.raw` buffer of `bytes` bytes, whether a quantization is
      declared (`quantization.type != kTfLiteNoQuantization`) and the affine
      parameters `params.scale` and `params.zero_point`. */
  datatype Tensor = Tensor(kind: TensorType, raw: seq<byte>, quantized: bool, scale: real, zeroPoint: int)

  /** A call that either produces a value or deletes the calling task
      (`vTaskDelete(NULL)`), after which nothing of that task runs again. */
  datatype Fate<T> = Done(value: T) | TaskDeleted

  predicate Supported(kind: TensorType)
  {
    !kind.OtherType?
  }

  /** `sizeof` of the C type that stores one element. */
  function Width(kind: TensorType): (w: nat)
    requires Supported(kind)
    ensures 1 <= w <= 4
  {
    match kind
    case Float32 => 4
    case UInt8 => 1
    case Int8 => 1
    case Int16 => 2
    case Int32 => 4
    case Bool => 1
  }

  /** `GetTypeSize(type)`. */
  function GetTypeSize(kind: TensorType): (f: Fate<nat>)
    ensures f.Done? <==> Supported(kind)
  {
    if Supported(kind) then Done(Width(kind)) else TaskDeleted
  }

  /** The size table, type by type; every other type deletes the calling FreeRTOS task. */
  lemma GetTypeSizeTable(code: int)
    ensures GetTypeSize(Float32) == Done(4) && GetTypeSize(UInt8) == Done(1)
    ensures GetTypeSize(Int8) == Done(1) && GetTypeSize(Int16) == Done(2)
    ensures GetTypeSize(Int32) == Done(4) && GetTypeSize(Bool) == Done(1)
    ensures GetTypeSize(OtherType(code)) == TaskDeleted
  {
  }

  /** The integer stored in one element of an integer tensor: unsigned for
      `uint8_t`, two's complement for the signed types. */
  function IntegerValue(kind: TensorType, block: seq<byte>): int
    requires kind == UInt8 || kind == Int8 || kind == Int16 || kind == Int32
    requires |block| == Width(kind)
  {
    if kind == UInt8 then FromLittleEndian(block) else SignedFromLittleEndian(block)
  }

  /** The range of the C type behind an integer tensor. */
  predicate InRange(kind: TensorType, v: int)
    requires kind == UInt8 || kind == Int8 || kind == Int16 || kind == Int32
  {
    if kind == UInt8 then 0 <= v < 256
    else -(Pow256(Width(kind)) as int) <= 2 * v < Pow256(Width(kind))
  }

  /** How the integer `v` is stored. */
  function IntegerBlock(kind: TensorType, v: int): (block: seq<byte>)
    requires kind == UInt8 || kind == Int8 || kind == Int16 || kind == Int32
    requires InRange(kind, v)
    ensures |block| == Width(kind)
  {
    if kind == UInt8 then LittleEndian(v, 1) else TwosComplement(v, Width(kind))
  }

  lemma IntegerValueOfBlock(kind: TensorType, v: int)
    requires kind == UInt8 || kind == Int8 || kind == Int16 || kind == Int32
    requires InRange(kind, v)
    ensures IntegerValue(kind, IntegerBlock(kind, v)) == v
  {
    if kind == UInt8 {
      FromLittleEndianOfLittleEndian(v, 1);
    } else {
      SignedOfTwosComplement(v, Width(kind));
    }
  }

  /** How many elements the result vector is sized for:
      `output_tensor->bytes / GetTypeSize(output_tensor->type)`. */
  function Count(t: Tensor): nat
    requires Supported(t.kind)
  {
    |t.raw| / Width(t.kind)
  }

  lemma ElementFits(i: nat, len: nat, w: nat)
    requires w > 0 && i < len / w
    ensures i * w + w <= len
  {
    assert (i + 1) * w <= (len / w) * w by {
      MultiplyMonotone(i + 1, len / w, w);
    }
  }

  /** The bytes of element `i`. */
  function Block(t: Tensor, i: nat): (block: seq<byte>)
    requires Supported(t.kind) && i < Count(t)
    ensures |block| == Width(t.kind)
  {
    var w := Width(t.kind);
    ElementFits(i, |t.raw|, w);
    t.raw[i * w .. i * w + w]
  }

  /** The value `Dequantize` writes for an integer element of an 8- or
      16-bit tensor: `(v - zero_point) * scale` when a quantization is
      declared, `v` otherwise. */
  function Affine(t: Tensor, v: int): real
  {
    if t.quantized then (v - t.zeroPoint) as real * t.scale else v as real
  }

  /** The score `Dequantize` writes at `results[i]`. */
  function Element(t: Tensor, decodeFloat: Word32 -> real, i: nat): real
    requires Supported(t.kind) && i < Count(t)
  {
    var block := Block(t, i);
    match t.kind
    case Float32 => decodeFloat(block)
    case Bool => if block[0] != 0 then 1.0 else 0.0
    case Int32 => IntegerValue(Int32, block) as real
    case UInt8 | Int8 | Int16 => Affine(t, IntegerValue(t.kind, block))
    case OtherType(_) => 0.0  // excluded by `Supported`
  }

  /** Whether `Dequantize` deletes its FreeRTOS task before it writes anything: a
      declared quantization with a zero scale, or an unknown type. */
  predicate Fatal(t: Tensor)
  {
    (t.quantized && t.scale == 0.0) || !Supported(t.kind)
  }

  /** The dequantised scores, before the threshold filter. */
  function Scores(t: Tensor, decodeFloat: Word32 -> real): (f: Fate<seq<real>>)
    ensures f.Done? <==> !Fatal(t)
    ensures f.Done? ==> |f.value| == Count(t)
  {
    if Fatal(t) then TaskDeleted
    else Done(seq(Count(t), i requires 0 <= i < Count(t) => Element(t, decodeFloat, i)))
  }

  /** The tensor holding the integers `vs`, one after another. */
  function IntegerLayout(kind: TensorType, vs: seq<int>): seq<byte>
    requires kind == UInt8 || kind == Int8 || kind == Int16 || kind == Int32
    requires forall i :: 0 <= i < |vs| ==> InRange(kind, vs[i])
  {
    Flatten(seq(|vs|, i requires 0 <= i < |vs| => IntegerBlock(kind, vs[i])))
  }

  lemma IntegerLayoutSlice(kind: TensorType, vs: seq<int>, i: nat)
    requires kind == UInt8 || kind == Int8 || kind == Int16 || kind == Int32
    requires forall i :: 0 <= i < |vs| ==> InRange(kind, vs[i])
    requires i < |vs|
    ensures |IntegerLayout(kind, vs)| == |vs| * Width(kind)
    ensures i * Width(kind) + Width(kind) <= |IntegerLayout(kind, vs)|
    ensures IntegerLayout(kind, vs)[i * Width(kind) .. i * Width(kind) + Width(kind)] == IntegerBlock(kind, vs[i])
  {
    FlattenSlice(seq(|vs|, i requires 0 <= i < |vs| => IntegerBlock(kind, vs[i])), Width(kind), i);
  }

  /** Integer tensors decode element by element: the tensor holding the
      values `vs` yields `(vs[i] - zero_point) * scale` for quantised 8- and
      16-bit types, `vs[i]` for unquantised ones, and `vs[i]` for `int32`
      whether or not a quantization is declared. */
  lemma ScoresOfIntegers(t: Tensor, decodeFloat: Word32 -> real, vs: seq<int>)
    requires t.kind == UInt8 || t.kind == Int8 || t.kind == Int16 || t.kind == Int32
    requires forall i :: 0 <= i < |vs| ==> InRange(t.kind, vs[i])
    requires t.raw == IntegerLayout(t.kind, vs)
    requires !Fatal(t)
    ensures Count(t) == |vs|
    ensures forall i :: 0 <= i < |vs| ==>
      Scores(t, decodeFloat).value[i] == if t.kind == Int32 then vs[i] as real else Affine(t, vs[i])
  {
    var w := Width(t.kind);
    FlattenLength(seq(|vs|, i requires 0 <= i < |vs| => IntegerBlock(t.kind, vs[i])), w);
    CountOfBlocks(|t.raw|, |vs|, w);
    forall i | 0 <= i < |vs|
      ensures Scores(t, decodeFloat).value[i] == if t.kind == Int32 then vs[i] as real else Affine(t, vs[i])
    {
      IntegerElement(t, decodeFloat, vs, i);
    }
  }

  lemma IntegerElement(t: Tensor, decodeFloat: Word32 -> real, vs: seq<int>, i: nat)
    requires t.kind == UInt8 || t.kind == Int8 || t.kind == Int16 || t.kind == Int32
    requires forall i :: 0 <= i < |vs| ==> InRange(t.kind, vs[i])
    requires t.raw == IntegerLayout(t.kind, vs)
    requires i < |vs| && Count(t) == |vs|
    ensures Element(t, decodeFloat, i) == if t.kind == Int32 then vs[i] as real else Affine(t, vs[i])
  {
    IntegerLayoutSlice(t.kind, vs, i);
    assert Block(t, i) == IntegerBlock(t.kind, vs[i]);
    IntegerValueOfBlock(t.kind, vs[i]);
  }

  /** A `float` tensor passes its values through: the tensor holding the
      encodings of `xs` yields `xs`, for any layout that decodes what it
      encodes. */
  lemma {:induction false} ScoresOfFloats(t: Tensor, decodeFloat: Word32 -> real, encodeFloat: real -> Word32, xs: seq<real>)
    requires t.kind == Float32 && !Fatal(t)
    requires forall i :: 0 <= i < |xs| ==> decodeFloat(encodeFloat(xs[i])) == xs[i]
    requires t.raw == Flatten(seq(|xs|, i requires 0 <= i < |xs| => encodeFloat(xs[i])))
    ensures Scores(t, decodeFloat) == Done(xs)
  {
    var blocks := seq(|xs|, i requires 0 <= i < |xs| => encodeFloat(xs[i]));
    FlattenLength(blocks, 4);
    CountOfBlocks(|t.raw|, |xs|, 4);
    forall i | 0 <= i < |xs|
      ensures Scores(t, decodeFloat).value[i] == xs[i]
    {
      FlattenSlice(blocks, 4, i);
      assert Block(t, i) == blocks[i];
    }
    assert Scores(t, decodeFloat).value == xs;
  }

  /** A `bool` tensor yields 1.0 for every non-zero byte and 0.0 for every
      zero byte. */
  lemma ScoresOfBools(t: Tensor, decodeFloat: Word32 -> real)
    requires t.kind == Bool && !Fatal(t)
    ensures |Scores(t, decodeFloat).value| == |t.raw|
    ensures forall i :: 0 <= i < |t.raw| ==>
      Scores(t, decodeFloat).value[i] == if t.raw[i] != 0 then 1.0 else 0.0
  {
    forall i | 0 <= i < |t.raw|
      ensures Scores(t, decodeFloat).value[i] == if t.raw[i] != 0 then 1.0 else 0.0
    {
      assert Block(t, i) == [t.raw[i]];
    }
  }

  /** `Dequantize(output_tensor, results)`: on the fatal paths the worker task is
      deleted before any element is written. */
  method Dequantize(t: Tensor, decodeFloat: Word32 -> real, results: array<real>) returns (f: Fate<()>)
    requires Supported(t.kind) ==> results.Length == Count(t)
    modifies results
    ensures f.Done? <==> !Fatal(t)
    ensures f.TaskDeleted? ==> results[..] == old(results[..])
    ensures f.Done? ==> results[..] == Scores(t, decodeFloat).value
  {
    if t.quantized && t.scale == 0.0 {
      return TaskDeleted;
    }
    if !Supported(t.kind) {
      return TaskDeleted;
    }
    for i := 0 to results.Length
      invariant forall j :: 0 <= j < i ==> results[j] == Element(t, decodeFloat, j)
    {
      results[i] := Element(t, decodeFloat, i);
    }
    return Done(());
  }

  /** The scores at or above `threshold`, in their original order. */
  function Filter(xs: seq<real>, threshold: real): seq<real>
  {
    if xs == [] then []
    else
      var last := xs[|xs| - 1];
      Filter(xs[..|xs| - 1], threshold) + (if last < threshold then [] else [last])
  }

  /** The positions of the scores at or above `threshold`, in increasing
      order. */
  function Kept(xs: seq<real>, threshold: real): seq<nat>
  {
    if xs == [] then []
    else
      var n := |xs| - 1;
      Kept(xs[..n], threshold) + (if xs[n] < threshold then [] else [n])
  }

  /** The filter keeps exactly the scores at or above the threshold, in
      their original relative order: it is the subsequence of `xs` at the
      increasing positions `Kept(xs, threshold)`, and those are exactly the
      positions whose score is not below the threshold. */
  lemma {:induction false} FilterIsSubsequence(xs: seq<real>, threshold: real)
    ensures |Filter(xs, threshold)| == |Kept(xs, threshold)|
    ensures forall k :: 0 <= k < |Kept(xs, threshold)| ==>
      Kept(xs, threshold)[k] < |xs| && Filter(xs, threshold)[k] == xs[Kept(xs, threshold)[k]]
    ensures forall k, l :: 0 <= k < l < |Kept(xs, threshold)| ==> Kept(xs, threshold)[k] < Kept(xs, threshold)[l]
    ensures forall i :: 0 <= i < |xs| ==> (i in Kept(xs, threshold) <==> xs[i] >= threshold)
  {
    if xs != [] {
      var n := |xs| - 1;
      var front := xs[..n];
      FilterIsSubsequence(front, threshold);
      var ks := Kept(front, threshold);
      assert forall k :: 0 <= k < |ks| ==> front[ks[k]] == xs[ks[k]];
      assert forall i :: 0 <= i < n ==> front[i] == xs[i];
      if xs[n] < threshold {
        assert Kept(xs, threshold) == ks;
        assert Filter(xs, threshold) == Filter(front, threshold);
      } else {
        assert Kept(xs, threshold) == ks + [n];
        assert Filter(xs, threshold) == Filter(front, threshold) + [xs[n]];
      }
    }
  }

  /** As a multiset, the filter keeps every copy of a score at or above the
      threshold and no copy of the others. */
  lemma {:induction false} FilterMultiset(xs: seq<real>, threshold: real, x: real)
    ensures multiset(Filter(xs, threshold))[x] == if x < threshold then 0 else multiset(xs)[x]
  {
    if xs != [] {
      FilterMultiset(xs[..|xs| - 1], threshold, x);
      FilterMultisetStep(xs, threshold, x);
    }
  }

  /** The last score adds a copy of itself to the scores, and to the
      filter when it is at or above the threshold. */
  lemma FilterMultisetStep(xs: seq<real>, threshold: real, x: real)
    requires xs != []
    ensures var init, y := xs[..|xs| - 1], xs[|xs| - 1];
      && multiset(xs)[x] == multiset(init)[x] + (if x == y then 1 else 0)
      && multiset(Filter(xs, threshold))[x]
         == multiset(Filter(init, threshold))[x] + (if x == y && threshold <= y then 1 else 0)
  {
    var init, y := xs[..|xs| - 1], xs[|xs| - 1];
    assert xs == init + [y];
    CountSnoc(init, y, x);
    var kept := Filter(init, threshold);
    if y < threshold {
      assert Filter(xs, threshold) == kept;
    } else {
      assert Filter(xs, threshold) == kept + [y];
      CountSnoc(kept, y, x);
    }
  }

  /** A threshold no greater than any score leaves the scores as they are. */
  lemma {:induction false} FilterKeepsAll(xs: seq<real>, threshold: real)
    requires forall i :: 0 <= i < |xs| ==> threshold <= xs[i]
    ensures Filter(xs, threshold) == xs
  {
    if xs != [] {
      var n := |xs| - 1;
      FilterKeepsAll(xs[..n], threshold);
      assert xs == xs[..n] + [xs[n]];
    }
  }

  /** A threshold above every score erases them all. */
  lemma {:induction false} FilterDropsAll(xs: seq<real>, threshold: real)
    requires forall i :: 0 <= i < |xs| ==> xs[i] < threshold
    ensures Filter(xs, threshold) == []
  {
    if xs != [] {
      FilterDropsAll(xs[..|xs| - 1], threshold);
    }
  }

  /** Extending the input by one score extends the filter by that score
      when it is not below the threshold. */
  lemma FilterStep(all: seq<real>, k: nat, threshold: real)
    requires k < |all|
    ensures all[k] < threshold ==> Filter(all[..k + 1], threshold) == Filter(all[..k], threshold)
    ensures all[k] >= threshold ==> Filter(all[..k + 1], threshold) == Filter(all[..k], threshold) + [all[k]]
  {
    assert all[..k + 1][..k] == all[..k];
    assert Filter(all[..k], threshold) + [] == Filter(all[..k], threshold);
  }

  /** The erase loop's state: the first `k` scores filtered, then the rest
      of the scores untouched, with the iterator `i` just past the kept
      ones. */
  predicate EraseState(scores: seq<real>, threshold: real, k: nat, xs: seq<real>, i: nat)
  {
    && k <= |scores|
    && i == |Filter(scores[..k], threshold)|
    && xs == Filter(scores[..k], threshold) + scores[k..]
  }

  /** One step of the erase loop: the iterator points at score `k`;
      erasing it when it is below the threshold, or stepping past it,
      keeps the loop's state. */
  lemma EraseStep(scores: seq<real>, threshold: real, k: nat, xs: seq<real>, i: nat)
    requires EraseState(scores, threshold, k, xs, i) && k < |scores|
    ensures i < |xs| && xs[i] == scores[k]
    ensures xs[i] < threshold ==> EraseState(scores, threshold, k + 1, xs[..i] + xs[i + 1..], i)
    ensures xs[i] >= threshold ==> EraseState(scores, threshold, k + 1, xs, i + 1)
  {
    FilterStep(scores, k, threshold);
    var kept := Filter(scores[..k], threshold);
    assert scores[k..] == [scores[k]] + scores[k + 1..];
    Associate(kept, [scores[k]], scores[k + 1..]);
    assert xs[i] == scores[k];
    assert xs[..i] == kept && xs[i + 1..] == scores[k + 1..];
  }

  /** The erase loop of `GetResult`: walks the vector with an iterator,
      erasing each score below `threshold` and stepping past the others. */
  method EraseBelow(scores: seq<real>, threshold: real) returns (xs: seq<real>)
    ensures xs == Filter(scores, threshold)
  {
    xs := scores;
    ghost var k := 0;
    var i := 0;
    while i < |xs|
      invariant EraseState(scores, threshold, k, xs, i)
      invariant |xs| - i == |scores| - k
      decreases |xs| - i
    {
      EraseStep(scores, threshold, k, xs, i);
      if xs[i] < threshold {
        xs := xs[..i] + xs[i + 1..];
      } else {
        i := i + 1;
      }
      k := k + 1;
    }
    assert scores[..k] == scores;
  }

  /** `GetResult(output_tensor, threshold)`. */
  method GetResult(t: Tensor, decodeFloat: Word32 -> real, threshold: real) returns (f: Fate<seq<real>>)
    ensures Scores(t, decodeFloat).TaskDeleted? ==> f == TaskDeleted
    ensures Scores(t, decodeFloat).Done? ==> f == Done(Filter(Scores(t, decodeFloat).value, threshold))
  {
    var size := GetTypeSize(t.kind);
    if size.TaskDeleted? {
      return TaskDeleted;
    }
    var results := new real[|t.raw| / size.value](_ => 0.0);
    var status := Dequantize(t, decodeFloat, results);
    if status.TaskDeleted? {
      return TaskDeleted;
    }
    var xs := EraseBelow(results[..], threshold);
    return Done(xs);
  }
}
