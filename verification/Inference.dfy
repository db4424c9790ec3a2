/** Layered INT8 inference on top of the matrix product. */
module Inference {
  import opened Basics
  import opened Bits
  import opened Int8Kernel
  import opened MatmulThreads
  import opened Int8Spec

  datatype CreatureModel = CreatureModel(sensor: Network, core: Network, appendage: Network)

  const DEFAULT_MAX_MODEL_BYTES := 64 * 1024

  // ---------------------------------------------------------------- what a layer means

  /** The weighted sum that feeds output i of a dense layer. */
  function WeightedSum(l: Layer, x: seq<int8>, i: nat): int {
    Dot(ProductOf(l, x), 0, i, l.input)
  }

  /** The kernel saturates the sum first and the bias is then added and saturated again. */
  function DenseOutput(l: Layer, x: seq<int8>, i: nat): int8 {
    Clamp(Clamp(WeightedSum(l, x, i)) + At(l.bias, i))
  }

  /** Any operation code other than Dense is treated as ReLU. */
  function EvalLayer(l: Layer, x: seq<int8>): (y: seq<int8>)
    ensures |y| == OutputSize(l, |x|)
  {
    if l.op == DENSE then seq(l.output, i requires 0 <= i < l.output => DenseOutput(l, x, i))
    else seq(|x|, i requires 0 <= i < |x| => if x[i] < 0 then 0 else x[i])
  }

  function OutputSize(l: Layer, n: nat): nat {
    if l.op == DENSE then l.output else n
  }

  function EvalLayers(layers: seq<Layer>, x: seq<int8>): seq<int8> {
    if layers == [] then x else EvalLayers(layers[1..], EvalLayer(layers[0], x))
  }

  /** The layer finds enough inputs, weights and biases for the counts it declares; one without
      outputs reads nothing. */
  predicate Fits(l: Layer, n: nat) {
    l.op == DENSE && l.output > 0 ==>
      l.input <= n && |l.weights| >= l.input * l.output && |l.bias| >= l.output
  }

  predicate AllFit(layers: seq<Layer>, n: nat) {
    layers != [] ==> Fits(layers[0], n) && AllFit(layers[1..], OutputSize(layers[0], n))
  }

  function ProductOf(l: Layer, x: seq<int8>): Problem { Problem(x, l.weights, 1, l.output, l.input) }

  /** No weighted sum on the way to the result leaves 32 bits. */
  ghost predicate AllSumsFit(layers: seq<Layer>, x: seq<int8>) {
    layers != [] ==>
      (layers[0].op == DENSE ==> SumsFit(ProductOf(layers[0], x))) && AllSumsFit(layers[1..], EvalLayer(layers[0], x))
  }

  /** Saturating before the bias gives the same as saturating once, unless the sum saturates and
      the bias pulls back. */
  lemma DoubleClampExactly(sum: int, bias: int8)
    ensures Clamp(Clamp(sum) + bias) == Clamp(sum + bias)
       <==> !(sum > 127 && bias < 0) && !(sum < -128 && bias > 0)
  {}

  /** Output i of a dense layer, from the dot product and the bias: their clamped sum, unless the
      dot product saturates and the bias pulls back from the limit. */
  lemma DenseOutputIs(l: Layer, x: seq<int8>, i: nat)
    requires l.op == 0 && i < l.output && Fits(l, |x|)
    ensures var sum := Dot(Problem(x, l.weights, 1, l.output, l.input), 0, i, l.input);
            var y := EvalLayer(l, x);
            && |y| == l.output
            && (sum > 127 && l.bias[i] < 0 ==> y[i] == 127 + l.bias[i])
            && (sum < -128 && l.bias[i] > 0 ==> y[i] == -128 + l.bias[i])
            && (!(sum > 127 && l.bias[i] < 0) && !(sum < -128 && l.bias[i] > 0) ==> y[i] == Clamp(sum + l.bias[i]))
  {
    hide Dot;
    DoubleClampExactly(WeightedSum(l, x, i), l.bias[i]);
  }

  /** Any other layer keeps the size and replaces each entry by the larger of it and 0. */
  lemma ReluOutputIs(l: Layer, x: seq<int8>, j: nat)
    requires l.op != 0 && j < |x|
    ensures |EvalLayer(l, x)| == |x| && EvalLayer(l, x)[j] == Max(0, x[j])
  {}

  // ---------------------------------------------------------------- composition

  lemma {:induction false} EvalConcat(a: seq<Layer>, b: seq<Layer>, x: seq<int8>)
    ensures EvalLayers(a + b, x) == EvalLayers(b, EvalLayers(a, x))
    decreases |a|
  {
    hide EvalLayer;
    if a == [] {
      assert a + b == b;
    } else {
      assert (a + b)[1..] == a[1..] + b;
      EvalConcat(a[1..], b, EvalLayer(a[0], x));
    }
  }

  function SizeAfter(layers: seq<Layer>, n: nat): nat {
    if layers == [] then n else SizeAfter(layers[1..], OutputSize(layers[0], n))
  }

  lemma {:induction false} EvalSize(layers: seq<Layer>, x: seq<int8>)
    ensures |EvalLayers(layers, x)| == SizeAfter(layers, |x|)
    decreases |layers|
  {
    hide EvalLayer;
    if layers != [] {
      EvalSize(layers[1..], EvalLayer(layers[0], x));
    }
  }

  lemma {:induction false} FitConcat(a: seq<Layer>, b: seq<Layer>, n: nat)
    ensures AllFit(a + b, n) <==> AllFit(a, n) && AllFit(b, SizeAfter(a, n))
    decreases |a|
  {
    hide Fits;
    if a == [] {
      assert a + b == b;
    } else {
      assert (a + b)[1..] == a[1..] + b;
      FitConcat(a[1..], b, OutputSize(a[0], n));
    }
  }

  /** The last layer of a list is applied last. */
  lemma EvalLast(layers: seq<Layer>, k: nat, x: seq<int8>)
    requires k < |layers|
    ensures EvalLayers(layers[..k + 1], x) == EvalLayer(layers[k], EvalLayers(layers[..k], x))
  {
    hide EvalLayer;
    assert layers[..k + 1] == layers[..k] + [layers[k]];
    EvalConcat(layers[..k], [layers[k]], x);
    var y := EvalLayers(layers[..k], x);
    assert [layers[k]][1..] == [];
    assert EvalLayers([], EvalLayer(layers[k], y)) == EvalLayer(layers[k], y);
  }

  /** What a network computes, layer by layer from the input on. */
  lemma NetworkByLayers(layers: seq<Layer>, x: seq<int8>, k: nat)
    requires k < |layers|
    ensures EvalLayers(layers[..0], x) == x && EvalLayers(layers[..|layers|], x) == EvalLayers(layers, x)
    ensures EvalLayers(layers[..k + 1], x) == EvalLayer(layers[k], EvalLayers(layers[..k], x))
  {
    EvalLast(layers, k, x);
    assert layers[..|layers|] == layers;
  }

  lemma {:induction false} FitAt(layers: seq<Layer>, k: nat, n: nat)
    requires AllFit(layers, n) && k < |layers|
    ensures Fits(layers[k], SizeAfter(layers[..k], n))
    decreases k
  {
    hide Fits;
    if k > 0 {
      assert layers[..k][1..] == layers[1..][..k - 1];
      FitAt(layers[1..], k - 1, OutputSize(layers[0], n));
    }
  }

  lemma SumsFitAt(layers: seq<Layer>, k: nat, x: seq<int8>)
    requires AllSumsFit(layers, x) && k < |layers| && layers[k].op == DENSE
    ensures SumsFit(ProductOf(layers[k], EvalLayers(layers[..k], x)))
    decreases k
  {
    hide SumsFit, EvalLayer;
    if k > 0 {
      assert layers[..k][1..] == layers[1..][..k - 1];
      SumsFitAt(layers[1..], k - 1, EvalLayer(layers[0], x));
    }
  }

  // ---------------------------------------------------------------- the methods

  /** eval_network: with layers that fit and sums within 32 bits, every access is in range and the result is the
      composition of the layers. */
  method EvalNetwork(net: Network, input: seq<int8>, hardware: nat, setting: Option<int>) returns (cur: seq<int8>)
    requires AllFit(net.layers, |input|) && AllSumsFit(net.layers, input)
    ensures cur == EvalLayers(net.layers, input)
  {
    hide EvalLayer, Fits, SumsFit;
    cur := input;
    for k := 0 to |net.layers|
      invariant cur == EvalLayers(net.layers[..k], input)
    {
      var l := net.layers[k];
      FitAt(net.layers, k, |input|);
      EvalSize(net.layers[..k], input);
      EvalLast(net.layers, k, input);
      if l.op == DENSE {
        SumsFitAt(net.layers, k, input);
        cur := DenseStep(l, cur, hardware, setting);
      } else {
        cur := ReluStep(l, cur);
      }
    }
    assert net.layers[..|net.layers|] == net.layers;
  }

  method DenseStep(l: Layer, x: seq<int8>, hardware: nat, setting: Option<int>) returns (y: seq<int8>)
    requires l.op == DENSE && Fits(l, |x|) && SumsFit(ProductOf(l, x))
    ensures y == EvalLayer(l, x)
  {
    hide Dot, Clamp;
    var c := ProductOf(l, x);
    assert 1 * l.input == l.input;
    var next := Int8Matmul(c, hardware, setting);
    ghost var sums := next[..];
    assert |sums| == l.output;
    for i := 0 to l.output
      invariant forall j | 0 <= j < i :: next[j] == DenseOutput(l, x, j)
      invariant forall j | i <= j < l.output :: next[j] == sums[j]
    {
      assert Cell(c, sums, 0, i);
      assert 0 * c.N + i == i;
      next[i] := Clamp((next[i] as int) + (l.bias[i] as int));
    }
    y := next[..];
  }

  method ReluStep(l: Layer, x: seq<int8>) returns (y: seq<int8>)
    requires l.op != DENSE
    ensures y == EvalLayer(l, x)
  {
    var next := new int8[|x|];
    for i := 0 to |x|
      invariant forall j | 0 <= j < i :: next[j] == if x[j] < 0 then 0 else x[j]
    {
      next[i] := if x[i] < 0 then 0 else x[i];
    }
    y := next[..];
  }

  function NetworkBytes(layers: seq<Layer>): nat {
    if layers == [] then 0
    else NetworkBytes(layers[..|layers| - 1]) + |layers[|layers| - 1].weights| + |layers[|layers| - 1].bias|
  }

  method NetworkByteSize(net: Network) returns (bytes: nat)
    ensures bytes == NetworkBytes(net.layers)
  {
    bytes := 0;
    for k := 0 to |net.layers|
      invariant bytes == NetworkBytes(net.layers[..k])
    {
      assert net.layers[..k + 1][..k] == net.layers[..k];
      bytes := bytes + |net.layers[k].weights| + |net.layers[k].bias|;
    }
    assert net.layers[..|net.layers|] == net.layers;
  }

  lemma {:induction false} BytesConcat(a: seq<Layer>, b: seq<Layer>)
    ensures NetworkBytes(a + b) == NetworkBytes(a) + NetworkBytes(b)
    decreases |b|
  {
    if b == [] {
      assert a + b == a;
    } else {
      var n := |b| - 1;
      assert (a + b)[..|a| + n] == a + b[..n];
      BytesConcat(a, b[..n]);
    }
  }

  function AllLayers(m: CreatureModel): seq<Layer> {
    m.sensor.layers + m.core.layers + m.appendage.layers
  }

  /** The bytes of a network are those of its saved layers, less 17 of header for each. */
  lemma {:induction false} BytesAreSaved(layers: seq<Layer>)
    ensures |EncodeLayers(layers)| == NetworkBytes(layers) + 17 * |layers|
    decreases |layers|
  {
    if layers != [] {
      BytesAreSaved(layers[1..]);
      assert layers == [layers[0]] + layers[1..];
      BytesConcat([layers[0]], layers[1..]);
      assert [layers[0]][..0] == [];
    }
  }

  lemma BytesOfLayer(layers: seq<Layer>, k: nat)
    requires k < |layers|
    ensures |layers[k].weights| <= NetworkBytes(layers)
    decreases |layers|
  {
    if k + 1 < |layers| {
      BytesOfLayer(layers[..|layers| - 1], k);
    }
  }

  /** A model within the size limit has too few weights for any sum to leave 32 bits. */
  lemma SmallModelSumsFit(layers: seq<Layer>, x: seq<int8>)
    requires AllFit(layers, |x|)
    requires forall k | 0 <= k < |layers| :: |layers[k].weights| <= DEFAULT_MAX_MODEL_BYTES
    ensures AllSumsFit(layers, x)
    decreases |layers|
  {
    hide SumsFit, EvalLayer;
    if layers != [] {
      var l := layers[0];
      if l.op == DENSE {
        if l.output > 0 {
          MulLe(1, l.output, l.input);
          ShortSumsFit(ProductOf(l, x));
        } else {
          NoSums(ProductOf(l, x));
        }
      }
      SmallModelSumsFit(layers[1..], EvalLayer(l, x));
    }
  }

  lemma NoSums(c: Problem)
    requires c.N == 0
    ensures SumsFit(c)
  {}

  lemma SumsFitConcat(a: seq<Layer>, b: seq<Layer>, x: seq<int8>)
    ensures AllSumsFit(a + b, x) <==> AllSumsFit(a, x) && AllSumsFit(b, EvalLayers(a, x))
    decreases |a|
  {
    hide SumsFit, EvalLayer;
    if a == [] {
      assert a + b == b;
    } else {
      assert (a + b)[1..] == a[1..] + b;
      SumsFitConcat(a[1..], b, EvalLayer(a[0], x));
    }
  }

  /** run_inference: a model over the size limit throws, whatever its layers; otherwise the
      result is that of one network made of all the layers in order. */
  method RunInference(model: CreatureModel, input: seq<int8>, hardware: nat, setting: Option<int>)
    returns (out: Option<seq<int8>>)
    requires NetworkBytes(AllLayers(model)) > DEFAULT_MAX_MODEL_BYTES || AllFit(AllLayers(model), |input|)
    ensures out == None <==> NetworkBytes(model.sensor.layers) + NetworkBytes(model.core.layers)
                             + NetworkBytes(model.appendage.layers) > 65536
    ensures out.Some? ==>
              out.value == EvalLayers(model.sensor.layers + model.core.layers + model.appendage.layers, input)
    ensures out.Some? ==>
              out.value == EvalLayers(model.appendage.layers,
                                      EvalLayers(model.core.layers, EvalLayers(model.sensor.layers, input)))
  {
    hide AllFit, EvalLayers, NetworkBytes, AllSumsFit;
    var a, b, d := model.sensor.layers, model.core.layers, model.appendage.layers;
    BytesConcat(a + b, d);
    BytesConcat(a, b);
    var bytesSensor := NetworkByteSize(model.sensor);
    var bytesCore := NetworkByteSize(model.core);
    var bytesAppendage := NetworkByteSize(model.appendage);
    if bytesSensor + bytesCore + bytesAppendage > DEFAULT_MAX_MODEL_BYTES {
      return None;
    }
    SmallModelParts(a, b, d, input);
    var s := EvalNetwork(model.sensor, input, hardware, setting);
    var e := EvalNetwork(model.core, s, hardware, setting);
    var r := EvalNetwork(model.appendage, e, hardware, setting);
    out := Some(r);
  }

  /** The three networks one after the other: each fits what the one before leaves. */
  lemma SmallModelParts(a: seq<Layer>, b: seq<Layer>, d: seq<Layer>, x: seq<int8>)
    requires AllFit(a + b + d, |x|) && NetworkBytes(a + b + d) <= DEFAULT_MAX_MODEL_BYTES
    ensures var y := EvalLayers(a, x);
            var z := EvalLayers(b, y);
            && AllFit(a, |x|) && AllFit(b, |y|) && AllFit(d, |z|)
            && AllSumsFit(a, x) && AllSumsFit(b, y) && AllSumsFit(d, z)
            && EvalLayers(a + b + d, x) == EvalLayers(d, z)
  {
    hide AllFit, EvalLayers, NetworkBytes, AllSumsFit;
    forall k | 0 <= k < |a + b + d| ensures |(a + b + d)[k].weights| <= DEFAULT_MAX_MODEL_BYTES {
      BytesOfLayer(a + b + d, k);
    }
    SmallModelSumsFit(a + b + d, x);
    SumsFitConcat(a + b, d, x);
    SumsFitConcat(a, b, x);
    FitConcat(a + b, d, |x|);
    FitConcat(a, b, |x|);
    EvalConcat(a + b, d, x);
    EvalConcat(a, b, x);
    EvalSize(a, x);
    EvalSize(a + b, x);
  }
}
