/** The INT8 network description and its binary file format. */
module Int8Spec {
  import opened Basics

  /** Int8Op is stored in one byte; 0 is Dense, 1 is ReLU, and a loaded file may hold others. */
  const DENSE: byte := 0

  datatype Layer = Layer(op: byte, input: nat, output: nat, weights: seq<int8>, bias: seq<int8>)

  datatype Network = Network(layers: seq<Layer>)

  // ---------------------------------------------------------------- what a saved file holds

  const TWO32 := 0x1_0000_0000

  /** The four bytes "N8NW". */
  const MAGIC: seq<byte> := [78, 56, 78, 87]

  /** A count is cut to 32 bits and written low byte first. */
  function U32(v: nat): seq<byte> {
    [v % 0x100, v / 0x100 % 0x100, v / 0x1_0000 % 0x100, v / 0x100_0000 % 0x100]
  }

  function ToByte(x: int8): byte { if x < 0 then x + 256 else x }

  function FromByte(b: byte): int8 { if b >= 128 then b - 256 else b }

  function ToBytes(xs: seq<int8>): (r: seq<byte>)
    ensures |r| == |xs|
  {
    seq(|xs|, i requires 0 <= i < |xs| => ToByte(xs[i]))
  }

  function FromBytes(bs: seq<byte>): (r: seq<int8>)
    ensures |r| == |bs|
  {
    seq(|bs|, i requires 0 <= i < |bs| => FromByte(bs[i]))
  }

  function EncodeLayer(l: Layer): seq<byte> {
    [l.op] + U32(l.input) + U32(l.output) + U32(|l.weights|) + ToBytes(l.weights) + U32(|l.bias|) + ToBytes(l.bias)
  }

  function EncodeLayers(layers: seq<Layer>): seq<byte> {
    if layers == [] then [] else EncodeLayer(layers[0]) + EncodeLayers(layers[1..])
  }

  function Encode(net: Network): seq<byte> {
    MAGIC + U32(1) + U32(|net.layers|) + EncodeLayers(net.layers)
  }

  // ---------------------------------------------------------------- what a file is read as

  /** The value read and the bytes after it, or a failure that ends in a throw. */
  datatype Parsed<T> = Fail | Ok(value: T, rest: seq<byte>)

  function Take(bs: seq<byte>, n: nat): Parsed<seq<byte>> {
    if n <= |bs| then Ok(bs[..n], bs[n..]) else Fail
  }

  function U32Value(b: seq<byte>): nat
    requires |b| == 4
  {
    (b[0] as int) + 0x100 * (b[1] as int) + 0x1_0000 * (b[2] as int) + 0x100_0000 * (b[3] as int)
  }

  function ParseU32(bs: seq<byte>): Parsed<nat> {
    if |bs| >= 4 then Ok(U32Value(bs[..4]), bs[4..]) else Fail
  }

  function ParseInt8s(bs: seq<byte>): Parsed<seq<int8>> {
    match ParseU32(bs)
    case Fail => Fail
    case Ok(n, rest) =>
      match Take(rest, n)
      case Fail => Fail
      case Ok(b, rest) => Ok(FromBytes(b), rest)
  }

  function ParseLayer(bs: seq<byte>): Parsed<Layer> {
    if |bs| == 0 then Fail else
    match ParseU32(bs[1..])
    case Fail => Fail
    case Ok(input, rest) =>
      match ParseU32(rest)
      case Fail => Fail
      case Ok(output, rest) =>
        match ParseInt8s(rest)
        case Fail => Fail
        case Ok(weights, rest) =>
          match ParseInt8s(rest)
          case Fail => Fail
          case Ok(bias, rest) => Ok(Layer(bs[0], input, output, weights, bias), rest)
  }

  function ParseLayers(bs: seq<byte>, count: nat): Parsed<seq<Layer>>
    decreases count
  {
    if count == 0 then Ok([], bs) else
    match ParseLayer(bs)
    case Fail => Fail
    case Ok(l, rest) =>
      match ParseLayers(rest, count - 1)
      case Fail => Fail
      case Ok(ls, rest) => Ok([l] + ls, rest)
  }

  function ParseNetwork(bs: seq<byte>): Parsed<Network> {
    if |bs| < 4 || bs[..4] != MAGIC then Fail else
    match ParseU32(bs[4..])
    case Fail => Fail
    case Ok(version, rest) =>
      match ParseU32(rest)
      case Fail => Fail
      case Ok(count, rest) =>
        match ParseLayers(rest, count)
        case Fail => Fail
        case Ok(layers, rest) => Ok(Network(layers), rest)
  }

  datatype Loaded = Throws | Loads(net: Network)

  /** Loading ignores what follows the last layer. */
  function Decode(file: seq<byte>): Loaded {
    match ParseNetwork(file)
    case Fail => Throws
    case Ok(net, rest) => Loads(net)
  }

  // ---------------------------------------------------------------- round trip

  /** Every count of the network fits the 32-bit fields of the file. */
  predicate Storable(net: Network) {
    && |net.layers| < TWO32
    && forall i | 0 <= i < |net.layers| :: StorableLayer(net.layers[i])
  }

  predicate StorableLayer(l: Layer) {
    l.input < TWO32 && l.output < TWO32 && |l.weights| < TWO32 && |l.bias| < TWO32
  }

  lemma ParseOfU32(v: nat, s: seq<byte>)
    requires v < TWO32
    ensures ParseU32(U32(v) + s) == Ok(v, s)
  {
    assert (U32(v) + s)[..4] == U32(v) && (U32(v) + s)[4..] == s;
    assert v == v % 0x100 + 0x100 * (v / 0x100);
    assert v / 0x100 == v / 0x100 % 0x100 + 0x100 * (v / 0x1_0000);
    assert v / 0x1_0000 == v / 0x1_0000 % 0x100 + 0x100 * (v / 0x100_0000);
  }

  lemma ParseOfInt8s(xs: seq<int8>, s: seq<byte>)
    requires |xs| < TWO32
    ensures ParseInt8s(U32(|xs|) + ToBytes(xs) + s) == Ok(xs, s)
  {
    hide U32, ParseU32;
    var b := ToBytes(xs);
    assert U32(|xs|) + b + s == U32(|xs|) + (b + s);
    ParseOfU32(|xs|, b + s);
    assert (b + s)[..|xs|] == b && (b + s)[|xs|..] == s;
    assert FromBytes(b) == xs;
  }

  lemma ParseOfLayer(l: Layer, s: seq<byte>)
    requires StorableLayer(l)
    ensures ParseLayer(EncodeLayer(l) + s) == Ok(l, s)
  {
    hide U32, ParseU32, ParseInt8s, ToBytes;
    var fromBias := U32(|l.bias|) + ToBytes(l.bias) + s;
    var fromWeights := U32(|l.weights|) + ToBytes(l.weights) + fromBias;
    var fromOutput := U32(l.output) + fromWeights;
    var fromInput := U32(l.input) + fromOutput;
    assert EncodeLayer(l) + s == [l.op] + fromInput;
    ParseOfU32(l.input, fromOutput);
    ParseOfU32(l.output, fromWeights);
    ParseOfInt8s(l.weights, fromBias);
    ParseOfInt8s(l.bias, s);
  }

  lemma {:induction false} ParseOfLayers(layers: seq<Layer>, s: seq<byte>)
    requires forall i | 0 <= i < |layers| :: StorableLayer(layers[i])
    ensures ParseLayers(EncodeLayers(layers) + s, |layers|) == Ok(layers, s)
    decreases |layers|
  {
    hide ParseLayer, EncodeLayer, StorableLayer;
    if layers == [] {
      assert EncodeLayers(layers) + s == s;
    } else {
      var tail := EncodeLayers(layers[1..]) + s;
      assert EncodeLayers(layers) + s == EncodeLayer(layers[0]) + tail;
      ParseOfLayer(layers[0], tail);
      ParseOfLayers(layers[1..], s);
      assert [layers[0]] + layers[1..] == layers;
    }
  }

  lemma ParseOfEncoded(net: Network, s: seq<byte>)
    requires Storable(net)
    ensures ParseNetwork(Encode(net) + s) == Ok(net, s)
  {
    hide U32, ParseU32, ParseLayers, EncodeLayers, StorableLayer;
    var tail := EncodeLayers(net.layers) + s;
    var file := Encode(net) + s;
    assert file == MAGIC + (U32(1) + (U32(|net.layers|) + tail));
    assert file[..4] == MAGIC && file[4..] == U32(1) + (U32(|net.layers|) + tail);
    ParseOfU32(1, U32(|net.layers|) + tail);
    ParseOfU32(|net.layers|, tail);
    ParseOfLayers(net.layers, s);
  }

  // ---------------------------------------------------------------- reading is prefix-free

  lemma U32Extends(bs: seq<byte>, s: seq<byte>)
    requires ParseU32(bs).Ok?
    ensures ParseU32(bs + s) == Ok(ParseU32(bs).value, ParseU32(bs).rest + s)
  {
    assert (bs + s)[..4] == bs[..4] && (bs + s)[4..] == bs[4..] + s;
  }

  lemma Int8sExtend(bs: seq<byte>, s: seq<byte>)
    requires ParseInt8s(bs).Ok?
    ensures ParseInt8s(bs + s) == Ok(ParseInt8s(bs).value, ParseInt8s(bs).rest + s)
  {
    hide ParseU32;
    U32Extends(bs, s);
    var n, rest := ParseU32(bs).value, ParseU32(bs).rest;
    assert (rest + s)[..n] == rest[..n] && (rest + s)[n..] == rest[n..] + s;
  }

  lemma LayerExtends(bs: seq<byte>, s: seq<byte>)
    requires ParseLayer(bs).Ok?
    ensures ParseLayer(bs + s) == Ok(ParseLayer(bs).value, ParseLayer(bs).rest + s)
  {
    hide ParseU32, ParseInt8s;
    assert (bs + s)[1..] == bs[1..] + s;
    U32Extends(bs[1..], s);
    var fromOutput := ParseU32(bs[1..]).rest;
    U32Extends(fromOutput, s);
    var fromWeights := ParseU32(fromOutput).rest;
    Int8sExtend(fromWeights, s);
    Int8sExtend(ParseInt8s(fromWeights).rest, s);
  }

  lemma {:induction false} LayersExtend(bs: seq<byte>, count: nat, s: seq<byte>)
    requires ParseLayers(bs, count).Ok?
    ensures ParseLayers(bs + s, count) == Ok(ParseLayers(bs, count).value, ParseLayers(bs, count).rest + s)
    decreases count
  {
    hide ParseLayer;
    if count > 0 {
      LayerExtends(bs, s);
      LayersExtend(ParseLayer(bs).rest, count - 1, s);
    }
  }

  lemma NetworkExtends(bs: seq<byte>, s: seq<byte>)
    requires ParseNetwork(bs).Ok?
    ensures ParseNetwork(bs + s) == Ok(ParseNetwork(bs).value, ParseNetwork(bs).rest + s)
  {
    hide ParseU32, ParseLayers;
    assert (bs + s)[..4] == bs[..4] && (bs + s)[4..] == bs[4..] + s;
    U32Extends(bs[4..], s);
    var fromCount := ParseU32(bs[4..]).rest;
    U32Extends(fromCount, s);
    LayersExtend(ParseU32(fromCount).rest, ParseU32(fromCount).value, s);
  }

  // ---------------------------------------------------------------- only storable networks load

  lemma ParsedLayerStorable(bs: seq<byte>)
    requires ParseLayer(bs).Ok?
    ensures StorableLayer(ParseLayer(bs).value)
  {}

  lemma {:induction false} ParsedLayersStorable(bs: seq<byte>, count: nat)
    requires ParseLayers(bs, count).Ok?
    ensures var ls := ParseLayers(bs, count).value;
            |ls| == count && forall i | 0 <= i < |ls| :: StorableLayer(ls[i])
    decreases count
  {
    hide ParseLayer, StorableLayer;
    if count > 0 {
      ParsedLayerStorable(bs);
      ParsedLayersStorable(ParseLayer(bs).rest, count - 1);
    }
  }

  /** A number is stored low byte first in four bytes of the file. */
  predicate StoredAt(file: seq<byte>, at: nat, v: nat)
    requires at + 4 <= |file|
  {
    v == (file[at] as int) + 0x100 * (file[at + 1] as int) + 0x1_0000 * (file[at + 2] as int)
       + 0x100_0000 * (file[at + 3] as int)
  }

  /** Signed numbers are stored in two's complement. */
  predicate SignedAt(file: seq<byte>, at: nat, xs: seq<int8>)
    requires at + |xs| <= |file|
  {
    forall i | 0 <= i < |xs| :: ((file[at + i] as int) - (xs[i] as int)) % 0x100 == 0
  }

  /** Where the fields of a saved layer lie: the operation, the two sizes, the count of weights and
      the weights, the count of biases and the biases. */
  lemma LayerLayout(l: Layer)
    requires StorableLayer(l)
    ensures var e, w, b := EncodeLayer(l), |l.weights|, |l.bias|;
            && |e| == 17 + w + b && e[0] == l.op
            && StoredAt(e, 1, l.input) && StoredAt(e, 5, l.output)
            && StoredAt(e, 9, w) && SignedAt(e, 13, l.weights)
            && StoredAt(e, 13 + w, b) && SignedAt(e, 17 + w, l.bias)
  {
    hide U32, ToBytes, U32Value;
    var e, w, b := EncodeLayer(l), |l.weights|, |l.bias|;
    U32Means(l.input);
    U32Means(l.output);
    U32Means(w);
    U32Means(b);
    LayerSlices(l);
    StoredIn(e, 1, l.input);
    StoredIn(e, 5, l.output);
    StoredIn(e, 9, w);
    StoredIn(e, 13 + w, b);
    SignedIn(e, 13, l.weights);
    SignedIn(e, 17 + w, l.bias);
  }

  lemma LayerSlices(l: Layer)
    ensures var e, w, b := EncodeLayer(l), |l.weights|, |l.bias|;
            && |e| == 17 + w + b && e[0] == l.op
            && e[1..5] == U32(l.input) && e[5..9] == U32(l.output) && e[9..13] == U32(w)
            && e[13..13 + w] == ToBytes(l.weights)
            && e[13 + w..17 + w] == U32(b) && e[17 + w..17 + w + b] == ToBytes(l.bias)
  {
    hide U32, ToBytes;
    U32Length(l.input);
    U32Length(l.output);
    U32Length(|l.weights|);
    U32Length(|l.bias|);
  }

  lemma U32Length(v: nat)
    ensures |U32(v)| == 4
  {}

  lemma StoredIn(file: seq<byte>, at: nat, v: nat)
    requires at + 4 <= |file| && U32Value(file[at..at + 4]) == v
    ensures StoredAt(file, at, v)
  {}

  lemma SignedIn(file: seq<byte>, at: nat, xs: seq<int8>)
    requires at + |xs| <= |file| && file[at..at + |xs|] == ToBytes(xs)
    ensures SignedAt(file, at, xs)
  {
    hide ToBytes;
    forall i | 0 <= i < |xs| ensures ((file[at + i] as int) - (xs[i] as int)) % 0x100 == 0 {
      assert file[at..at + |xs|][i] == file[at + i];
      TwosComplement(xs, i);
    }
  }

  lemma TwosComplement(xs: seq<int8>, i: nat)
    requires i < |xs|
    ensures ((ToBytes(xs)[i] as int) - (xs[i] as int)) % 0x100 == 0
  {}

  /** The first bytes of a saved network: "N8NW", version 1, and the number of layers. */
  lemma HeaderIs(net: Network)
    ensures |Encode(net)| >= 12
    ensures Encode(net)[..8] == [0x4E, 0x38, 0x4E, 0x57, 1, 0, 0, 0]
    ensures |net.layers| < TWO32 ==> StoredAt(Encode(net), 8, |net.layers|)
    ensures Encode(net)[12..] == EncodeLayers(net.layers)
  {
    hide U32, EncodeLayers;
    var n := |net.layers|;
    OneInU32Length();
    U32Means(n);
    assert Encode(net) == MAGIC + [1, 0, 0, 0] + U32(n) + EncodeLayers(net.layers);
  }

  lemma OneInU32Length()
    ensures U32(1) == [1, 0, 0, 0]
  {}

  lemma U32Means(v: nat)
    ensures |U32(v)| == 4
    ensures v < TWO32 ==> v == U32Value(U32(v))
  {
    if v < TWO32 {
      ParseOfU32(v, []);
      assert (U32(v) + [])[..4] == U32(v);
    }
  }

  /** A saved network loads back as itself exactly when its counts fit in 32 bits. */
  lemma RoundTripExactly(net: Network)
    ensures Decode(Encode(net)) == Loads(net) <==> Storable(net)
  {
    hide ParseLayers, Encode;
    if Storable(net) {
      ParseOfEncoded(net, []);
      assert Encode(net) + [] == Encode(net);
    } else if Decode(Encode(net)) == Loads(net) {
      var file := Encode(net);
      var fromCount := ParseU32(file[4..]).rest;
      ParsedLayersStorable(ParseU32(fromCount).rest, ParseU32(fromCount).value);
    }
  }

  /** Bytes after a saved network are ignored. */
  lemma SuffixIgnored(net: Network, suffix: seq<byte>)
    requires Storable(net)
    ensures Decode(Encode(net) + suffix) == Loads(net)
  {
    ParseOfEncoded(net, suffix);
  }

  /** Every strict prefix of a saved network throws: had it loaded, the whole file would leave
      its last bytes unread. */
  lemma TruncationThrows(net: Network, k: nat)
    requires Storable(net) && k < |Encode(net)|
    ensures Decode(Encode(net)[..k]) == Throws
  {
    hide ParseNetwork, Encode;
    var file := Encode(net);
    ParseOfEncoded(net, []);
    assert file + [] == file;
    assert file[..k] + file[k..] == file;
    if ParseNetwork(file[..k]).Ok? {
      NetworkExtends(file[..k], file[k..]);
    }
  }

  // ---------------------------------------------------------------- all files that load

  lemma U32IsValue(b: seq<byte>)
    requires |b| == 4
    ensures U32Value(b) < TWO32 && U32(U32Value(b)) == b
  {
    var b0: int, b1: int, b2: int, b3: int := b[0], b[1], b[2], b[3];
    var v := U32Value(b);
    var two := b2 + 0x100 * b3;
    var three := b1 + 0x100 * two;
    ByteAndRest(b[2], b3);
    ByteAndRest(b[1], two);
    ByteAndRest(b[0], three);
    assert v == b0 + 0x100 * three;
    DivTwice256(v);
    DivTwice256(three);
  }

  lemma ByteAndRest(b: byte, rest: nat)
    ensures (b + 0x100 * rest) / 0x100 == rest && (b + 0x100 * rest) % 0x100 == b
  {}

  lemma DivTwice256(v: nat)
    ensures v / 0x1_0000 == v / 0x100 / 0x100 && v / 0x100_0000 == v / 0x100 / 0x1_0000
  {}

  lemma U32Back(bs: seq<byte>)
    requires ParseU32(bs).Ok?
    ensures ParseU32(bs).value < TWO32 && bs == U32(ParseU32(bs).value) + ParseU32(bs).rest
  {
    hide U32, U32Value;
    U32IsValue(bs[..4]);
  }

  lemma Int8sBack(bs: seq<byte>)
    requires ParseInt8s(bs).Ok?
    ensures var xs := ParseInt8s(bs).value;
            |xs| < TWO32 && bs == U32(|xs|) + ToBytes(xs) + ParseInt8s(bs).rest
  {
    hide U32, ParseU32;
    U32Back(bs);
    var n, rest := ParseU32(bs).value, ParseU32(bs).rest;
    assert ToBytes(FromBytes(rest[..n])) == rest[..n];
    assert rest == rest[..n] + rest[n..];
  }

  lemma LayerBack(bs: seq<byte>)
    requires ParseLayer(bs).Ok?
    ensures StorableLayer(ParseLayer(bs).value)
    ensures bs == EncodeLayer(ParseLayer(bs).value) + ParseLayer(bs).rest
  {
    hide U32, ParseU32, ParseInt8s, ToBytes;
    var l, rest := ParseLayer(bs).value, ParseLayer(bs).rest;
    U32Back(bs[1..]);
    var fromOutput := ParseU32(bs[1..]).rest;
    U32Back(fromOutput);
    var fromWeights := ParseU32(fromOutput).rest;
    Int8sBack(fromWeights);
    var fromBias := ParseInt8s(fromWeights).rest;
    Int8sBack(fromBias);
    assert bs == [l.op] + bs[1..];
    FieldsJoined([l.op], U32(l.input), U32(l.output), U32(|l.weights|) + ToBytes(l.weights),
                 U32(|l.bias|) + ToBytes(l.bias), rest);
    assert EncodeLayer(l) == [l.op] + U32(l.input) + U32(l.output) + (U32(|l.weights|) + ToBytes(l.weights))
                             + (U32(|l.bias|) + ToBytes(l.bias));
  }

  lemma FieldsJoined(a: seq<byte>, b: seq<byte>, c: seq<byte>, d: seq<byte>, e: seq<byte>, rest: seq<byte>)
    ensures a + b + c + d + e + rest == a + (b + (c + (d + (e + rest))))
  {}

  lemma {:induction false} LayersBack(bs: seq<byte>, count: nat)
    requires ParseLayers(bs, count).Ok?
    ensures var ls := ParseLayers(bs, count).value;
            |ls| == count && (forall i | 0 <= i < |ls| :: StorableLayer(ls[i]))
            && bs == EncodeLayers(ls) + ParseLayers(bs, count).rest
    decreases count
  {
    hide ParseLayer, EncodeLayer, StorableLayer;
    if count > 0 {
      LayerBack(bs);
      var l, rest := ParseLayer(bs).value, ParseLayer(bs).rest;
      LayersBack(rest, count - 1);
      var ls := ParseLayers(rest, count - 1).value;
      assert ([l] + ls)[1..] == ls;
    }
  }

  /** The file is the encoding of the network, with any version number and anything after it. */
  predicate IsFileOf(file: seq<byte>, net: Network) {
    var e := Encode(net);
    |file| >= |e| && file[..4] == MAGIC && file[8..|e|] == e[8..]
  }

  /** What the loader takes, completely: the files of networks whose counts fit 32 bits. */
  lemma LoadsExactly(file: seq<byte>, net: Network)
    ensures Decode(file) == Loads(net) <==> Storable(net) && IsFileOf(file, net)
  {
    hide Encode, ParseNetwork, Storable;
    if Decode(file) == Loads(net) {
      LoadedIsFile(file);
    }
    if Storable(net) && IsFileOf(file, net) {
      FileLoads(file, net);
    }
  }

  lemma LoadedIsFile(file: seq<byte>)
    requires ParseNetwork(file).Ok?
    ensures Storable(ParseNetwork(file).value) && IsFileOf(file, ParseNetwork(file).value)
  {
    hide U32, ParseU32, ParseLayers, EncodeLayers, StorableLayer;
    var net := ParseNetwork(file).value;
    U32Back(file[4..]);
    var fromCount := ParseU32(file[4..]).rest;
    U32Back(fromCount);
    var count, body := ParseU32(fromCount).value, ParseU32(fromCount).rest;
    LayersBack(body, count);
    U32Length(count);
    U32Length(1);
    U32Length(ParseU32(file[4..]).value);
    assert file[8..] == fromCount;
    assert Encode(net)[8..] == U32(count) + EncodeLayers(net.layers);
    assert fromCount == Encode(net)[8..] + ParseLayers(body, count).rest;
    assert |Encode(net)| == 8 + |Encode(net)[8..]|;
    assert file[8..|Encode(net)|] == fromCount[..|Encode(net)| - 8];
  }

  lemma FileLoads(file: seq<byte>, net: Network)
    requires Storable(net) && IsFileOf(file, net)
    ensures Decode(file) == Loads(net)
  {
    hide U32, ParseLayers, EncodeLayers, StorableLayer, U32Value;
    U32Length(|net.layers|);
    U32Length(1);
    var e := Encode(net);
    var tail := EncodeLayers(net.layers) + file[|e|..];
    assert e[8..] == U32(|net.layers|) + EncodeLayers(net.layers);
    assert file[8..] == file[8..|e|] + file[|e|..];
    assert file[8..] == U32(|net.layers|) + tail;
    assert file[4..][4..] == file[8..];
    ParseOfU32(|net.layers|, tail);
    ParseOfLayers(net.layers, file[|e|..]);
  }

  // ---------------------------------------------------------------- the methods

  method WriteU32(out: seq<byte>, v: nat) returns (out': seq<byte>)
    ensures out' == out + U32(v)
  {
    out' := out + [v % 0x100, v / 0x100 % 0x100, v / 0x1_0000 % 0x100, v / 0x100_0000 % 0x100];
  }

  method WriteLayer(out: seq<byte>, l: Layer) returns (out': seq<byte>)
    ensures out' == out + EncodeLayer(l)
  {
    hide U32, ToBytes;
    out' := out + [l.op];
    out' := WriteU32(out', l.input);
    out' := WriteU32(out', l.output);
    out' := WriteU32(out', |l.weights|);
    out' := out' + ToBytes(l.weights);
    out' := WriteU32(out', |l.bias|);
    out' := out' + ToBytes(l.bias);
  }

  /** save_network, with the file as the bytes written. */
  method SaveNetwork(net: Network) returns (file: seq<byte>)
    ensures file == Encode(net)
  {
    hide U32, EncodeLayer;
    file := MAGIC;
    file := WriteU32(file, 1);
    file := WriteU32(file, |net.layers|);
    ghost var header := file;
    assert EncodeLayers(net.layers[..0]) == [];
    for k := 0 to |net.layers|
      invariant file == header + EncodeLayers(net.layers[..k])
    {
      EncodeLast(net.layers, k);
      file := WriteLayer(file, net.layers[k]);
    }
    assert net.layers[..|net.layers|] == net.layers;
  }

  lemma {:induction false} EncodeLast(layers: seq<Layer>, k: nat)
    requires k < |layers|
    ensures EncodeLayers(layers[..k + 1]) == EncodeLayers(layers[..k]) + EncodeLayer(layers[k])
    decreases k
  {
    hide EncodeLayer;
    if k > 0 {
      assert layers[..k + 1][1..] == layers[1..][..k] && layers[..k][1..] == layers[1..][..k - 1];
      EncodeLast(layers[1..], k - 1);
    } else {
      assert layers[..1] == [layers[0]];
      assert EncodeLayers(layers[..1][1..]) == [];
      assert EncodeLayers(layers[..0]) == [];
    }
  }

  /** A binary input stream: a short read takes what is left and fails the stream for good. */
  class InStream {
    const data: seq<byte>
    var pos: nat
    var good: bool

    ghost predicate Valid()
      reads this
    {
      pos <= |data|
    }

    ghost function Rest(): seq<byte>
      reads this
      requires Valid()
    {
      data[pos..]
    }

    constructor (data: seq<byte>)
      ensures Valid() && good && Rest() == data
    {
      this.data, pos, good := data, 0, true;
    }

    method Read(n: nat) returns (bytes: seq<byte>)
      requires Valid()
      modifies this
      ensures Valid()
      ensures good <==> old(good) && n <= |old(Rest())|
      ensures good ==> bytes == old(Rest())[..n] && Rest() == old(Rest())[n..]
      ensures !good ==> |bytes| < n || !old(good)
    {
      if !good {
        bytes := [];
      } else if pos + n <= |data| {
        bytes := data[pos..pos + n];
        pos := pos + n;
      } else {
        bytes := data[pos..];
        pos, good := |data|, false;
      }
    }

    /** read_u32: `ok` is false where the source throws. */
    method ReadU32() returns (ok: bool, v: nat)
      requires Valid()
      modifies this
      ensures Valid() && good == ok
      ensures ok <==> old(good) && ParseU32(old(Rest())).Ok?
      ensures ok ==> ParseU32(old(Rest())) == Ok(v, Rest())
    {
      var b := Read(4);
      if !good {
        return false, 0;
      }
      ok, v := true, U32Value(b);
    }

    /** A count and that many signed bytes.  A short count throws; short data only fails the
        stream, and the vector keeps the values it was resized to. */
    method ReadInt8s() returns (ok: bool, xs: seq<int8>)
      requires Valid()
      modifies this
      ensures Valid()
      ensures ok <==> old(good) && ParseU32(old(Rest())).Ok?
      ensures good <==> old(good) && ParseInt8s(old(Rest())).Ok?
      ensures good ==> ok && ParseInt8s(old(Rest())) == Ok(xs, Rest())
    {
      hide U32Value;
      var n;
      ok, n := ReadU32();
      if !ok {
        return false, [];
      }
      var b := Read(n);
      xs := if good then FromBytes(b) else seq(n, _ => 0);
    }
  }

  /** One layer.  A failed read is noticed by the next count that is read; when only the bias
      bytes are short the stream is left failed and `ok` is still true. */
  method LoadLayer(ins: InStream) returns (ok: bool, l: Layer)
    requires ins.Valid()
    modifies ins
    ensures ins.Valid()
    ensures ins.good <==> old(ins.good) && ParseLayer(old(ins.Rest())).Ok?
    ensures ins.good ==> ok && ParseLayer(old(ins.Rest())) == Ok(l, ins.Rest())
  {
    hide ParseU32, ParseInt8s;
    l := Layer(0, 0, 0, [], []);
    var op := ins.Read(1);
    var input, output, weights, bias;
    ok, input := ins.ReadU32();
    if !ok {
      return;
    }
    ok, output := ins.ReadU32();
    if !ok {
      return;
    }
    ok, weights := ins.ReadInt8s();
    if !ok {
      return;
    }
    ok, bias := ins.ReadInt8s();
    if !ok {
      return;
    }
    l := Layer(op[0], input, output, weights, bias);
  }

  /** load_network: a stream that failed on the last bias is caught after the loop. */
  method LoadNetwork(file: seq<byte>) returns (r: Loaded)
    ensures r == Decode(file)
  {
    hide ParseU32, ParseLayer, ParseLayers;
    var ins := new InStream(file);
    var magic := ins.Read(4);
    if magic != MAGIC {
      return Throws;
    }
    var ok, version := ins.ReadU32();
    if !ok {
      return Throws;
    }
    var count;
    ok, count := ins.ReadU32();
    if !ok {
      return Throws;
    }
    ghost var body := ins.Rest();
    var layers := [];
    PrependNone(ParseLayers(body, count));
    for k := 0 to count
      invariant ins.Valid() && fresh(ins)
      invariant !ins.good ==> ParseLayers(body, count) == Fail
      invariant ins.good ==> ParseLayers(body, count) == Prepended(layers, ParseLayers(ins.Rest(), count - k))
    {
      ghost var here := ins.Rest();
      var l;
      ok, l := LoadLayer(ins);
      PrependOne(layers, l, here, ins.Rest(), count - k);
      if !ok {
        return Throws;
      }
      layers := layers + [l];
    }
    if !ins.good {
      return Throws;
    }
    AllParsed(layers, ins.Rest());
    r := Loads(Network(layers));
  }

  lemma AllParsed(layers: seq<Layer>, rest: seq<byte>)
    ensures Prepended(layers, ParseLayers(rest, 0)) == Ok(layers, rest)
  {
    assert layers + [] == layers;
  }

  lemma PrependNone(p: Parsed<seq<Layer>>)
    ensures Prepended([], p) == p
  {
    if p.Ok? {
      assert [] + p.value == p.value;
    }
  }

  ghost function Prepended(front: seq<Layer>, p: Parsed<seq<Layer>>): Parsed<seq<Layer>> {
    match p
    case Fail => Fail
    case Ok(ls, rest) => Ok(front + ls, rest)
  }

  lemma PrependOne(front: seq<Layer>, l: Layer, bs: seq<byte>, rest: seq<byte>, n: nat)
    requires n > 0
    ensures ParseLayer(bs) == Fail ==> Prepended(front, ParseLayers(bs, n)) == Fail
    ensures ParseLayer(bs) == Ok(l, rest) ==>
              Prepended(front, ParseLayers(bs, n)) == Prepended(front + [l], ParseLayers(rest, n - 1))
  {
    hide ParseLayer;
    if ParseLayers(rest, n - 1).Ok? {
      var ls := ParseLayers(rest, n - 1).value;
      assert front + ([l] + ls) == front + [l] + ls;
    }
  }
}
