/**
 The layerwise layout of models with shared indexers: every layer becomes a row of
 segments with the same slot sizes, ghosts standing in for the tensors it lacks.
 */
module SegmentRows {
  import opened Wrappers
  import opened Arithmetic
  import opened VectoredCopy

  datatype Tensor = Tensor(ptr: nat, bytesPerBlock: nat, bufferSize: nat)

  datatype Segment = Segment(ptr: nat, copySize: nat, blockStride: nat, bufferSize: nat)

  // The indexer of a layer: none of its own, one plain tensor, or a small one with a scale.
  datatype Indexer = Shared | Bf16(tensor: Tensor) | C8(chunk: Tensor, scale: Tensor)

  datatype Layer = Layer(sfa: seq<Tensor>, indexer: Indexer)

  datatype Mode = PlainMode | C8Mode | MixedMode

  // The slot sizes after the attention tensors.
  datatype Sizes = Sizes(indexer: nat, chunk: nat, scale: nat)

  // --------------------------------------------------------------- slots of a row

  // What stands in a slot: nothing, or part of one of the layer's tensors.
  datatype Slot = Ghost(size: nat) | Part(tensor: nat, offset: nat, size: nat, registers: bool)

  // The attention tensors, then those of the indexer.
  function Tensors(layer: Layer): seq<Tensor> {
    layer.sfa + match layer.indexer case Shared => [] case Bf16(t) => [t] case C8(t, s) => [t, s]
  }

  function IndexerSlots(layer: Layer, mode: Mode, z: Sizes): Result<seq<Slot>> {
    var n := |layer.sfa|;
    match mode
    case PlainMode =>
      Ok(match layer.indexer
         case Shared => [Ghost(z.indexer)]
         case Bf16(t) => [Part(n, 0, t.bytesPerBlock, true)]
         case C8(t, _) => [Part(n, 0, t.bytesPerBlock, true)])
    case C8Mode =>
      Ok(match layer.indexer
         case C8(t, s) => [Part(n, 0, t.bytesPerBlock, true), Part(n + 1, 0, s.bytesPerBlock, true)]
         case _ => [Ghost(z.chunk), Ghost(z.scale)])
    case MixedMode =>
      match layer.indexer
      case C8(_, s) => Ok([Part(n, 0, z.chunk, true), Ghost(z.chunk), Part(n + 1, 0, s.bytesPerBlock, true)])
      case Bf16(t) =>
        if t.bytesPerBlock != 2 * z.chunk then Err("cannot split the indexer tensor")
        else Ok([Part(n, 0, z.chunk, true), Part(n, z.chunk, z.chunk, false), Ghost(z.scale)])
      case Shared => Ok([Ghost(z.chunk), Ghost(z.chunk), Ghost(z.scale)])
  }

  function Slots(layer: Layer, mode: Mode, z: Sizes): Result<seq<Slot>> {
    match IndexerSlots(layer, mode, z)
    case Err(e) => Err(e)
    case Ok(rest) => Ok(seq(|layer.sfa|, i requires 0 <= i < |layer.sfa| => Part(i, 0, layer.sfa[i].bytesPerBlock, true)) + rest)
  }

  // The segment of a slot. A later part of a tensor registers no buffer of its own.
  function SegmentOf(layer: Layer, slot: Slot): Segment
    requires slot.Part? ==> slot.tensor < |Tensors(layer)|
  {
    match slot
    case Ghost(size) => Segment(0, size, 0, 0)
    case Part(k, offset, size, registers) =>
      var t := Tensors(layer)[k];
      Segment(t.ptr + offset, size, t.bytesPerBlock, if registers then t.bufferSize else 0)
  }

  ghost predicate IsRow(row: seq<Segment>, layer: Layer, mode: Mode, z: Sizes) {
    && Slots(layer, mode, z).Ok?
    && |row| == |Slots(layer, mode, z).value|
    && forall s :: 0 <= s < |row| ==>
         var slot := Slots(layer, mode, z).value[s];
         (slot.Part? ==> slot.tensor < |Tensors(layer)|) && row[s] == SegmentOf(layer, slot)
  }

  // ------------------------------------------------------------------ building rows

  function WholeTensor(t: Tensor): Segment { Segment(t.ptr, t.bytesPerBlock, t.bytesPerBlock, t.bufferSize) }

  function GhostSegment(size: nat): Segment { Segment(0, size, 0, 0) }

  method BuildSegmentRow(layer: Layer, mode: Mode, z: Sizes) returns (r: Result<seq<Segment>>)
    ensures r.Ok? <==> Slots(layer, mode, z).Ok?
    ensures r.Ok? ==> IsRow(r.value, layer, mode, z)
  {
    var segments := [];
    for i := 0 to |layer.sfa|
      invariant |segments| == i && forall k :: 0 <= k < i ==> segments[k] == WholeTensor(layer.sfa[k])
    {
      segments := segments + [WholeTensor(layer.sfa[i])];
    }
    match mode {
      case PlainMode =>
        match layer.indexer {
          case Shared => segments := segments + [GhostSegment(z.indexer)];
          case Bf16(t) => segments := segments + [WholeTensor(t)];
          case C8(t, _) => segments := segments + [WholeTensor(t)];
        }
      case C8Mode =>
        if layer.indexer.C8? {
          segments := segments + [WholeTensor(layer.indexer.chunk), WholeTensor(layer.indexer.scale)];
        } else {
          segments := segments + [GhostSegment(z.chunk), GhostSegment(z.scale)];
        }
      case MixedMode =>
        match layer.indexer {
          case C8(t, s) =>
            segments := segments + [Segment(t.ptr, z.chunk, t.bytesPerBlock, t.bufferSize), GhostSegment(z.chunk), WholeTensor(s)];
          case Bf16(t) =>
            if t.bytesPerBlock != 2 * z.chunk {
              return Err("cannot split the indexer tensor");
            }
            segments := segments + [Segment(t.ptr, z.chunk, t.bytesPerBlock, t.bufferSize),
                                    Segment(t.ptr + z.chunk, z.chunk, t.bytesPerBlock, 0), GhostSegment(z.scale)];
          case Shared =>
            segments := segments + [GhostSegment(z.chunk), GhostSegment(z.chunk), GhostSegment(z.scale)];
        }
    }
    r := Ok(segments);
  }

  // ------------------------------------------------------------- collecting layers

  // A layer from its tensors: the first `base` are attention, the rest the indexer.
  function LayerOf(row: seq<Tensor>, base: nat): Layer {
    var n := if base <= |row| then base else |row|;
    Layer(row[..n], if |row| == n then Shared else if |row| == n + 1 then Bf16(row[n]) else C8(row[n], row[n + 1]))
  }

  // A layer keeps the tensors of its row in their order.
  lemma LayerKeepsTensors(row: seq<Tensor>, base: nat)
    requires |row| <= base + 2
    ensures Tensors(LayerOf(row, base)) == row
    ensures |LayerOf(row, base).sfa| == if base <= |row| then base else |row|
  {
  }

  function Layers(rows: seq<seq<Tensor>>, base: nat): seq<Layer> {
    seq(|rows|, i requires 0 <= i < |rows| => LayerOf(rows[i], base))
  }

  function SizesOf(tensors: seq<Tensor>): (r: seq<nat>)
    ensures |r| == |tensors|
  {
    seq(|tensors|, i requires 0 <= i < |tensors| => tensors[i].bytesPerBlock)
  }

  ghost predicate HasC8(layers: seq<Layer>) { exists i :: 0 <= i < |layers| && layers[i].indexer.C8? }

  ghost predicate HasBf16(layers: seq<Layer>) { exists i :: 0 <= i < |layers| && layers[i].indexer.Bf16? }

  // The attention tensors agree in size, and so do the indexer tensors of each kind.
  ghost predicate WellSized(layers: seq<Layer>, base: seq<nat>, mode: Mode, z: Sizes) {
    && (mode.PlainMode? <==> HasBf16(layers) && !HasC8(layers))
    && (mode.C8Mode? <==> HasC8(layers) && !HasBf16(layers))
    && forall i :: 0 <= i < |layers| ==>
         && SizesOf(layers[i].sfa) == base
         && (layers[i].indexer.C8? ==> layers[i].indexer.chunk.bytesPerBlock == z.chunk && layers[i].indexer.scale.bytesPerBlock == z.scale)
         && (layers[i].indexer.Bf16? ==> layers[i].indexer.tensor.bytesPerBlock == if mode.PlainMode? then z.indexer else 2 * z.chunk)
  }

  // The tensors a layout accepts: enough attention tensors in every row, not too many
  // others, some indexer, and sizes that agree.
  ghost predicate Acceptable(rows: seq<seq<Tensor>>, base: nat, maxExtra: nat) {
    && 0 < |rows| && base <= |rows[0]|
    && (forall i :: 0 <= i < |rows| ==> base <= |rows[i]| <= base + maxExtra)
    && (HasC8(Layers(rows, base)) || HasBf16(Layers(rows, base)))
    && exists mode, z :: WellSized(Layers(rows, base), SizesOf(Layers(rows, base)[0].sfa), mode, z)
  }

  // The one value of a nonempty list of equal values.
  method ValidateUniform(values: seq<nat>) returns (r: Result<nat>)
    ensures r.Ok? <==> 0 < |values| && forall i :: 0 <= i < |values| ==> values[i] == values[0]
    ensures r.Ok? ==> forall i :: 0 <= i < |values| ==> values[i] == r.value
  {
    if values == [] {
      return Err("no sizes");
    }
    for i := 0 to |values|
      invariant forall k :: 0 <= k < i ==> values[k] == values[0]
    {
      if values[i] != values[0] {
        return Err("sizes differ");
      }
    }
    r := Ok(values[0]);
  }

  method CollectLayers(rows: seq<seq<Tensor>>, base: nat, maxExtra: nat) returns (r: Result<seq<Layer>>)
    requires 0 < |rows|
    ensures r.Ok? <==> base <= |rows[0]| && forall i :: 0 <= i < |rows| ==>
              |rows[i]| <= base + maxExtra && SizesOf(LayerOf(rows[i], base).sfa) == SizesOf(LayerOf(rows[0], base).sfa)
    ensures r.Ok? ==> r.value == Layers(rows, base)
  {
    if |rows[0]| < base {
      return Err("no attention tensors");
    }
    var layers := [];
    for i := 0 to |rows|
      invariant layers == Layers(rows[..i], base)
      invariant forall k :: 0 <= k < i ==>
                  |rows[k]| <= base + maxExtra && SizesOf(LayerOf(rows[k], base).sfa) == SizesOf(LayerOf(rows[0], base).sfa)
    {
      var layer := LayerOf(rows[i], base);
      if SizesOf(layer.sfa) != SizesOf(LayerOf(rows[0], base).sfa) || |rows[i]| > base + maxExtra {
        return Err("unsupported tensors");
      }
      layers := layers + [layer];
    }
    assert rows[..|rows|] == rows;
    r := Ok(layers);
  }

  // The sizes of the plain indexers, of the small ones, and of their scales.
  function Bf16Sizes(layers: seq<Layer>): seq<nat> {
    if layers == [] then []
    else
      var early, last := Bf16Sizes(layers[..|layers| - 1]), layers[|layers| - 1].indexer;
      if last.Bf16? then early + [last.tensor.bytesPerBlock] else early
  }

  function ChunkSizes(layers: seq<Layer>): seq<nat> {
    if layers == [] then []
    else
      var early, last := ChunkSizes(layers[..|layers| - 1]), layers[|layers| - 1].indexer;
      if last.C8? then early + [last.chunk.bytesPerBlock] else early
  }

  function ScaleSizes(layers: seq<Layer>): seq<nat> {
    if layers == [] then []
    else
      var early, last := ScaleSizes(layers[..|layers| - 1]), layers[|layers| - 1].indexer;
      if last.C8? then early + [last.scale.bytesPerBlock] else early
  }

  method CollectSizes(layers: seq<Layer>) returns (bf16: seq<nat>, chunks: seq<nat>, scales: seq<nat>)
    ensures bf16 == Bf16Sizes(layers) && chunks == ChunkSizes(layers) && scales == ScaleSizes(layers)
  {
    bf16, chunks, scales := [], [], [];
    for n := 0 to |layers|
      invariant bf16 == Bf16Sizes(layers[..n]) && chunks == ChunkSizes(layers[..n]) && scales == ScaleSizes(layers[..n])
    {
      assert layers[..n + 1][..n] == layers[..n];
      match layers[n].indexer {
        case Shared =>
        case Bf16(t) => bf16 := bf16 + [t.bytesPerBlock];
        case C8(t, s) => chunks, scales := chunks + [t.bytesPerBlock], scales + [s.bytesPerBlock];
      }
    }
    assert layers[..|layers|] == layers;
  }

  ghost predicate AllAre(values: seq<nat>, v: nat) {
    forall i :: 0 <= i < |values| ==> values[i] == v
  }

  lemma {:induction false} Bf16SizesMeaning(layers: seq<Layer>, v: nat)
    ensures Bf16Sizes(layers) != [] <==> HasBf16(layers)
    ensures AllAre(Bf16Sizes(layers), v) <==>
            forall i :: 0 <= i < |layers| && layers[i].indexer.Bf16? ==> layers[i].indexer.tensor.bytesPerBlock == v
  {
    if layers != [] {
      Bf16SizesMeaning(layers[..|layers| - 1], v);
      LastDecides(Bf16Sizes(layers[..|layers| - 1]), Bf16Sizes(layers), v);
      assert forall i :: 0 <= i < |layers| - 1 ==> layers[..|layers| - 1][i] == layers[i];
    }
  }

  lemma {:induction false} ChunkSizesMeaning(layers: seq<Layer>, v: nat)
    ensures ChunkSizes(layers) != [] <==> HasC8(layers)
    ensures AllAre(ChunkSizes(layers), v) <==>
            forall i :: 0 <= i < |layers| && layers[i].indexer.C8? ==> layers[i].indexer.chunk.bytesPerBlock == v
  {
    if layers != [] {
      ChunkSizesMeaning(layers[..|layers| - 1], v);
      LastDecides(ChunkSizes(layers[..|layers| - 1]), ChunkSizes(layers), v);
      assert forall i :: 0 <= i < |layers| - 1 ==> layers[..|layers| - 1][i] == layers[i];
    }
  }

  lemma {:induction false} ScaleSizesMeaning(layers: seq<Layer>, v: nat)
    ensures ScaleSizes(layers) != [] <==> HasC8(layers)
    ensures AllAre(ScaleSizes(layers), v) <==>
            forall i :: 0 <= i < |layers| && layers[i].indexer.C8? ==> layers[i].indexer.scale.bytesPerBlock == v
  {
    if layers != [] {
      ScaleSizesMeaning(layers[..|layers| - 1], v);
      LastDecides(ScaleSizes(layers[..|layers| - 1]), ScaleSizes(layers), v);
      assert forall i :: 0 <= i < |layers| - 1 ==> layers[..|layers| - 1][i] == layers[i];
    }
  }

  lemma LastDecides(early: seq<nat>, all: seq<nat>, v: nat)
    requires early == all || (|all| == |early| + 1 && all[..|early|] == early)
    ensures AllAre(all, v) <==> AllAre(early, v) && (all == early || all[|early|] == v)
  {
    if AllAre(all, v) {
      assert forall i :: 0 <= i < |early| ==> early[i] == all[i];
    }
  }

  // ------------------------------------------------------------- the whole layout

  ghost predicate AreRows(r: seq<seq<Segment>>, layers: seq<Layer>, mode: Mode, z: Sizes) {
    |r| == |layers| && forall i :: 0 <= i < |r| ==> IsRow(r[i], layers[i], mode, z)
  }

  ghost predicate ModeFits(layers: seq<Layer>, mode: Mode) {
    && (mode.PlainMode? <==> HasBf16(layers) && !HasC8(layers))
    && (mode.C8Mode? <==> HasC8(layers) && !HasBf16(layers))
  }

  // The slot sizes that the tensors of a mode dictate.
  ghost predicate SizesFit(layers: seq<Layer>, mode: Mode, z: Sizes) {
    && AllAre(ChunkSizes(layers), z.chunk) && AllAre(ScaleSizes(layers), z.scale)
    && (mode.PlainMode? ==> AllAre(Bf16Sizes(layers), z.indexer))
  }

  lemma WellSizedFits(layers: seq<Layer>, base: seq<nat>, mode: Mode, z: Sizes)
    ensures WellSized(layers, base, mode, z) <==>
            && ModeFits(layers, mode) && SizesFit(layers, mode, z)
            && (forall i :: 0 <= i < |layers| ==> SizesOf(layers[i].sfa) == base)
            && (forall i :: 0 <= i < |layers| && layers[i].indexer.Bf16? && !mode.PlainMode? ==>
                  layers[i].indexer.tensor.bytesPerBlock == 2 * z.chunk)
  {
    Bf16SizesMeaning(layers, z.indexer);
    ChunkSizesMeaning(layers, z.chunk);
    ScaleSizesMeaning(layers, z.scale);
  }

  // Chooses the mode and the slot sizes; Err when the sizes of one kind differ.
  method ChooseMode(layers: seq<Layer>) returns (r: Result<(Mode, Sizes)>)
    ensures r.Ok? ==> (HasC8(layers) || HasBf16(layers)) && ModeFits(layers, r.value.0) && SizesFit(layers, r.value.0, r.value.1)
    ensures r.Err? && (HasC8(layers) || HasBf16(layers)) ==>
              forall mode, z :: ModeFits(layers, mode) ==> !SizesFit(layers, mode, z)
  {
    var bf16, chunks, scales := CollectSizes(layers);
    Bf16SizesMeaning(layers, 0);
    ChunkSizesMeaning(layers, 0);
    ScaleSizesMeaning(layers, 0);
    if chunks == [] && bf16 == [] {
      return Err("no indexer layer");
    }
    if chunks == [] {
      var indexer := ValidateUniform(bf16);
      if indexer.Err? {
        return Err("indexer sizes differ");
      }
      return Ok((PlainMode, Sizes(indexer.value, 0, 0)));
    }
    var chunk := ValidateUniform(chunks);
    var scale := ValidateUniform(scales);
    if chunk.Err? || scale.Err? {
      return Err("sizes differ");
    }
    r := Ok((if bf16 == [] then C8Mode else MixedMode, Sizes(0, chunk.value, scale.value)));
  }

  method BuildSegmentRows(layers: seq<Layer>, mode: Mode, z: Sizes) returns (r: Result<seq<seq<Segment>>>)
    ensures r.Ok? <==> forall i :: 0 <= i < |layers| ==> Slots(layers[i], mode, z).Ok?
    ensures r.Ok? ==> AreRows(r.value, layers, mode, z)
  {
    var rows := [];
    for i := 0 to |layers|
      invariant |rows| == i && forall k :: 0 <= k < i ==> IsRow(rows[k], layers[k], mode, z)
    {
      var row := BuildSegmentRow(layers[i], mode, z);
      if row.Err? {
        return Err("cannot split the indexer tensor");
      }
      rows := rows + [row.value];
    }
    r := Ok(rows);
  }

  // The whole layout, with the layers, mode and slot sizes it chose.
  method BuildAscendLayout(rows: seq<seq<Tensor>>, sfaC8: bool, liC8: bool)
      returns (r: Result<seq<seq<Segment>>>, layers: seq<Layer>, mode: Mode, z: Sizes)
    ensures r.Ok? <==> Acceptable(rows, if sfaC8 then 1 else 2, if liC8 then 2 else 1)
    ensures r.Ok? ==>
              && layers == Layers(rows, if sfaC8 then 1 else 2)
              && WellSized(layers, SizesOf(layers[0].sfa), mode, z)
              && AreRows(r.value, layers, mode, z)
  {
    layers, mode, z := [], MixedMode, Sizes(0, 0, 0);
    var base, maxExtra := if sfaC8 then 1 else 2, if liC8 then 2 else 1;
    if rows == [] || rows[0] == [] {
      r := Err("no tensors");
      return;
    }
    var collected := CollectLayers(rows, base, maxExtra);
    CollectedIff(rows, base, maxExtra, collected.Ok?);
    if collected.Err? {
      r := Err("unsupported tensors");
      return;
    }
    layers := collected.value;
    var chosen := ChooseMode(layers);
    if chosen.Err? {
      if HasC8(layers) || HasBf16(layers) {
        NothingFits(layers);
      }
      r := Err("no common sizes");
      return;
    }
    mode, z := chosen.value.0, chosen.value.1;
    r := BuildSegmentRows(layers, mode, z);
    BuiltIffWellSized(layers, SizesOf(layers[0].sfa), mode, z);
  }

  lemma CollectedIff(rows: seq<seq<Tensor>>, base: nat, maxExtra: nat, collected: bool)
    requires 0 < |rows| && 0 < base
    requires collected <==> base <= |rows[0]| && forall i :: 0 <= i < |rows| ==>
               |rows[i]| <= base + maxExtra && SizesOf(LayerOf(rows[i], base).sfa) == SizesOf(LayerOf(rows[0], base).sfa)
    ensures collected ==> forall i :: 0 <= i < |rows| ==>
              base <= |rows[i]| <= base + maxExtra && SizesOf(Layers(rows, base)[i].sfa) == SizesOf(Layers(rows, base)[0].sfa)
    ensures Acceptable(rows, base, maxExtra) ==> collected
  {
    if collected {
      forall i | 0 <= i < |rows| ensures base <= |rows[i]| {
        assert |SizesOf(LayerOf(rows[i], base).sfa)| == |SizesOf(LayerOf(rows[0], base).sfa)|;
      }
    }
    if Acceptable(rows, base, maxExtra) {
      var layers := Layers(rows, base);
      var mode, z :| WellSized(layers, SizesOf(layers[0].sfa), mode, z);
      forall i | 0 <= i < |rows| ensures SizesOf(LayerOf(rows[i], base).sfa) == SizesOf(LayerOf(rows[0], base).sfa) {
        assert layers[i] == LayerOf(rows[i], base);
      }
    }
  }

  lemma NothingFits(layers: seq<Layer>)
    requires forall mode, z :: ModeFits(layers, mode) ==> !SizesFit(layers, mode, z)
    ensures forall base, mode, z :: !WellSized(layers, base, mode, z)
  {
    forall base, mode, z ensures !WellSized(layers, base, mode, z) {
      WellSizedFits(layers, base, mode, z);
    }
  }

  // With the mode and sizes that fit, every row splits exactly when the layout is
  // well sized; no other mode or sizes do better.
  lemma BuiltIffWellSized(layers: seq<Layer>, base: seq<nat>, mode: Mode, z: Sizes)
    requires HasC8(layers) || HasBf16(layers)
    requires ModeFits(layers, mode) && SizesFit(layers, mode, z)
    requires forall i :: 0 <= i < |layers| ==> SizesOf(layers[i].sfa) == base
    ensures (forall i :: 0 <= i < |layers| ==> Slots(layers[i], mode, z).Ok?) <==> WellSized(layers, base, mode, z)
    ensures (exists m, y :: WellSized(layers, base, m, y)) ==> WellSized(layers, base, mode, z)
  {
    WellSizedFits(layers, base, mode, z);
    forall m, y | WellSized(layers, base, m, y) ensures WellSized(layers, base, mode, z) {
      WellSizedFits(layers, base, m, y);
      if HasC8(layers) {
        var i :| 0 <= i < |layers| && layers[i].indexer.C8?;
        ChunkSizesMeaning(layers, z.chunk);
        ChunkSizesMeaning(layers, y.chunk);
      }
    }
  }

  // ------------------------------------------------------------ sizes of all rows

  // The slot sizes every row of a layout has.
  function SlotSizes(base: seq<nat>, mode: Mode, z: Sizes): seq<nat> {
    base + match mode
           case PlainMode => [z.indexer]
           case C8Mode => [z.chunk, z.scale]
           case MixedMode => [z.chunk, z.chunk, z.scale]
  }

  function CopySizes(row: seq<Segment>): (r: seq<nat>)
    ensures |r| == |row|
  {
    seq(|row|, s requires 0 <= s < |row| => row[s].copySize)
  }

  // All rows of a layout copy the same slot sizes, whatever tensors their layers have.
  lemma RowsCopyTheSameSizes(layers: seq<Layer>, base: seq<nat>, mode: Mode, z: Sizes, i: nat, row: seq<Segment>)
    requires WellSized(layers, base, mode, z) && i < |layers| && IsRow(row, layers[i], mode, z)
    ensures CopySizes(row) == SlotSizes(base, mode, z)
  {
    var slots := Slots(layers[i], mode, z).value;
    forall s | 0 <= s < |base| ensures CopySizes(row)[s] == base[s] {
      assert SizesOf(layers[i].sfa)[s] == base[s];
      assert slots[s] == Part(s, 0, layers[i].sfa[s].bytesPerBlock, true);
    }
  }

  // ------------------------------------------------------- rows in device memory

  // The address of a segment in one block.
  function SegmentAddr(seg: Segment, block: nat): nat {
    block * seg.blockStride + seg.ptr
  }

  function RowAddrs(row: seq<Segment>, block: nat): (r: seq<nat>)
    ensures |r| == |row|
  {
    seq(|row|, s requires 0 <= s < |row| => SegmentAddr(row[s], block))
  }

  // Ghost segments stay at the null address in every block; real ones never are.
  lemma GhostsStayNull(row: seq<Segment>, layer: Layer, mode: Mode, z: Sizes, block: nat, s: nat)
    requires IsRow(row, layer, mode, z) && s < |row|
    requires forall k :: 0 <= k < |Tensors(layer)| ==> 0 < Tensors(layer)[k].ptr
    ensures RowAddrs(row, block)[s] == 0 <==> Slots(layer, mode, z).value[s].Ghost?
  {
    if row[s].blockStride == 0 {
      assert block * row[s].blockStride == 0;
    }
    assert block * row[s].blockStride >= 0;
  }

  // The tensors of a layer lie apart in a device memory with some blocks.
  ghost predicate Placed(layer: Layer, blocks: nat, device: nat) {
    var ts := Tensors(layer);
    && (forall k :: 0 <= k < |ts| ==> 0 < ts[k].ptr && ts[k].ptr + blocks * ts[k].bytesPerBlock <= device)
    && (forall k, l :: 0 <= k < l < |ts| ==>
          Apart(ts[k].ptr, blocks * ts[k].bytesPerBlock, ts[l].ptr, blocks * ts[l].bytesPerBlock))
  }

  function BlockStart(t: Tensor, block: nat): nat {
    block * t.bytesPerBlock + t.ptr
  }

  // A part lies inside its tensor's block, and parts of one tensor do not overlap.
  lemma PartsInside(layers: seq<Layer>, base: seq<nat>, mode: Mode, z: Sizes, i: nat)
    requires WellSized(layers, base, mode, z) && i < |layers|
    ensures Slots(layers[i], mode, z).Ok?
    ensures var slots, ts := Slots(layers[i], mode, z).value, Tensors(layers[i]);
            && (forall s :: 0 <= s < |slots| && slots[s].Part? ==>
                  slots[s].tensor < |ts| && slots[s].offset + slots[s].size <= ts[slots[s].tensor].bytesPerBlock)
            && (forall s, t :: 0 <= s < t < |slots| && slots[s].Part? && slots[t].Part? ==>
                  slots[s].tensor != slots[t].tensor || Apart(slots[s].offset, slots[s].size, slots[t].offset, slots[t].size))
  {
  }

  // Every byte of a tensor's block lies in some part.
  lemma PartsCover(layers: seq<Layer>, base: seq<nat>, mode: Mode, z: Sizes, i: nat, k: nat, x: nat) returns (s: nat)
    requires WellSized(layers, base, mode, z) && i < |layers|
    requires k < |Tensors(layers[i])| && x < Tensors(layers[i])[k].bytesPerBlock
    ensures Slots(layers[i], mode, z).Ok?
    ensures var slots := Slots(layers[i], mode, z).value;
            s < |slots| && slots[s].Part? && slots[s].tensor == k && slots[s].offset <= x < slots[s].offset + slots[s].size
  {
    var layer := layers[i];
    var slots := Slots(layer, mode, z).value;
    var n := |layer.sfa|;
    if k < n {
      s := k;
      assert slots[s] == Part(k, 0, layer.sfa[k].bytesPerBlock, true);
    } else if k == n {
      s := if layer.indexer.Bf16? && mode.MixedMode? && z.chunk <= x then n + 1 else n;
      assert slots[n].Part? && slots[n].tensor == n;
    } else {
      s := if mode.MixedMode? then n + 2 else n + 1;
      assert layer.indexer.C8?;
    }
  }

  // The order of a row: the attention tensors, then the indexer's data, in one slot or in
  // the two halves of a mixed layout, and its scale last.
  lemma PartsInOrder(layer: Layer, mode: Mode, z: Sizes, s: nat)
    requires Slots(layer, mode, z).Ok? && s < |Slots(layer, mode, z).value| && Slots(layer, mode, z).value[s].Part?
    ensures var slot, n := Slots(layer, mode, z).value[s], |layer.sfa|;
            && (s <= n ==> slot.tensor == s && slot.offset == 0)
            && (s == n + 1 && !mode.C8Mode? ==> slot.tensor == n && slot.offset == z.chunk)
            && (s == n + 1 && mode.C8Mode? ==> slot.tensor == n + 1 && slot.offset == 0)
            && (s == n + 2 ==> slot.tensor == n + 1 && slot.offset == 0)
            && s <= n + 2
  {
  }

  // Every tensor of a layer is registered with its whole buffer by the segment at its
  // start, and by no other.
  lemma BuffersRegisteredOnce(layers: seq<Layer>, base: seq<nat>, mode: Mode, z: Sizes, i: nat, row: seq<Segment>, k: nat) returns (s: nat)
    requires WellSized(layers, base, mode, z) && i < |layers| && IsRow(row, layers[i], mode, z) && k < |Tensors(layers[i])|
    ensures s < |row| && row[s].ptr == Tensors(layers[i])[k].ptr && row[s].bufferSize == Tensors(layers[i])[k].bufferSize
    ensures var slots := Slots(layers[i], mode, z).value;
            && slots[s].Part? && slots[s].tensor == k
            && forall t :: 0 <= t < |row| && t != s && (slots[t].Ghost? || slots[t].tensor == k) ==> row[t].bufferSize == 0
  {
    var layer, n := layers[i], |layers[i].sfa|;
    var slots := Slots(layer, mode, z).value;
    s := if k <= n then k else if mode.MixedMode? then n + 2 else n + 1;
    if k < n {
      assert slots[k] == Part(k, 0, layer.sfa[k].bytesPerBlock, true);
    }
    forall t | 0 <= t < n ensures slots[t] == Part(t, 0, layer.sfa[t].bytesPerBlock, true) {
    }
  }

  // Addresses in two blocks of one tensor are at least a block apart.
  lemma BlocksApart(size: nat, b: nat, c: nat)
    requires b < c
    ensures b * size + size <= c * size
  {
    MulMonotone(b + 1, c, size);
  }

  // Where a part lies in one block.
  lemma PartAddr(row: seq<Segment>, layer: Layer, mode: Mode, z: Sizes, b: nat, s: nat)
    requires IsRow(row, layer, mode, z) && s < |row| && Slots(layer, mode, z).value[s].Part?
    ensures var slot := Slots(layer, mode, z).value[s];
            && slot.tensor < |Tensors(layer)|
            && SegmentAddr(row[s], b) == BlockStart(Tensors(layer)[slot.tensor], b) + slot.offset
            && row[s].copySize == slot.size
  {
  }

  // A part lies inside its tensor.
  lemma PartInTensor(t: Tensor, blocks: nat, b: nat, offset: nat, size: nat)
    requires b < blocks && offset + size <= t.bytesPerBlock
    ensures t.ptr <= BlockStart(t, b) + offset && BlockStart(t, b) + offset + size <= t.ptr + blocks * t.bytesPerBlock
  {
    BlocksApart(t.bytesPerBlock, b, blocks);
  }

  // Parts of one tensor in two blocks, or apart in one block, do not overlap.
  lemma PartsApart(t: Tensor, b: nat, c: nat, o: nat, n: nat, p: nat, m: nat)
    requires o + n <= t.bytesPerBlock && p + m <= t.bytesPerBlock && (b != c || Apart(o, n, p, m))
    ensures Apart(BlockStart(t, b) + o, n, BlockStart(t, c) + p, m)
  {
    if b < c { BlocksApart(t.bytesPerBlock, b, c); }
    if c < b { BlocksApart(t.bytesPerBlock, c, b); }
  }

  // Real segments of different blocks, and of one block, never overlap.
  lemma SegmentsApart(layers: seq<Layer>, base: seq<nat>, mode: Mode, z: Sizes, i: nat, row: seq<Segment>,
                      blocks: nat, device: nat, b: nat, c: nat, s: nat, t: nat)
    requires WellSized(layers, base, mode, z) && i < |layers| && IsRow(row, layers[i], mode, z)
    requires Placed(layers[i], blocks, device) && b < blocks && c < blocks && s < |row| && t < |row| && (b != c || s != t)
    requires Slots(layers[i], mode, z).value[s].Part? && Slots(layers[i], mode, z).value[t].Part?
    ensures Apart(SegmentAddr(row[s], b), row[s].copySize, SegmentAddr(row[t], c), row[t].copySize)
  {
    PartsInside(layers, base, mode, z, i);
    PartAddr(row, layers[i], mode, z, b, s);
    PartAddr(row, layers[i], mode, z, c, t);
    var x, y := Slots(layers[i], mode, z).value[s], Slots(layers[i], mode, z).value[t];
    SlotsApart(Tensors(layers[i]), blocks, b, c, x, y);
  }

  lemma SlotsApart(ts: seq<Tensor>, blocks: nat, b: nat, c: nat, x: Slot, y: Slot)
    requires b < blocks && c < blocks && x.Part? && y.Part? && x.tensor < |ts| && y.tensor < |ts|
    requires x.offset + x.size <= ts[x.tensor].bytesPerBlock && y.offset + y.size <= ts[y.tensor].bytesPerBlock
    requires b == c ==> x.tensor != y.tensor || Apart(x.offset, x.size, y.offset, y.size)
    requires forall k, l :: 0 <= k < l < |ts| ==>
               Apart(ts[k].ptr, blocks * ts[k].bytesPerBlock, ts[l].ptr, blocks * ts[l].bytesPerBlock)
    ensures Apart(BlockStart(ts[x.tensor], b) + x.offset, x.size, BlockStart(ts[y.tensor], c) + y.offset, y.size)
  {
    var t, u := ts[x.tensor], ts[y.tensor];
    if x.tensor == y.tensor {
      PartsApart(t, b, c, x.offset, x.size, y.offset, y.size);
    } else {
      PartInTensor(t, blocks, b, x.offset, x.size);
      PartInTensor(u, blocks, c, y.offset, y.size);
      assert Apart(t.ptr, blocks * t.bytesPerBlock, u.ptr, blocks * u.bytesPerBlock);
      ApartWithin(t.ptr, blocks * t.bytesPerBlock, u.ptr, blocks * u.bytesPerBlock,
                  BlockStart(t, b) + x.offset, x.size, BlockStart(u, c) + y.offset, y.size);
    }
  }

  // ------------------------------------------------------------ dump and load again

  // The device vectors of one row for some blocks.
  function BlockVectors(row: seq<Segment>, blocks: seq<nat>): (r: seq<seq<nat>>)
    ensures |r| == |blocks| && forall i :: 0 <= i < |r| ==> r[i] == RowAddrs(row, blocks[i])
  {
    seq(|blocks|, i requires 0 <= i < |blocks| => RowAddrs(row, blocks[i]))
  }

  ghost predicate InBlocksOf(blocks: seq<nat>, n: nat) {
    forall i :: 0 <= i < |blocks| ==> blocks[i] < n
  }

  // One row of a layout, placed in a memory, with host blocks for its transfers.
  ghost predicate Setting(layers: seq<Layer>, base: seq<nat>, mode: Mode, z: Sizes, i: nat, row: seq<Segment>,
                          sources: seq<nat>, targets: seq<nat>, hosts: seq<nat>, n: nat, dev: nat, hostBytes: nat)
  {
    && WellSized(layers, base, mode, z) && i < |layers| && IsRow(row, layers[i], mode, z) && Placed(layers[i], n, dev)
    && |sources| == |targets| == |hosts| && InBlocksOf(sources, n) && InBlocksOf(targets, n)
    && (forall p, q :: 0 <= p < q < |targets| ==> targets[p] != targets[q])
    && (forall p :: 0 <= p < |hosts| ==> hosts[p] + Total(CopySizes(row), |row|) <= hostBytes)
    && HostsApart(hosts, Total(CopySizes(row), |row|))
  }

  lemma RowFits(layers: seq<Layer>, base: seq<nat>, mode: Mode, z: Sizes, i: nat, row: seq<Segment>, n: nat, dev: nat, b: nat,
                host: nat, hostBytes: nat)
    requires WellSized(layers, base, mode, z) && i < |layers| && IsRow(row, layers[i], mode, z) && Placed(layers[i], n, dev) && b < n
    requires host + Total(CopySizes(row), |row|) <= hostBytes
    ensures SlotsFit(RowAddrs(row, b), CopySizes(row), host, dev, hostBytes)
  {
    PartsInside(layers, base, mode, z, i);
    var slots, ts := Slots(layers[i], mode, z).value, Tensors(layers[i]);
    forall s | 0 <= s < |row| && Real(RowAddrs(row, b), CopySizes(row), s)
      ensures RowAddrs(row, b)[s] + CopySizes(row)[s] <= dev
    {
      GhostsStayNull(row, layers[i], mode, z, b, s);
      BlocksApart(ts[slots[s].tensor].bytesPerBlock, b, n);
    }
  }

  // The same segments are real in every block.
  lemma RowKeepsShape(row: seq<Segment>, layer: Layer, mode: Mode, z: Sizes, b: nat, c: nat)
    requires IsRow(row, layer, mode, z) && forall k :: 0 <= k < |Tensors(layer)| ==> 0 < Tensors(layer)[k].ptr
    ensures SameShape(RowAddrs(row, b), RowAddrs(row, c), CopySizes(row))
  {
    forall s | 0 <= s < |row| ensures RowAddrs(row, b)[s] == 0 <==> RowAddrs(row, c)[s] == 0 {
      GhostsStayNull(row, layer, mode, z, b, s);
      GhostsStayNull(row, layer, mode, z, c, s);
    }
  }

  lemma RowVectorsApart(layers: seq<Layer>, base: seq<nat>, mode: Mode, z: Sizes, i: nat, row: seq<Segment>,
                        targets: seq<nat>, n: nat, dev: nat)
    requires WellSized(layers, base, mode, z) && i < |layers| && IsRow(row, layers[i], mode, z) && Placed(layers[i], n, dev)
    requires InBlocksOf(targets, n) && forall p, q :: 0 <= p < q < |targets| ==> targets[p] != targets[q]
    ensures DeviceApart(BlockVectors(row, targets), CopySizes(row))
  {
    var b, sizes := BlockVectors(row, targets), CopySizes(row);
    forall p, q, s, t | 0 <= p < |b| && 0 <= q < |b| && 0 <= s < |sizes| && 0 <= t < |sizes| && (p != q || s != t) &&
                        Real(b[p], sizes, s) && Real(b[q], sizes, t)
      ensures Apart(b[p][s], sizes[s], b[q][t], sizes[t])
    {
      GhostsStayNull(row, layers[i], mode, z, targets[p], s);
      GhostsStayNull(row, layers[i], mode, z, targets[q], t);
      SegmentsApart(layers, base, mode, z, i, row, n, dev, targets[p], targets[q], s, t);
    }
  }

  lemma RowIsTransferable(layers: seq<Layer>, base: seq<nat>, mode: Mode, z: Sizes, i: nat, row: seq<Segment>,
                          sources: seq<nat>, targets: seq<nat>, hosts: seq<nat>, n: nat, dev: nat, hostBytes: nat)
    requires Setting(layers, base, mode, z, i, row, sources, targets, hosts, n, dev, hostBytes)
    ensures Transferable(BlockVectors(row, sources), BlockVectors(row, targets), hosts, CopySizes(row), dev, hostBytes, dev)
  {
    forall p | 0 <= p < |hosts|
      ensures SlotsFit(RowAddrs(row, sources[p]), CopySizes(row), hosts[p], dev, hostBytes)
      ensures SlotsFit(RowAddrs(row, targets[p]), CopySizes(row), hosts[p], dev, hostBytes)
      ensures SameShape(RowAddrs(row, sources[p]), RowAddrs(row, targets[p]), CopySizes(row))
    {
      RowFits(layers, base, mode, z, i, row, n, dev, sources[p], hosts[p], hostBytes);
      RowFits(layers, base, mode, z, i, row, n, dev, targets[p], hosts[p], hostBytes);
      RowKeepsShape(row, layers[i], mode, z, sources[p], targets[p]);
    }
    RowVectorsApart(layers, base, mode, z, i, row, targets, n, dev);
  }

  // Dumping some blocks of a layer and loading them into others copies every tensor of
  // the layer block by block, byte by byte, whatever shape its row has.
  lemma TensorsComeBack(layers: seq<Layer>, base: seq<nat>, mode: Mode, z: Sizes, i: nat, row: seq<Segment>,
                        sources: seq<nat>, targets: seq<nat>, hosts: seq<nat>, n: nat,
                        dev: seq<Byte>, host: seq<Byte>, dst: seq<Byte>, p: nat, k: nat, x: nat)
    requires |dst| == |dev| && Setting(layers, base, mode, z, i, row, sources, targets, hosts, n, |dev|, |host|)
    requires p < |targets| && k < |Tensors(layers[i])| && x < Tensors(layers[i])[k].bytesPerBlock
    ensures Transferable(BlockVectors(row, sources), BlockVectors(row, targets), hosts, CopySizes(row), |dev|, |host|, |dst|)
    ensures var t := Tensors(layers[i])[k];
            var r := DumpedAndLoaded(dev, host, dst, BlockVectors(row, sources), BlockVectors(row, targets), hosts, CopySizes(row));
            && BlockStart(t, targets[p]) + x < |r| && BlockStart(t, sources[p]) + x < |dev|
            && r[BlockStart(t, targets[p]) + x] == dev[BlockStart(t, sources[p]) + x]
  {
    RowIsTransferable(layers, base, mode, z, i, row, sources, targets, hosts, n, |dev|, |host|);
    var a, b, sizes := BlockVectors(row, sources), BlockVectors(row, targets), CopySizes(row);
    var s := PartsCover(layers, base, mode, z, i, k, x);
    GhostsStayNull(row, layers[i], mode, z, targets[p], s);
    PartAddr(row, layers[i], mode, z, targets[p], s);
    PartAddr(row, layers[i], mode, z, sources[p], s);
    SlotByteComesBack(dev, host, dst, a, b, hosts, sizes, p, s, x - Slots(layers[i], mode, z).value[s].offset);
  }

  lemma SlotByteComesBack(dev: seq<Byte>, host: seq<Byte>, dst: seq<Byte>, a: seq<seq<nat>>, b: seq<seq<nat>>,
                          hosts: seq<nat>, sizes: seq<nat>, p: nat, s: nat, y: nat)
    requires Transferable(a, b, hosts, sizes, |dev|, |host|, |dst|)
    requires p < |b| && s < |sizes| && Real(b[p], sizes, s) && y < sizes[s]
    ensures var r := DumpedAndLoaded(dev, host, dst, a, b, hosts, sizes);
            && b[p][s] + y < |r| && a[p][s] + y < |dev|
            && r[b[p][s] + y] == dev[a[p][s] + y]
  {
    SlotsComeBack(dev, host, dst, a, b, hosts, sizes, p, s);
    SliceByte(DumpedAndLoaded(dev, host, dst, a, b, hosts, sizes), b[p][s], dev, a[p][s], sizes[s], y);
  }

  lemma SliceByte(r: seq<Byte>, to: nat, dev: seq<Byte>, from: nat, size: nat, y: nat)
    requires to + size <= |r| && from + size <= |dev| && r[to..to + size] == dev[from..from + size] && y < size
    ensures r[to + y] == dev[from + y]
  {
    assert r[to..to + size][y] == dev[from..from + size][y];
  }

  // Every other byte of the device memory is left as it was.
  lemma OtherBytesKept(layers: seq<Layer>, base: seq<nat>, mode: Mode, z: Sizes, i: nat, row: seq<Segment>,
                       sources: seq<nat>, targets: seq<nat>, hosts: seq<nat>, n: nat,
                       dev: seq<Byte>, host: seq<Byte>, dst: seq<Byte>, x: nat)
    requires |dst| == |dev| && Setting(layers, base, mode, z, i, row, sources, targets, hosts, n, |dev|, |host|)
    requires x < |dst|
    requires forall p, k :: 0 <= p < |targets| && 0 <= k < |Tensors(layers[i])| ==>
               var t := Tensors(layers[i])[k];
               !(BlockStart(t, targets[p]) <= x < BlockStart(t, targets[p]) + t.bytesPerBlock)
    ensures Transferable(BlockVectors(row, sources), BlockVectors(row, targets), hosts, CopySizes(row), |dev|, |host|, |dst|)
    ensures DumpedAndLoaded(dev, host, dst, BlockVectors(row, sources), BlockVectors(row, targets), hosts, CopySizes(row))[x] == dst[x]
  {
    RowIsTransferable(layers, base, mode, z, i, row, sources, targets, hosts, n, |dev|, |host|);
    PartsInside(layers, base, mode, z, i);
    var b, sizes := BlockVectors(row, targets), CopySizes(row);
    forall p, s | 0 <= p < |b| && 0 <= s < |sizes| && Real(b[p], sizes, s)
      ensures !(b[p][s] <= x < b[p][s] + sizes[s])
    {
      GhostsStayNull(row, layers[i], mode, z, targets[p], s);
      var slot := Slots(layers[i], mode, z).value[s];
      var t := Tensors(layers[i])[slot.tensor];
      assert !(BlockStart(t, targets[p]) <= x < BlockStart(t, targets[p]) + t.bytesPerBlock);
    }
    OthersKept(dev, host, dst, BlockVectors(row, sources), b, hosts, sizes, x);
  }
}
