// The addresses maxpool_layer computes, and what the layer leaves in memory in terms of its input and output maps.
module MaxpoolTheorem {
  import Arith
  import opened Maxpool
  import opened MaxpoolLayer

  /** The input map, by element address. */
  type InputMap = int -> real

  // Channel c of pixel (y, x), in a map of the given width.
  function Address(width: nat, channels: nat, y: nat, x: nat, c: nat): nat {
    (y * width + x) * channels + c
  }

  function InAddress(l: Layer, oh: nat, ow: nat, h: nat, w: nat, c: nat): nat {
    Address(l.iw, l.ci, oh * l.fh + h, ow * l.fw + w, c)
  }

  function OutAddress(l: Layer, oh: nat, ow: nat, c: nat): nat { Address(l.ow, l.ci, oh, ow, c) }

  /** The tile and first channel of step t of the two loops. */
  function TileOf(l: Layer, t: nat): nat requires l.Valid() { t / l.Parts() }
  function ChannelOf(l: Layer, t: nat): nat requires l.Valid() { (t % l.Parts()) * l.tileCi }

  /** The address element j of the transfer for row h is fetched from: contiguous, or with a stride of all channels. */
  function LoadSource(l: Layer, t: nat, h: nat, j: nat): int
    requires l.Valid()
  {
    var oh, ow := TileOf(l, t) / l.ow, TileOf(l, t) % l.ow;
    var start := ((oh * l.fh + h) * l.iw + ow * l.fw) * l.ci;
    if l.tileCi == l.ci then
      start + j
    else
      start + ChannelOf(l, t) + (j / l.tileCi) * l.ci + j % l.tileCi
  }

  function RowLength(l: Layer): (r: nat)
    requires l.Valid()
    ensures r > 0 && l.fh * r == l.TileSize()
  {
    Arith.MulBounds(1, 1, l.fw, l.tileCi);
    Arith.Assoc(l.fh, l.fw, l.tileCi);
    l.fw * l.tileCi
  }

  function TileContent(l: Layer, inp: InputMap, t: nat): (r: seq<real>)
    requires l.Valid()
    ensures |r| == l.TileSize()
  {
    seq(l.TileSize(), i requires 0 <= i < l.TileSize() => inp(LoadSource(l, t, i / RowLength(l), i % RowLength(l))))
  }

  function JobOf(l: Layer, inp: InputMap): (j: Job)
    requires l.Valid()
    ensures j.Valid() && j.steps == l.Steps() && j.chans == l.tileCi && j.window == l.fh * l.fw
  {
    Job(l.cores, l.tileCi, l.fh, RowLength(l), l.fh * l.fw, l.TileSize(), l.Steps(),
        seq(l.Steps(), t requires 0 <= t < l.Steps() => TileContent(l, inp, t)))
  }

  // ---------------------------------------------------------------- loads

  lemma SplitRow(h: nat, w: nat, k: nat, fw: nat, chans: nat)
    requires w < fw && k < chans
    ensures (h * fw + w) * chans + k == h * (fw * chans) + (w * chans + k)
    ensures ((h * fw + w) * chans + k) / (fw * chans) == h
    ensures ((h * fw + w) * chans + k) % (fw * chans) == w * chans + k
    ensures (w * chans + k) / chans == w && (w * chans + k) % chans == k
  {
    Arith.Distribute(h * fw, w, chans);
    Arith.Assoc(h, fw, chans);
    InTile(w, k, fw, chans);
    Arith.ModUnique((h * fw + w) * chans + k, h, w * chans + k, fw * chans);
    Arith.ModUnique(w * chans + k, w, k, chans);
  }

  lemma SourceIsWindow(l: Layer, t: nat, h: nat, w: nat, k: nat)
    requires l.Valid() && h < l.fh && w < l.fw && k < l.tileCi
    ensures LoadSource(l, t, h, w * l.tileCi + k)
         == InAddress(l, TileOf(l, t) / l.ow, TileOf(l, t) % l.ow, h, w, ChannelOf(l, t) + k)
  {
    var oh, ow := TileOf(l, t) / l.ow, TileOf(l, t) % l.ow;
    var y, x := (oh * l.fh + h) * l.iw, ow * l.fw;
    Arith.ModUnique(w * l.tileCi + k, w, k, l.tileCi);
    Arith.Distribute(y + x, w, l.ci);
    assert InAddress(l, oh, ow, h, w, ChannelOf(l, t) + k) == (y + x) * l.ci + w * l.ci + ChannelOf(l, t) + k;
    if l.tileCi == l.ci {
      Arith.ModUnique(l.ci, 1, 0, l.ci);
      Arith.ModUnique(t, t, 0, 1);
    }
  }

  /** Both kinds of transfer put pixel (h, w), channel k of the window where the kernel looks for it. */
  lemma LoadsWindow(l: Layer, inp: InputMap, t: nat, h: nat, w: nat, k: nat)
    requires l.Valid() && h < l.fh && w < l.fw && k < l.tileCi
    ensures Element(TileContent(l, inp, t), k + (h * l.fw + w) * l.tileCi)
         == inp(InAddress(l, TileOf(l, t) / l.ow, TileOf(l, t) % l.ow, h, w, ChannelOf(l, t) + k))
  {
    var i := (h * l.fw + w) * l.tileCi + k;
    PositionInWindow(h, w, l.fh, l.fw);
    InTile(h * l.fw + w, k, l.fh * l.fw, l.tileCi);
    SplitRow(h, w, k, l.fw, l.tileCi);
    SourceIsWindow(l, t, h, w, k);
    assert TileContent(l, inp, t)[i] == inp(LoadSource(l, t, i / RowLength(l), i % RowLength(l)));
  }

  // ---------------------------------------------------------------- stores

  /** The output address the DMA core computes from the saved indices of step t. */
  lemma StoresInPlace(l: Layer, t: nat, k: nat)
    requires l.Valid()
    ensures OutAddress(l, TileOf(l, t) / l.ow, TileOf(l, t) % l.ow, ChannelOf(l, t) + k) == t * l.tileCi + k
  {
    var tile, part := TileOf(l, t), t % l.Parts();
    Arith.Split(tile, l.ow);
    Arith.Split(t, l.Parts());
    Arith.Assoc(tile, l.Parts(), l.tileCi);
    Arith.Distribute(tile * l.Parts(), part, l.tileCi);
  }

  lemma SplitChannel(parts: nat, chans: nat, c: nat) returns (part: nat, k: nat)
    requires 0 < chans && c < parts * chans
    ensures part < parts && k < chans && c == part * chans + k
  {
    part, k := c / chans, c % chans;
    Arith.Split(c, chans);
    if part >= parts { Arith.MulMono(chans, parts, part); }
  }

  // Step t produces channel c of pixel (oh, ow) as channel k of its tile.
  ghost predicate Produces(l: Layer, t: nat, k: nat, oh: nat, ow: nat, c: nat)
    requires l.Valid()
  {
    k < l.tileCi && TileOf(l, t) / l.ow == oh && TileOf(l, t) % l.ow == ow && ChannelOf(l, t) + k == c
  }

  // The step that produces channel c of output pixel (oh, ow).
  lemma StepOf(l: Layer, oh: nat, ow: nat, c: nat) returns (t: nat, k: nat)
    requires l.Valid() && oh < l.oh && ow < l.ow && c < l.ci
    ensures t < l.Steps() && Produces(l, t, k, oh, ow, c)
    ensures OutAddress(l, oh, ow, c) == t * l.tileCi + k
  {
    var part;
    part, k := SplitChannel(l.Parts(), l.tileCi, c);
    var tile := oh * l.ow + ow;
    t := tile * l.Parts() + part;
    InTile(oh, ow, l.oh, l.ow);
    InTile(tile, part, l.oh * l.ow, l.Parts());
    Arith.ModUnique(t, tile, part, l.Parts());
    Arith.ModUnique(tile, oh, ow, l.ow);
    StoresInPlace(l, t, k);
  }

  // ---------------------------------------------------------------- the theorem

  ghost predicate WindowBound(l: Layer, inp: InputMap, oh: nat, ow: nat, c: nat, v: real) {
    forall h: nat, w: nat :: h < l.fh && w < l.fw ==> inp(InAddress(l, oh, ow, h, w, c)) <= v
  }

  ghost predicate WindowHas(l: Layer, inp: InputMap, oh: nat, ow: nat, c: nat, v: real) {
    exists h: nat, w: nat :: h < l.fh && w < l.fw && inp(InAddress(l, oh, ow, h, w, c)) == v
  }

  lemma LoadsProduced(l: Layer, inp: InputMap, t: nat, k: nat, oh: nat, ow: nat, c: nat, h: nat, w: nat, p: nat)
    requires l.Valid() && Produces(l, t, k, oh, ow, c) && h < l.fh && w < l.fw && p == h * l.fw + w
    ensures Element(TileContent(l, inp, t), k + p * l.tileCi) == inp(InAddress(l, oh, ow, h, w, c))
  {
    LoadsWindow(l, inp, t, h, w, k);
    assert TileOf(l, t) / l.ow == oh && TileOf(l, t) % l.ow == ow && ChannelOf(l, t) + k == c;
  }

  lemma PositionOf(l: Layer, inp: InputMap, t: nat, k: nat, oh: nat, ow: nat, c: nat, h: nat, w: nat) returns (p: nat)
    requires l.Valid() && Produces(l, t, k, oh, ow, c) && h < l.fh && w < l.fw
    ensures p < l.fh * l.fw
    ensures Element(TileContent(l, inp, t), k + p * l.tileCi) == inp(InAddress(l, oh, ow, h, w, c))
  {
    p := h * l.fw + w;
    PositionInWindow(h, w, l.fh, l.fw);
    LoadsProduced(l, inp, t, k, oh, ow, c, h, w, p);
  }

  lemma ScanBounds(l: Layer, inp: InputMap, t: nat, k: nat, oh: nat, ow: nat, c: nat, v: real)
    requires l.Valid() && Produces(l, t, k, oh, ow, c)
    requires forall p :: 0 <= p < l.fh * l.fw ==> Element(TileContent(l, inp, t), k + p * l.tileCi) <= v
    ensures WindowBound(l, inp, oh, ow, c, v)
  {
    forall h: nat, w: nat | h < l.fh && w < l.fw ensures inp(InAddress(l, oh, ow, h, w, c)) <= v {
      var p := PositionOf(l, inp, t, k, oh, ow, c, h, w);
      assert Element(TileContent(l, inp, t), k + p * l.tileCi) <= v;
    }
  }

  lemma WindowOf(p: nat, fh: nat, fw: nat) returns (h: nat, w: nat)
    requires p < fh * fw
    ensures h < fh && w < fw && p == h * fw + w
  {
    if fw == 0 { assert false; }
    h, w := p / fw, p % fw;
    Arith.Split(p, fw);
    if h >= fh { Arith.MulMono(fw, fh, h); }
  }

  lemma ScanHas(l: Layer, inp: InputMap, t: nat, k: nat, oh: nat, ow: nat, c: nat, p: nat)
    requires l.Valid() && Produces(l, t, k, oh, ow, c) && p < l.fh * l.fw
    ensures WindowHas(l, inp, oh, ow, c, Element(TileContent(l, inp, t), k + p * l.tileCi))
  {
    var h, w := WindowOf(p, l.fh, l.fw);
    LoadsProduced(l, inp, t, k, oh, ow, c, h, w, p);
  }

  lemma PooledIsMaximum(l: Layer, inp: InputMap, t: nat, k: nat, oh: nat, ow: nat, c: nat)
    requires l.Valid() && Produces(l, t, k, oh, ow, c)
    ensures WindowBound(l, inp, oh, ow, c, Scan(TileContent(l, inp, t), k, l.tileCi, l.fh * l.fw))
    ensures WindowHas(l, inp, oh, ow, c, Scan(TileContent(l, inp, t), k, l.tileCi, l.fh * l.fw))
  {
    var s, n := TileContent(l, inp, t), l.fh * l.fw;
    Arith.MulBounds(1, 1, l.fh, l.fw);
    ScanIsMaximum(s, k, l.tileCi, n);
    var v := Scan(s, k, l.tileCi, n);
    ScanBounds(l, inp, t, k, oh, ow, c, v);
    var p: nat :| p < n && Element(s, k + p * l.tileCi) == v;
    ScanHas(l, inp, t, k, oh, ow, c, p);
  }

  /** However the cores interleave, each output is the maximum of its window in the input map. */
  lemma LayerIsMaxPooling(l: Layer, inp: InputMap, run: seq<State>, n: nat, oh: nat, ow: nat, c: nat)
    requires l.Valid() && IsRun(JobOf(l, inp), run) && n < |run| && run[n].dm.pc.DmDone?
    requires oh < l.oh && ow < l.ow && c < l.ci
    ensures WindowBound(l, inp, oh, ow, c, Element(run[n].out, OutAddress(l, oh, ow, c)))
    ensures WindowHas(l, inp, oh, ow, c, Element(run[n].out, OutAddress(l, oh, ow, c)))
  {
    var t, k := StepOf(l, oh, ow, c);
    FinishedMeansPooled(JobOf(l, inp), run, n, t, k);
    assert JobOf(l, inp).tiles[t] == TileContent(l, inp, t);
    PooledIsMaximum(l, inp, t, k, oh, ow, c);
  }
}
