// The max pooling kernel and the geometry of a pooling layer.
module Maxpool {
  import Arith

  /** A pooling layer on one cluster with `cores` compute cores; windows do not overlap. */
  datatype Layer = Layer(oh: nat, ow: nat, fh: nat, fw: nat, iw: nat, ci: nat, tileCi: nat, cores: nat)
  {
    // A channel tile is shared evenly by the cores and divides the channels; there is something to do.
    predicate Valid() {
      && oh > 0 && ow > 0 && fh > 0 && fw > 0 && ci > 0 && tileCi > 0 && cores > 0
      && tileCi % cores == 0 && ci % tileCi == 0
    }

    // Channel tiles per output pixel.
    function Parts(): (r: nat)
      requires Valid()
      ensures r > 0 && r * tileCi == ci
    {
      Arith.Split(ci, tileCi);
      ci / tileCi
    }

    // Iterations of the tile loop and the channel loop inside it.
    function Steps(): (r: nat)
      requires Valid()
      ensures r > 0
    {
      Arith.MulBounds(1, 1, oh, ow);
      Arith.MulBounds(1, 1, oh * ow, Parts());
      oh * ow * Parts()
    }

    // Elements of an input tile.
    function TileSize(): (r: nat)
      requires Valid()
      ensures r >= tileCi > 0
    {
      Arith.MulBounds(1, 1, fh, fw);
      Arith.MulBounds(1, tileCi, fh * fw, tileCi);
      fh * fw * tileCi
    }
  }

  // ---------------------------------------------------------------- the kernel

  function Element(s: seq<real>, i: int): real {
    if 0 <= i < |s| then s[i] else 0.0
  }

  function Larger(v: real, max: real): real {
    if v > max then v else max
  }

  /** The value kept after n elements, starting from the first one and replacing it by larger ones. */
  function Scan(s: seq<real>, base: nat, stride: nat, n: nat): real {
    if n == 0 then Element(s, base) else Larger(Element(s, base + (n - 1) * stride), Scan(s, base, stride, n - 1))
  }

  lemma {:induction false} ScanIsMaximum(s: seq<real>, base: nat, stride: nat, n: nat)
    requires n > 0
    ensures forall j :: 0 <= j < n ==> Element(s, base + j * stride) <= Scan(s, base, stride, n)
    ensures exists j :: 0 <= j < n && Element(s, base + j * stride) == Scan(s, base, stride, n)
  {
    if n == 1 {
      assert Element(s, base + 0 * stride) == Scan(s, base, stride, 1);
    } else {
      ScanIsMaximum(s, base, stride, n - 1);
      assert Element(s, base + (n - 1) * stride) <= Scan(s, base, stride, n);
    }
  }

  // A multiple of the stride below a multiple of the stride leaves room for a whole stride.
  lemma StrideFits(j: nat, size: nat, stride: nat)
    requires stride > 0 && j % stride == 0 && size % stride == 0 && j < size
    ensures j + stride <= size && (j + stride) % stride == 0
  {
    Arith.Split(j, stride);
    Arith.Split(size, stride);
    var a, b := j / stride, size / stride;
    if b <= a { Arith.MulMono(stride, b, a); }
    Arith.MulMono(stride, a + 1, b);
    Arith.ModUnique(j + stride, a + 1, 0, stride);
  }

  lemma ResidueOf(id: nat, j: nat, stride: nat)
    requires id < stride && j % stride == 0
    ensures (id + j) % stride == id
  {
    Arith.Split(j, stride);
    Arith.ModUnique(id + j, j / stride, id, stride);
  }

  // Of the next `stride` numbers one has residue id.
  lemma OneOfStride(id: nat, c: nat, stride: nat)
    requires id < stride && c % stride == 0
    ensures forall k: nat :: c <= k < c + stride && k % stride == id ==> k == id + c
  {
    forall k: nat | c <= k < c + stride && k % stride == id ensures k == id + c {
      ResidueOf(k - c, c, stride);
    }
  }

  // Position p of channel k lies within a tile of n positions with ci channels each.
  lemma InTile(p: nat, k: nat, n: nat, ci: nat)
    requires p < n && k < ci
    ensures 0 <= p * ci + k < n * ci
  {
    Arith.MulMono(ci, p + 1, n);
  }

  // The last element the filter loops read for channel k, and the last channel the loop over channels takes.
  function LastRead(k: nat, ci: nat, n: nat): nat { k + if n == 0 then 0 else (n - 1) * ci }

  function LastChannel(id: nat, ci: nat, cores: nat): int
    requires 0 < cores
  {
    id + (ci - 1) / cores * cores
  }

  lemma ReadsBelow(p: nat, k: nat, n: nat, ci: nat)
    requires p < n
    ensures p * ci + k <= LastRead(k, ci, n)
  {
    Arith.MulMono(ci, p, n - 1);
  }

  lemma ChannelsBelow(c: nat, id: nat, ci: nat, cores: nat)
    requires 0 < cores && c < ci && c % cores == 0
    ensures id + c <= LastChannel(id, ci, cores)
  {
    var q := (ci - 1) / cores;
    Arith.Split(c, cores);
    Arith.Split(ci - 1, cores);
    if c / cores > q { Arith.MulMono(cores, q + 1, c / cores); }
    Arith.MulMono(cores, c / cores, q);
  }

  // Core id pools the channel at this offset from the tile's first.
  predicate Pools(id: nat, ci: nat, cores: nat, k: int)
    requires 0 < cores
  {
    id <= k < id + ci && (k - id) % cores == 0
  }

  lemma NotPooled(id: nat, c: nat, ci: nat, cores: nat, k: int)
    requires 0 < cores && c % cores == 0 && id + c < k < id + c + cores
    ensures !Pools(id, ci, cores, k)
  {
    Arith.Split(c, cores);
    Arith.ModUnique(k - id, c / cores, k - id - c, cores);
  }

  // Up to the next multiple a core takes one channel.
  lemma NextPooled(id: nat, c: nat, ci: nat, cores: nat)
    requires 0 < cores && c % cores == 0 && c < ci
    ensures (c + cores) % cores == 0 && Pools(id, ci, cores, id + c)
    ensures forall k: int :: Pools(id, ci, cores, k) && k < id + c + cores ==> k <= id + c
  {
    Arith.ModAdd(c, 1, cores);
    forall k: int | Pools(id, ci, cores, k) && k < id + c + cores ensures k <= id + c {
      if k > id + c { NotPooled(id, c, ci, cores, k); }
    }
  }

  method ReadAt(ifmap: array<real>, ib: nat, k: nat, p: nat, ci: nat) returns (v: real)
    requires ib + (p * ci + k) < ifmap.Length
    ensures v == Element(ifmap[..], ib + k + p * ci)
  {
    v := ifmap[ib + p * ci + k];
  }

  lemma PositionInWindow(h: nat, w: nat, fh: nat, fw: nat)
    requires h < fh && w < fw
    ensures h * fw + w < fh * fw
  {
    Arith.MulMono(fw, h + 1, fh);
  }

  method RowMax(ifmap: array<real>, ib: nat, k: nat, ci: nat, fh: nat, fw: nat, h: nat, max0: real) returns (max: real)
    requires h < fh && ib + LastRead(k, ci, fh * fw) < ifmap.Length
    requires max0 == Scan(ifmap[..], ib + k, ci, h * fw)
    ensures max == Scan(ifmap[..], ib + k, ci, (h + 1) * fw)
  {
    ghost var s, base, done := ifmap[..], ib + k, h * fw;
    max := max0;
    var w := 0;
    while w < fw
      invariant 0 <= w <= fw
      invariant max == Scan(s, base, ci, done + w)
    {
      PositionInWindow(h, w, fh, fw);
      ReadsBelow(h * fw + w, k, fh * fw, ci);
      var p := h * fw + w;
      var v := ReadAt(ifmap, ib, k, p, ci);
      if v > max {
        max := v;
      }
      w := w + 1;
    }
  }

  method ChannelMax(ifmap: array<real>, ib: nat, k: nat, ci: nat, fh: nat, fw: nat) returns (max: real)
    requires ib + LastRead(k, ci, fh * fw) < ifmap.Length
    ensures max == Scan(ifmap[..], ib + k, ci, fh * fw)
  {
    max := ifmap[ib + k];
    var h := 0;
    while h < fh
      invariant 0 <= h <= fh
      invariant max == Scan(ifmap[..], ib + k, ci, h * fw)
    {
      max := RowMax(ifmap, ib, k, ci, fh, fw, h, max);
      h := h + 1;
    }
  }

  /** Core `id` of `cores` pools its share of the channels of one tile. The pointers of the source are array and offset. */
  method MaxpoolFp64(ifmap: array<real>, ib: nat, ofmap: array<real>, ob: nat, id: nat,
                     ci: nat, fh: nat, fw: nat, cores: nat)
    requires ifmap != ofmap && 0 < cores
    requires 0 < ci ==> ib + LastRead(LastChannel(id, ci, cores), ci, fh * fw) < ifmap.Length
    requires 0 < ci ==> ob + LastChannel(id, ci, cores) < ofmap.Length
    modifies ofmap
    ensures forall i | 0 <= i < ofmap.Length ::
      ofmap[i] == if Pools(id, ci, cores, i - ob) then Scan(ifmap[..], ib + (i - ob), ci, fh * fw) else old(ofmap[i])
  {
    var n := fh * fw;
    var c := 0;
    while c < ci
      invariant 0 <= c && c % cores == 0
      invariant forall i | 0 <= i < ofmap.Length ::
        ofmap[i] == if Pools(id, ci, cores, i - ob) && i - ob < id + c then Scan(ifmap[..], ib + (i - ob), ci, n) else old(ofmap[i])
    {
      ChannelsBelow(c, id, ci, cores);
      var max := ChannelMax(ifmap, ib, id + c, ci, fh, fw);
      ofmap[ob + id + c] := max;
      NextPooled(id, c, ci, cores);
      c := c + cores;
    }
  }

  lemma OwnResidue(k: nat, cores: nat)
    requires 0 < cores
    ensures k % cores <= k && (k - k % cores) % cores == 0
  {
    Arith.Split(k, cores);
    Arith.ModUnique(k - k % cores, k / cores, 0, cores);
    Arith.MulMono(cores, 0, k / cores);
  }

  // The last core goes past the tile with its last channel.
  lemma BeyondTile(ci: nat, cores: nat) returns (id: nat, k: nat)
    requires 0 < cores && ci % cores != 0
    ensures id < cores && Pools(id, ci, cores, k) && k >= ci
  {
    var q := ci / cores;
    id := cores - 1;
    Arith.Split(ci, cores);
    k := id + q * cores;
    Arith.ModUnique(q * cores, q, 0, cores);
  }

  lemma WithinTile(id: nat, ci: nat, cores: nat, k: int)
    requires id < cores && ci % cores == 0 && Pools(id, ci, cores, k)
    ensures 0 <= k < ci
  {
    StrideFits(k - id, ci, cores);
  }

  lemma PooledByResidue(id: nat, ci: nat, cores: nat, k: nat)
    requires id < cores && k < ci
    ensures Pools(id, ci, cores, k) <==> k % cores == id
  {
    if Pools(id, ci, cores, k) { ResidueOf(id, k - id, cores); }
    if k % cores == id { OwnResidue(k, cores); }
  }

  /** Each channel of the tile is taken by one core; nothing else is taken by any exactly when the cores divide the channels. */
  lemma SharesAreTheTileIff(ci: nat, cores: nat)
    requires 0 < cores
    ensures forall id: nat, k: nat :: id < cores && k < ci ==> (Pools(id, ci, cores, k) <==> k % cores == id)
    ensures ci % cores == 0 <==> forall id: nat, k: int :: id < cores && Pools(id, ci, cores, k) ==> 0 <= k < ci
  {
    forall id: nat, k: nat | id < cores && k < ci ensures Pools(id, ci, cores, k) <==> k % cores == id {
      PooledByResidue(id, ci, cores, k);
    }
    if ci % cores == 0 {
      forall id: nat, k: int | id < cores && Pools(id, ci, cores, k) ensures 0 <= k < ci {
        WithinTile(id, ci, cores, k);
      }
    } else {
      var id, k := BeyondTile(ci, cores);
    }
  }
}
