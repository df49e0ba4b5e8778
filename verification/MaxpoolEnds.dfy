// The layer ends: every transition uses up some of a finite amount of work.
module MaxpoolEnds {
  import Arith
  import opened MaxpoolLayer

  // Work of one step of the DMA core, and of one step of a compute core.
  function LoadWork(j: Job, h: nat): int { (j.rows - h) * (j.row + 1) }
  function PoolWork(j: Job, ci: nat): int { (j.chans - ci) * (j.window + 2) }
  function DmWork(j: Job): int { j.chans + 6 + LoadWork(j, 0) }
  function CoreWork(j: Job): int { PoolWork(j, 0) + 2 }

  function DmPcRank(j: Job, d: Dm): int {
    match d.pc
    case Loading(h) => j.chans + 5 + LoadWork(j, h) + |d.pending|
    case AtBarrier => j.chans + 4
    case LastBarrier => j.chans + 4
    case Released => j.chans + 3
    case LastReleased => j.chans + 3
    case Storing => 1 + |d.pending|
    case LastStoring => 1 + |d.pending|
    case DmDone => 0
  }

  function DmRank(j: Job, d: Dm): int { (j.steps - d.step) * DmWork(j) + DmPcRank(j, d) }

  function CorePcRank(j: Job, k: Core): int {
    match k.pc
    case Waiting => CoreWork(j) - 1
    case First(ci) => PoolWork(j, ci)
    case Compare(ci, p, _) => PoolWork(j, ci) - 1 - p
    case AtEnd => 1
    case CoreDone => 0
  }

  function CoreRank(j: Job, k: Core): int { (j.steps - k.step) * CoreWork(j) + CorePcRank(j, k) }

  function CoresRank(j: Job, cores: seq<Core>): int {
    if cores == [] then 0 else CoresRank(j, cores[..|cores| - 1]) + CoreRank(j, cores[|cores| - 1])
  }

  function Rank(j: Job, s: State): int { DmRank(j, s.dm) + CoresRank(j, s.cores) }

  lemma Times(a: int, w: int)
    ensures a * w == (a - 1) * w + w
  {
  }

  // ---------------------------------------------------------------- the DMA core

  lemma {:induction false} RangeSize(lo: nat, n: nat)
    ensures |Range(lo, n)| == n
  {
    if n == 0 {
    } else {
      RangeSize(lo, n - 1);
    }
  }

  lemma SizeMono(a: set<nat>, b: set<nat>)
    requires a <= b
    ensures |a| <= |b|
  {
    assert b == a + (b - a);
  }

  lemma UnionSize(a: set<nat>, b: set<nat>)
    ensures |a + b| <= |a| + |b|
  {
    assert a + b == a + (b - a);
    SizeMono(b - a, b);
  }

  lemma LoadWorkDrops(j: Job, h: nat)
    ensures LoadWork(j, h) == LoadWork(j, h + 1) + j.row + 1
  {
    Times(j.rows - h, j.row + 1);
  }

  // Starting a row of transfers adds at most as many elements as the row has.
  lemma StartRowDrops(j: Job, d: Dm, row: set<nat>)
    requires d.pc.Loading? && d.pc.h < j.rows && |row| <= j.row
    ensures DmPcRank(j, d.(pc := Loading(d.pc.h + 1), pending := d.pending + row)) < DmPcRank(j, d)
  {
    UnionSize(d.pending, row);
    LoadWorkDrops(j, d.pc.h);
  }

  lemma RowSize(j: Job, h: nat)
    ensures |RowElements(j, h)| == j.row
  {
    RangeSize(h * j.row, j.row);
  }

  lemma NextStepDrops(j: Job, d: Dm)
    requires d.step < j.steps && 0 <= LoadWork(j, 0)
    ensures DmRank(j, NextStep(j, d)) < (j.steps - d.step) * DmWork(j)
  {
    Times(j.steps - d.step, DmWork(j));
  }

  lemma SameStepDrops(j: Job, d: Dm, d': Dm)
    requires d'.step == d.step && DmPcRank(j, d') < DmPcRank(j, d)
    ensures DmRank(j, d') < DmRank(j, d)
  {
  }

  lemma MoveDrops(j: Job, d: Dm, i: nat)
    requires (d.pc.Loading? || d.pc.Storing? || d.pc.LastStoring?) && i in d.pending
    ensures DmPcRank(j, d.(pending := d.pending - {i})) < DmPcRank(j, d)
  {
    assert |d.pending - {i}| == |d.pending| - 1;
  }

  lemma StartStoreDrops(j: Job, d: Dm)
    requires d.pc.Released? || d.pc.LastReleased?
    ensures DmPcRank(j, d.(pc := Storing, pending := {})) < DmPcRank(j, d)
    ensures DmPcRank(j, d.(pc := Storing, pending := ChannelElements(j))) < DmPcRank(j, d)
    ensures DmPcRank(j, d.(pc := LastStoring, pending := ChannelElements(j))) < DmPcRank(j, d)
  {
    RangeSize(0, j.chans);
  }

  lemma LoadsDoneDrops(j: Job, d: Dm)
    requires d.pc.Loading? && d.pc.h == j.rows
    ensures DmPcRank(j, d.(pc := AtBarrier)) < DmPcRank(j, d)
  {
  }

  lemma PcRankDrops(j: Job, s: State, a: Action)
    requires j.Valid() && DmControl(j, s.dm, s.epoch) && Enabled(j, s, a) && !a.Compute?
    requires !(a.StoreDone? && s.dm.pc.Storing?)
    ensures Do(j, s, a).dm.step == s.dm.step && DmPcRank(j, Do(j, s, a).dm) < DmPcRank(j, s.dm)
  {
    var d := s.dm;
    match a
    case StartRow =>
      RowSize(j, d.pc.h);
      StartRowDrops(j, d, RowElements(j, d.pc.h));
    case LoadsDone => LoadsDoneDrops(j, d);
    case Move(i) => MoveDrops(j, d, i);
    case StartStore => StartStoreDrops(j, d);
    case StoreDone =>
    case Barrier =>
  }

  lemma DmStepDrops(j: Job, s: State, a: Action)
    requires j.Valid() && DmControl(j, s.dm, s.epoch) && Enabled(j, s, a) && !a.Compute?
    ensures DmRank(j, Do(j, s, a).dm) < DmRank(j, s.dm)
  {
    var d, d' := s.dm, Do(j, s, a).dm;
    if a.StoreDone? && d.pc.Storing? {
      Arith.MulMono(j.row + 1, 0, j.rows);
      NextStepDrops(j, d);
    } else {
      PcRankDrops(j, s, a);
      SameStepDrops(j, d, d');
    }
  }

  // ---------------------------------------------------------------- the compute cores

  lemma PoolWorkDrops(j: Job, ci: nat, more: nat)
    requires ci < j.chans && 0 < more
    ensures PoolWork(j, ci + more) <= PoolWork(j, ci) - (j.window + 2)
    ensures PoolWork(j, ci) >= j.window + 2
  {
    Arith.MulMono(j.window + 2, j.chans - ci - more, j.chans - ci - 1);
    Arith.MulMono(j.window + 2, 0, j.chans - ci - 1);
    Times(j.chans - ci, j.window + 2);
  }

  lemma AfterChannelDrops(j: Job, k: Core)
    requires k.pc.Compare? && k.pc.p == j.window && k.pc.ci < j.chans && 0 < j.cores
    ensures CoreRank(j, AfterChannel(j, k, k.pc.ci)) < CoreRank(j, k)
  {
    PoolWorkDrops(j, k.pc.ci, j.cores);
    if k.pc.ci + j.cores >= j.chans {
      PoolWorkDrops(j, 0, j.chans);
      Times(j.steps - k.step, CoreWork(j));
    }
  }

  lemma CoreStepDrops(j: Job, s: State, c: nat)
    requires j.Valid() && c < |s.cores| && CoreControl(j, s.cores[c], s.epoch)
    requires s.cores[c].pc.First? || s.cores[c].pc.Compare?
    ensures CoreRank(j, CoreStep(j, s, c).cores[c]) < CoreRank(j, s.cores[c])
  {
    var k := s.cores[c];
    if k.pc.Compare? && k.pc.p == j.window { AfterChannelDrops(j, k); }
  }

  lemma {:induction false} OneCoreDrops(j: Job, cores: seq<Core>, c: nat, k: Core)
    requires c < |cores| && CoreRank(j, k) < CoreRank(j, cores[c])
    ensures CoresRank(j, cores[c := k]) < CoresRank(j, cores)
    decreases |cores|
  {
    var n := |cores| - 1;
    if c < n {
      OneCoreDrops(j, cores[..n], c, k);
      assert cores[c := k][..n] == cores[..n][c := k];
    } else {
      assert cores[c := k][..n] == cores[..n];
    }
  }

  lemma {:induction false} NoCoreRises(j: Job, before: seq<Core>, after: seq<Core>)
    requires |before| == |after|
    requires forall c :: 0 <= c < |before| ==> CoreRank(j, after[c]) <= CoreRank(j, before[c])
    ensures CoresRank(j, after) <= CoresRank(j, before)
    decreases |before|
  {
    var n := |before| - 1;
    if before == [] {
    } else {
      assert forall c :: 0 <= c < n ==> after[..n][c] == after[c] && before[..n][c] == before[c];
      NoCoreRises(j, before[..n], after[..n]);
    }
  }

  lemma BarrierDrops(j: Job, k: Core, e: nat)
    requires j.Valid() && CoreControl(j, k, e) && (k.pc.Waiting? || k.pc.AtEnd?)
    ensures CoreRank(j, k.(pc := if k.pc.Waiting? then First(0) else CoreDone)) <= CoreRank(j, k)
  {
  }

  // ---------------------------------------------------------------- the layer

  lemma RankDrops(j: Job, s: State, s': State)
    requires j.Valid() && Inv(j, s) && Next(j, s, s')
    ensures Rank(j, s') < Rank(j, s)
  {
    var a :| Takes(j, s, a, s');
    if a.Compute? {
      assert CoreControl(j, s.cores[a.c], s.epoch);
      CoreStepDrops(j, s, a.c);
      OneCoreDrops(j, s.cores, a.c, s'.cores[a.c]);
      assert s'.cores == s.cores[a.c := s'.cores[a.c]] && s'.dm == s.dm;
    } else {
      DmStepDrops(j, s, a);
      if a.Barrier? {
        forall c | 0 <= c < |s.cores| ensures CoreRank(j, s'.cores[c]) <= CoreRank(j, s.cores[c]) {
          BarrierDrops(j, s.cores[c], s.epoch);
        }
        NoCoreRises(j, s.cores, s'.cores);
      }
    }
  }

  lemma CoreRankIsNatural(j: Job, k: Core, e: nat)
    requires j.Valid() && CoreControl(j, k, e)
    ensures CoreRank(j, k) >= 0
  {
    Arith.MulMono(j.window + 2, 1, j.chans);
    Arith.MulMono(CoreWork(j), 0, j.steps - k.step);
    if k.pc.First? || k.pc.Compare? { Arith.MulMono(j.window + 2, 1, j.chans - k.pc.ci); }
  }

  lemma {:induction false} RankIsNatural(j: Job, cores: seq<Core>, e: nat)
    requires j.Valid() && forall c :: 0 <= c < |cores| ==> CoreControl(j, cores[c], e)
    ensures CoresRank(j, cores) >= 0
    decreases |cores|
  {
    var n := |cores| - 1;
    if cores == [] {
    } else {
      assert forall c :: 0 <= c < n ==> cores[..n][c] == cores[c];
      RankIsNatural(j, cores[..n], e);
      CoreRankIsNatural(j, cores[n], e);
    }
  }

  lemma LoadWorkIsNatural(j: Job, h: nat)
    requires h <= j.rows
    ensures LoadWork(j, h) >= 0
  {
    Arith.MulMono(j.row + 1, 0, j.rows - h);
  }

  lemma DmPcRankIsNatural(j: Job, d: Dm)
    requires d.pc.Loading? ==> d.pc.h <= j.rows
    ensures DmPcRank(j, d) >= 0
  {
    if d.pc.Loading? { LoadWorkIsNatural(j, d.pc.h); }
  }

  lemma StepsToDo(j: Job, steps: nat)
    ensures steps * DmWork(j) >= 0
  {
    LoadWorkIsNatural(j, 0);
    Arith.MulMono(DmWork(j), 0, steps);
  }

  lemma DmRankIsNatural(j: Job, d: Dm, e: nat)
    requires j.Valid() && DmControl(j, d, e)
    ensures DmRank(j, d) >= 0
  {
    StepsToDo(j, j.steps - d.step);
    DmPcRankIsNatural(j, d);
  }

  /** No schedule is longer than the work there is to do, so together with NotStuck every schedule finishes the layer. */
  lemma {:induction false} LayerEnds(j: Job, run: seq<State>, n: nat)
    requires j.Valid() && IsRun(j, run) && n < |run|
    ensures 0 <= Rank(j, run[n]) <= Rank(j, run[0]) - n
  {
    RunInvariant(j, run, n);
    DmRankIsNatural(j, run[n].dm, run[n].epoch);
    RankIsNatural(j, run[n].cores, run[n].epoch);
    if n == 0 {
    } else {
      LayerEnds(j, run, n - 1);
      RunInvariant(j, run, n - 1);
      RankDrops(j, run[n - 1], run[n]);
    }
  }
}
