// The binary reduction tree of snrt_global_reduction_dma: who sends to whom at each level, and what is left in the
// destination buffer of cluster 0. The buffers of a cluster are one row.
module ReductionTree {
  import opened Arith
  import opened BinaryFormat

  /** ceil(log2 n). */
  function Levels(n: nat): nat {
    if n <= 1 then 0 else 1 + Levels((n + 1) / 2)
  }

  predicate Active(c: nat, level: nat) { c % Pow2(level) == 0 }
  predicate Sender(c: nat, level: nat) { Active(c, level) && c % Pow2(level + 1) != 0 }

  lemma {:induction false} LevelsSuffice(n: nat)
    requires n > 0
    ensures n <= Pow2(Levels(n))
    ensures n > 1 ==> Levels(n) > 0 && Pow2(Levels(n) - 1) < n
  {
    if n <= 1 {
    } else {
      LevelsSuffice((n + 1) / 2);
    }
  }

  // ---------------------------------------------------------------- topology

  /** The level at which a cluster sends: the number of times two divides its index. */
  function SendLevel(c: nat): nat
    requires c > 0
  {
    if c % 2 == 1 then 0 else 1 + SendLevel(c / 2)
  }

  lemma DoubledMod(c: nat, m: nat)
    requires m > 0
    ensures (2 * c) % (2 * m) == 2 * (c % m)
  {
    Split(c, m);
    ModUnique(2 * c, c / m, 2 * (c % m), 2 * m);
  }

  lemma OddMod(c: nat, m: nat)
    requires m > 0 && c % 2 == 1
    ensures c % (2 * m) != 0
  {
    Split(c, 2 * m);
    if c % (2 * m) == 0 {
      ModUnique(c, (c / (2 * m)) * m, 0, 2);
      assert false;
    }
  }

  /** Every cluster but the first sends at exactly one level. */
  lemma {:induction false} SendsAtItsLevel(c: nat, level: nat)
    requires c > 0
    ensures Sender(c, level) <==> level == SendLevel(c)
    decreases c
  {
    if c % 2 == 1 {
      if level > 0 { OddMod(c, Pow2(level - 1)); }
      OddMod(c, Pow2(level));
    } else {
      var h := c / 2;
      DoubledMod(h, Pow2(level));
      if level > 0 {
        SendsAtItsLevel(h, level - 1);
        DoubledMod(h, Pow2(level - 1));
      }
    }
  }

  lemma {:induction false} SendLevelFits(c: nat)
    requires c > 0
    ensures Pow2(SendLevel(c)) <= c
  {
    if c % 2 == 1 {
    } else {
      SendLevelFits(c / 2);
    }
  }

  /** There are enough levels for every cluster to send. */
  lemma SendsInTime(c: nat, n: nat)
    requires 0 < c < n
    ensures SendLevel(c) < Levels(n)
  {
    SendLevelFits(c);
    LevelsSuffice(n);
    if SendLevel(c) >= Levels(n) { Pow2Mono(Levels(n), SendLevel(c)); }
  }

  lemma EvenMultiple(c: int, m: nat, h: int)
    requires m > 0 && c == 2 * h * m
    ensures c % (2 * m) == 0
  {
    Assoc(h, 2, m);
    ModUnique(c, h, 0, 2 * m);
  }

  // A multiple of m that is not one of 2m, less m, is a multiple of 2m.
  lemma OddMultiple(c: nat, m: nat, q: nat)
    requires m > 0 && c == q * m && c % (2 * m) != 0
    ensures (c - m) % (2 * m) == 0 && m <= c
  {
    var h := q / 2;
    if q == 2 * h { EvenMultiple(c, m, h); } else {
      Distribute(2 * h, 1, m);
      EvenMultiple(c - m, m, h);
      MulMono(m, 1, q);
    }
  }

  lemma MultipleOfHalf(c: nat, m: nat)
    requires m > 0 && c % (2 * m) == 0
    ensures c % m == 0
  {
    Split(c, 2 * m);
    ModUnique(c, 2 * (c / (2 * m)), 0, m);
  }

  /** The receiver is in range, takes part in the level, does not send itself, and receives from no other cluster. */
  lemma ReceiverReceives(c: nat, level: nat)
    requires Sender(c, level)
    ensures Pow2(level) <= c
    ensures Active(c - Pow2(level), level) && !Sender(c - Pow2(level), level)
    ensures forall d: nat :: Sender(d, level) && d - Pow2(level) == c - Pow2(level) ==> d == c
  {
    var m := Pow2(level);
    Split(c, m);
    OddMultiple(c, m, c / m);
    MultipleOfHalf(c - m, m);
  }

  // ---------------------------------------------------------------- data, level after level

  ghost predicate Rows(src: seq<seq<int>>, len: nat) { forall c :: 0 <= c < |src| ==> |src[c]| == len }

  // The positions the compute cores share out between them.
  function Added(len: nat, cores: nat): int
    requires 0 < cores
  {
    cores * (len / cores)
  }

  predicate IsAdded(len: nat, cores: nat, p: nat)
    requires 0 < cores
  {
    p < Added(len, cores)
  }

  /** The contribution that reaches cluster 0 at the last level. */
  function LastSender(n: nat): (c: nat)
    requires n > 1
    ensures c < n
  {
    LevelsSuffice(n);
    Pow2(Levels(n) - 1)
  }

  /** What is left at position p of cluster 0. */
  function Outcome(src: seq<seq<int>>, len: nat, cores: nat, p: nat): int
    requires 0 < |src| && Rows(src, len) && 0 < cores && p < len
  {
    if |src| == 1 then src[0][p]
    else src[LastSender(|src|)][p] + if IsAdded(len, cores, p) then src[0][p] else 0
  }

  // One transfer copies a whole row.
  method Transfer(row: seq<int>, dst: array2<int>, c: nat)
    requires c < dst.Length0 && |row| == dst.Length1
    modifies dst
    ensures forall p: nat :: p < dst.Length1 ==> dst[c, p] == row[p]
    ensures forall x: nat, p: nat :: x < dst.Length0 && p < dst.Length1 && x != c ==> dst[x, p] == old(dst[x, p])
  {
    var i := 0;
    while i < |row|
      invariant 0 <= i <= |row|
      invariant forall p: nat :: p < i ==> dst[c, p] == row[p]
      invariant forall x: nat, p: nat :: x < dst.Length0 && p < dst.Length1 && x != c ==> dst[x, p] == old(dst[x, p])
    {
      dst[c, i] := row[i];
      i := i + 1;
    }
  }

  // Every sender copies its source buffer; receivers are distinct, so the order does not matter.
  method SendAll(src: seq<seq<int>>, dst: array2<int>, level: nat)
    requires |src| == dst.Length0 && Rows(src, dst.Length1) && Pow2(level) < |src|
    modifies dst
    ensures forall p: nat :: p < dst.Length1 ==> dst[0, p] == src[Pow2(level)][p]
  {
    var m, c := Pow2(level), 0;
    ModUnique(m, 1, 0, m);
    ModUnique(m, 0, m, 2 * m);
    while c < |src|
      invariant 0 <= c <= |src|
      invariant c > m ==> forall p: nat :: p < dst.Length1 ==> dst[0, p] == src[m][p]
    {
      if Sender(c, level) {
        ReceiverReceives(c, level);
        Transfer(src[c], dst, c - m);
      }
      c := c + 1;
    }
  }

  predicate Receives(c: nat, level: nat) { Active(c, level) && !Sender(c, level) }

  lemma RootReceives(level: nat)
    ensures Receives(0, level)
  {
  }

  method AddItems(row: seq<int>, dst: array2<int>, c: nat, lo: nat, items: nat)
    requires c < dst.Length0 && |row| == dst.Length1 && lo + items <= |row|
    modifies dst
    ensures forall p: nat :: p < dst.Length1 ==>
      dst[c, p] == old(dst[c, p]) + if lo <= p < lo + items then row[p] else 0
    ensures forall x: nat, p: nat :: x < dst.Length0 && p < dst.Length1 && x != c ==> dst[x, p] == old(dst[x, p])
  {
    var i := 0;
    while i < items
      invariant 0 <= i <= items
      invariant forall p: nat :: p < dst.Length1 ==>
        dst[c, p] == old(dst[c, p]) + if lo <= p < lo + i then row[p] else 0
      invariant forall x: nat, p: nat :: x < dst.Length0 && p < dst.Length1 && x != c ==> dst[x, p] == old(dst[x, p])
    {
      dst[c, lo + i] := dst[c, lo + i] + row[lo + i];
      i := i + 1;
    }
  }

  // The cores of a cluster add the source buffer to the destination buffer, each its own stretch.
  method Reduce(row: seq<int>, dst: array2<int>, cores: nat, c: nat)
    requires c < dst.Length0 && |row| == dst.Length1 && 0 < cores
    modifies dst
    ensures forall p: nat :: p < dst.Length1 ==>
      dst[c, p] == old(dst[c, p]) + if IsAdded(dst.Length1, cores, p) then row[p] else 0
    ensures forall x: nat, p: nat :: x < dst.Length0 && p < dst.Length1 && x != c ==> dst[x, p] == old(dst[x, p])
  {
    var items := |row| / cores;
    Split(|row|, cores);
    var core, lo := 0, 0;
    while core < cores
      invariant 0 <= core <= cores && lo == core * items
      invariant forall p: nat :: p < dst.Length1 ==> dst[c, p] == old(dst[c, p]) + if p < lo then row[p] else 0
      invariant forall x: nat, p: nat :: x < dst.Length0 && p < dst.Length1 && x != c ==> dst[x, p] == old(dst[x, p])
    {
      Distribute(core, 1, items);
      MulMono(items, core + 1, cores);
      AddItems(row, dst, c, lo, items);
      core, lo := core + 1, lo + items;
    }
  }

  method ReduceAll(src: seq<seq<int>>, dst: array2<int>, cores: nat, level: nat)
    requires |src| == dst.Length0 > 0 && Rows(src, dst.Length1) && 0 < cores
    modifies dst
    ensures forall p: nat :: p < dst.Length1 ==>
      dst[0, p] == old(dst[0, p]) + if IsAdded(dst.Length1, cores, p) then src[0][p] else 0
  {
    RootReceives(level);
    var c := 0;
    while c < |src|
      invariant 0 <= c <= |src|
      invariant forall p: nat :: p < dst.Length1 ==>
        dst[0, p] == old(dst[0, p]) + if c > 0 && IsAdded(dst.Length1, cores, p) then src[0][p] else 0
    {
      var receives := Receives(c, level);
      if receives {
        Reduce(src[c], dst, cores, c);
      }
      c := c + 1;
    }
  }

  method GlobalReductionDma(src: seq<seq<int>>, dst: array2<int>, cores: nat)
    requires |src| == dst.Length0 > 0 && Rows(src, dst.Length1) && 0 < cores
    modifies dst
    ensures forall p: nat :: p < dst.Length1 ==> dst[0, p] == Outcome(src, dst.Length1, cores, p)
  {
    var n := |src|;
    if n == 1 {
      Transfer(src[0], dst, 0);
    } else {
      LevelsSuffice(n);
      var level := 0;
      while level < Levels(n)
        invariant 0 <= level <= Levels(n)
        invariant level > 0 ==> Pow2(level - 1) < n && forall p: nat :: p < dst.Length1 ==>
          dst[0, p] == src[Pow2(level - 1)][p] + if IsAdded(dst.Length1, cores, p) then src[0][p] else 0
      {
        Pow2Mono(level, Levels(n) - 1);
        SendAll(src, dst, level);
        ReduceAll(src, dst, cores, level);
        level := level + 1;
      }
    }
  }

  // ---------------------------------------------------------------- the levels may overlap

  datatype Register = Empty | Holds(value: int)

  /**
   * One position of cluster 0's destination buffer: transfers received, levels added, the register of the core that is
   * adding, and the value. Only the cores of one cluster wait for each other at the end of a level, so the transfer of
   * a level may arrive while cluster 0 still adds for the level before; the global barrier keeps it from running further
   * ahead.
   */
  datatype Cell = Cell(received: nat, added: nat, register: Register, value: int)

  ghost predicate Receive(column: seq<int>, t: Cell, t': Cell) {
    && t.received < Levels(|column|) && t.received <= t.added + 1 && Pow2(t.received) < |column|
    && t' == t.(received := t.received + 1, value := column[Pow2(t.received)])
  }

  ghost predicate Load(t: Cell, t': Cell) {
    t.added < t.received && t.register.Empty? && t' == t.(register := Holds(t.value))
  }

  ghost predicate Store(column: seq<int>, t: Cell, t': Cell) {
    && t.register.Holds? && 0 < |column|
    && t' == t.(register := Empty, value := t.register.value + column[0], added := t.added + 1)
  }

  // At a position that is left over no core adds anything.
  ghost predicate PassOver(t: Cell, t': Cell) {
    t.added < t.received && t' == t.(added := t.added + 1)
  }

  ghost predicate Step(column: seq<int>, adds: bool, t: Cell, t': Cell) {
    || Receive(column, t, t')
    || (adds && (Load(t, t') || Store(column, t, t')))
    || (!adds && PassOver(t, t'))
  }

  ghost predicate Reaches(column: seq<int>, adds: bool, steps: nat, t: Cell) {
    if steps == 0 then t.received == t.added == 0 && t.register.Empty?
    else exists t0: Cell :: Reaches(column, adds, steps - 1, t0) && Step(column, adds, t0, t)
  }

  /** A value that some order of transfers and additions leaves. */
  ghost predicate MayEndWith(column: seq<int>, adds: bool, v: int) {
    if |column| == 1 then v == column[0]
    else exists steps: nat, t: Cell :: Reaches(column, adds, steps, t) && t.added == Levels(|column|) && t.value == v
  }

  /**
   * What is there is the contribution received at level j with that of cluster 0 added k times since: it came when the
   * additions of level j, or those of the level before, had not been made.
   */
  ghost predicate Arrived(column: seq<int>, v: int, received: nat, added: nat, j: nat, k: nat) {
    && j < received && Pow2(j) < |column| && v == column[Pow2(j)] + k * column[0]
    && added <= j + k <= added + if j > 0 then 1 else 0
  }

  ghost predicate SomeArrived(column: seq<int>, v: int, received: nat, added: nat) {
    exists j: nat, k: nat :: Arrived(column, v, received, added, j, k)
  }

  lemma OneMoreReceived(column: seq<int>, v: int, received: nat, added: nat)
    requires SomeArrived(column, v, received, added)
    ensures SomeArrived(column, v, received + 1, added)
  {
    var j: nat, k: nat :| Arrived(column, v, received, added, j, k);
    assert Arrived(column, v, received + 1, added, j, k);
  }

  lemma OneMoreAdded(column: seq<int>, v: int, received: nat, added: nat)
    requires SomeArrived(column, v, received, added)
    ensures 0 < |column| && SomeArrived(column, v + column[0], received, added + 1)
  {
    var j: nat, k: nat :| Arrived(column, v, received, added, j, k);
    Distribute(k, 1, column[0]);
    assert Arrived(column, v + column[0], received, added + 1, j, k + 1);
  }

  ghost predicate CellInv(column: seq<int>, adds: bool, t: Cell) {
    && t.added <= t.received <= Levels(|column|) && (t.register.Holds? ==> t.added < t.received)
    && (adds && t.received > 0 ==> SomeArrived(column, t.value, t.received, t.added))
    && (t.register.Holds? ==> SomeArrived(column, t.register.value, t.received, t.added))
    && (!adds && t.received > 0 ==> Pow2(t.received - 1) < |column| && t.value == column[Pow2(t.received - 1)])
    && (!adds ==> t.register.Empty?)
  }

  lemma ReceiveKeeps(column: seq<int>, adds: bool, t0: Cell, t: Cell)
    requires |column| > 1 && CellInv(column, adds, t0) && Receive(column, t0, t)
    ensures CellInv(column, adds, t)
  {
    assert Arrived(column, t.value, t.received, t.added, t0.received, 0);
    if t.register.Holds? { OneMoreReceived(column, t.register.value, t0.received, t0.added); }
  }

  lemma CellStep(column: seq<int>, adds: bool, t0: Cell, t: Cell)
    requires |column| > 1 && CellInv(column, adds, t0) && Step(column, adds, t0, t)
    ensures CellInv(column, adds, t)
  {
    if Receive(column, t0, t) {
      ReceiveKeeps(column, adds, t0, t);
    } else if adds && Store(column, t0, t) {
      OneMoreAdded(column, t0.register.value, t0.received, t0.added);
    }
  }

  lemma {:induction false} CellInvariant(column: seq<int>, adds: bool, steps: nat, t: Cell)
    requires |column| > 1 && Reaches(column, adds, steps, t)
    ensures CellInv(column, adds, t)
  {
    if steps == 0 {
    } else {
      var t0: Cell :| Reaches(column, adds, steps - 1, t0) && Step(column, adds, t0, t);
      CellInvariant(column, adds, steps - 1, t0);
      CellStep(column, adds, t0, t);
    }
  }

  lemma EndsArrived(column: seq<int>, adds: bool, v: int)
    requires |column| > 1 && MayEndWith(column, adds, v)
    ensures adds ==> SomeArrived(column, v, Levels(|column|), Levels(|column|))
    ensures !adds ==> v == column[LastSender(|column|)]
  {
    LevelsSuffice(|column|);
    var steps: nat, t: Cell :| Reaches(column, adds, steps, t) && t.added == Levels(|column|) && t.value == v;
    CellInvariant(column, adds, steps, t);
  }

  lemma OneStepMore(column: seq<int>, adds: bool, steps: nat, t: Cell, t': Cell)
    requires Reaches(column, adds, steps, t) && Step(column, adds, t, t')
    ensures Reaches(column, adds, steps + 1, t')
  {
  }

  lemma AddOnce(column: seq<int>, steps: nat, t: Cell)
    requires Reaches(column, true, steps, t) && t.register.Empty? && t.added < t.received && 0 < |column|
    ensures Reaches(column, true, steps + 2, t.(added := t.added + 1, value := t.value + column[0]))
  {
    var loaded := t.(register := Holds(t.value));
    OneStepMore(column, true, steps, t, loaded);
    OneStepMore(column, true, steps + 1, loaded, t.(added := t.added + 1, value := t.value + column[0]));
  }

  lemma OneLevel(column: seq<int>, adds: bool, steps: nat, before: Cell) returns (steps': nat)
    requires Reaches(column, adds, steps, before) && before.register.Empty? && before.received == before.added < Levels(|column|)
    requires Pow2(before.received) < |column|
    ensures var l := before.received;
            Reaches(column, adds, steps', Cell(l + 1, l + 1, Empty, column[Pow2(l)] + if adds then column[0] else 0))
  {
    var l := before.received;
    var arrived := Cell(l + 1, l, Empty, column[Pow2(l)]);
    OneStepMore(column, adds, steps, before, arrived);
    if adds {
      AddOnce(column, steps + 1, arrived);
      steps' := steps + 3;
    } else {
      OneStepMore(column, adds, steps + 1, arrived, arrived.(added := l + 1));
      steps' := steps + 2;
    }
  }

  // Level after level is one of the orders.
  lemma {:induction false} InOrder(column: seq<int>, adds: bool, level: nat) returns (steps: nat)
    requires 0 < level <= Levels(|column|)
    ensures Pow2(level - 1) < |column|
    ensures Reaches(column, adds, steps, Cell(level, level, Empty, column[Pow2(level - 1)] + if adds then column[0] else 0))
  {
    var before := Cell(0, 0, Empty, 0);
    if level == 1 {
      steps := 0;
      assert Reaches(column, adds, steps, before);
    } else {
      steps := InOrder(column, adds, level - 1);
      before := Cell(level - 1, level - 1, Empty, column[Pow2(level - 2)] + if adds then column[0] else 0);
    }
    LevelsSuffice(|column|);
    Pow2Mono(level - 1, Levels(|column|) - 1);
    steps := OneLevel(column, adds, steps, before);
  }

  // A transfer arrives while cluster 0 adds, and is overwritten.
  lemma Overwritten(column: seq<int>, steps: nat, t: Cell)
    requires Reaches(column, true, steps, t) && t.register.Empty? && t.received == t.added + 1 < Levels(|column|)
    requires Pow2(t.received) < |column|
    ensures Reaches(column, true, steps + 3, Cell(t.received + 1, t.added + 1, Empty, t.value + column[0]))
  {
    var loaded := t.(register := Holds(t.value));
    var arrived := loaded.(received := t.received + 1, value := column[Pow2(t.received)]);
    OneStepMore(column, true, steps, t, loaded);
    OneStepMore(column, true, steps + 1, loaded, arrived);
    OneStepMore(column, true, steps + 2, arrived, Cell(t.received + 1, t.added + 1, Empty, t.value + column[0]));
  }

  // And so are all that follow.
  lemma {:induction false} Outlasts(column: seq<int>, steps: nat, added: nat, value: int, v: int) returns (steps': nat)
    requires |column| > 1 && added < Levels(|column|) && v == value + (Levels(|column|) - added) * column[0]
    requires Reaches(column, true, steps, Cell(added + 1, added, Empty, value))
    ensures Reaches(column, true, steps', Cell(Levels(|column|), Levels(|column|), Empty, v))
    decreases Levels(|column|) - added
  {
    var n, t := Levels(|column|), Cell(added + 1, added, Empty, value);
    if added + 1 == n {
      AddOnce(column, steps, t);
      steps' := steps + 2;
    } else {
      LevelsSuffice(|column|);
      Pow2Mono(added + 1, n - 1);
      Overwritten(column, steps, t);
      Distribute(1, n - added - 1, column[0]);
      steps' := Outlasts(column, steps + 3, added + 1, value + column[0], v);
    }
  }

  // The transfer of level j arrives once cluster 0 has added for all levels before.
  lemma ArrivesInTime(column: seq<int>, adds: bool, j: nat) returns (steps: nat)
    requires |column| > 1 && j < Levels(|column|)
    ensures Pow2(j) < |column| && Reaches(column, adds, steps, Cell(j + 1, j, Empty, column[Pow2(j)]))
  {
    LevelsSuffice(|column|);
    Pow2Mono(j, Levels(|column|) - 1);
    var before := Cell(0, 0, Empty, 0);
    if j == 0 {
      steps := 0;
      assert Reaches(column, adds, steps, before);
    } else {
      steps := InOrder(column, adds, j);
      before := Cell(j, j, Empty, column[Pow2(j - 1)] + if adds then column[0] else 0);
    }
    OneStepMore(column, adds, steps, before, Cell(j + 1, j, Empty, column[Pow2(j)]));
    steps := steps + 1;
  }

  // It arrives before cluster 0 has begun to add for the level before.
  lemma ArrivesEarly(column: seq<int>, j: nat) returns (steps: nat)
    requires |column| > 1 && 0 < j < Levels(|column|)
    ensures Pow2(j) < |column| && Reaches(column, true, steps, Cell(j + 1, j, Empty, column[Pow2(j)] + column[0]))
  {
    LevelsSuffice(|column|);
    Pow2Mono(j, Levels(|column|) - 1);
    var before := Cell(j, j - 1, Empty, 0);
    steps := ArrivesInTime(column, true, j - 1);
    before := before.(value := column[Pow2(j - 1)]);
    var both := Cell(j + 1, j - 1, Empty, column[Pow2(j)]);
    OneStepMore(column, true, steps, before, both);
    AddOnce(column, steps + 1, both);
    steps := steps + 3;
  }

  lemma ArrivedMayEnd(column: seq<int>, v: int, j: nat, k: nat)
    requires |column| > 1 && Arrived(column, v, Levels(|column|), Levels(|column|), j, k)
    ensures MayEndWith(column, true, v)
  {
    var n, steps, own := Levels(|column|), 0, 0;
    if j + k == n {
      steps := ArrivesInTime(column, true, j);
    } else {
      steps := ArrivesEarly(column, j);
      own := 1;
    }
    Distribute(own, n - j, column[0]);
    steps := Outlasts(column, steps, j, column[Pow2(j)] + own * column[0], v);
  }

  /**
   * Exactly what the orders leave. A position that is added to ends with the contribution of any level j, and that of
   * cluster 0 once for each level from j on, or also for the one before; a position left over ends with the last one sent.
   */
  lemma OutcomesExactly(column: seq<int>, v: int)
    requires |column| > 1
    ensures MayEndWith(column, true, v) <==> SomeArrived(column, v, Levels(|column|), Levels(|column|))
    ensures MayEndWith(column, false, v) <==> v == column[LastSender(|column|)]
  {
    if MayEndWith(column, true, v) { EndsArrived(column, true, v); }
    if MayEndWith(column, false, v) { EndsArrived(column, false, v); }
    if SomeArrived(column, v, Levels(|column|), Levels(|column|)) {
      var j: nat, k: nat :| Arrived(column, v, Levels(|column|), Levels(|column|), j, k);
      ArrivedMayEnd(column, v, j, k);
    }
    LevelsSuffice(|column|);
    var steps := InOrder(column, false, Levels(|column|));
  }

  // A single contribution besides multiples of that of cluster 0.
  ghost predicate SingleAndOwn(column: seq<int>, v: int, c: nat, k: nat) {
    0 < c < |column| && v == column[c] + k * column[0]
  }

  /** In whatever order, no more than one contribution besides that of cluster 0 gets there. */
  lemma OnlyOneArrives(column: seq<int>, adds: bool, v: int)
    requires |column| > 1 && MayEndWith(column, adds, v)
    ensures exists c: nat, k: nat :: SingleAndOwn(column, v, c, k)
    ensures |column| == 2 ==> v == column[1] + if adds then column[0] else 0
  {
    OutcomesExactly(column, v);
    LevelsSuffice(|column|);
    if adds {
      var j: nat, k: nat :| Arrived(column, v, Levels(|column|), Levels(|column|), j, k);
      assert SingleAndOwn(column, v, Pow2(j), k);
    } else {
      assert SingleAndOwn(column, v, LastSender(|column|), 0);
    }
  }

  // ---------------------------------------------------------------- against the sum

  function Column(src: seq<seq<int>>, len: nat, p: nat): (column: seq<int>)
    requires Rows(src, len) && p < len
    ensures |column| == |src|
  {
    seq(|src|, c requires 0 <= c < |src| => src[c][p])
  }

  /** What the levels leave one after the other is among what they may leave. */
  lemma OutcomeMayEnd(src: seq<seq<int>>, len: nat, cores: nat, p: nat)
    requires 0 < |src| && Rows(src, len) && 0 < cores && p < len
    ensures MayEndWith(Column(src, len, p), IsAdded(len, cores, p), Outcome(src, len, cores, p))
  {
    if |src| > 1 {
      LevelsSuffice(|src|);
      var steps := InOrder(Column(src, len, p), IsAdded(len, cores, p), Levels(|src|));
    }
  }

  function Total(column: seq<int>): int {
    if column == [] then 0 else column[0] + Total(column[1..])
  }

  lemma {:induction false} TotalOfOnes(column: seq<int>)
    requires forall c :: 0 <= c < |column| ==> column[c] == 1
    ensures Total(column) == |column|
  {
    if column == [] {
    } else {
      TotalOfOnes(column[1..]);
    }
  }

  // Every order leaves the sum at position p.
  ghost predicate Sums(src: seq<seq<int>>, len: nat, cores: nat, p: nat)
    requires Rows(src, len) && p < len && 0 < cores
  {
    forall v: int :: MayEndWith(Column(src, len, p), IsAdded(len, cores, p), v) ==> v == Total(Column(src, len, p))
  }

  lemma SmallTotal(column: seq<int>)
    requires 1 <= |column| <= 2
    ensures Total(column) == if |column| == 1 then column[0] else column[0] + column[1]
  {
    if |column| == 2 { assert Total(column[1..]) == column[1]; }
  }

  lemma SumsUpToTwo(src: seq<seq<int>>, len: nat, cores: nat, p: nat)
    requires 0 < |src| && Rows(src, len) && 0 < cores && p < len
    requires |src| == 1 || (|src| == 2 && IsAdded(len, cores, p))
    ensures Sums(src, len, cores, p)
  {
    var column := Column(src, len, p);
    SmallTotal(column);
    forall v: int | MayEndWith(column, IsAdded(len, cores, p), v) ensures v == Total(column) {
      if |src| == 2 { OnlyOneArrives(column, true, v); }
    }
  }

  /** With three clusters or more no order whatever leaves the sum, at any position: every cluster but the first gives 1. */
  lemma NoOrderSums(src: seq<seq<int>>, len: nat, cores: nat, p: nat, v: int)
    requires |src| > 2 && Rows(src, len) && 0 < cores && p < len
    requires forall c :: 0 <= c < |src| ==> src[c][p] == if c == 0 then 0 else 1
    requires MayEndWith(Column(src, len, p), IsAdded(len, cores, p), v)
    ensures v == 1 && Total(Column(src, len, p)) == |src| - 1
  {
    var column := Column(src, len, p);
    OnlyOneArrives(column, IsAdded(len, cores, p), v);
    TotalOfOnes(column[1..]);
  }

  // What a caller can check.
  predicate CanSum(n: nat, len: nat, cores: nat)
    requires 0 < cores
  {
    len == 0 || n == 1 || (n == 2 && len % cores == 0)
  }

  // A position at which some contributions are not summed.
  lemma NotSummed(n: nat, len: nat, cores: nat) returns (src: seq<seq<int>>, p: nat)
    requires 0 < n && 0 < cores && !CanSum(n, len, cores)
    ensures |src| == n && Rows(src, len) && p < len && !Sums(src, len, cores, p)
  {
    if n > 2 {
      p := 0;
      src := seq(n, c => seq(len, i => if c == 0 then 0 else 1));
      OutcomeMayEnd(src, len, cores, p);
      NoOrderSums(src, len, cores, p, Outcome(src, len, cores, p));
    } else {
      Split(len, cores);
      p := Added(len, cores);
      src := seq(n, c => seq(len, i => if c == 0 then 1 else 0));
      OutcomeMayEnd(src, len, cores, p);
      SmallTotal(Column(src, len, p));
    }
  }

  /**
   * The tree forwards source buffers, not partial sums, and each core takes len / cores items: every order leaves the sum
   * at every position, for all contributions, exactly when there is nothing to sum, or one cluster, or two with a length
   * that the cores divide.
   */
  lemma SumsIff(n: nat, len: nat, cores: nat)
    requires 0 < n && 0 < cores
    ensures CanSum(n, len, cores) <==>
      forall src: seq<seq<int>>, p: nat :: |src| == n && Rows(src, len) && p < len ==> Sums(src, len, cores, p)
  {
    if CanSum(n, len, cores) {
      forall src: seq<seq<int>>, p: nat | |src| == n && Rows(src, len) && p < len ensures Sums(src, len, cores, p) {
        Split(len, cores);
        SumsUpToTwo(src, len, cores, p);
      }
    } else {
      var src, p := NotSummed(n, len, cores);
    }
  }

  /** Two clusters of eight cores, nine positions: the last keeps what cluster 1 sent. */
  lemma NineAmongEight(src: seq<seq<int>>)
    requires |src| == 2 && Rows(src, 9)
    ensures Outcome(src, 9, 8, 8) == src[1][8]
  {
    LevelsSuffice(2);
  }
}
