// Where an issue comes from, for any trace whatever: an instruction that was offloaded, and for a loop an FREP that was.
// Unless it is permissive, the emulator refuses an FREP in the body of another, so that no FREP is reported as an issue.
module FrepOrigins {
  import opened Frep
  import opened FrepExpansion
  import opened FrepInterleaving

  ghost predicate IsFrep(es: seq<Entry>, pc: int) { exists sec: int :: Entry(pc, sec, true) in es }

  /** The issue is of an instruction among these, and no FREP; if it is from a loop, the FREP named is among them. */
  ghost predicate ComesFrom(es: seq<Entry>, r: Outcome) {
    match r
    case Plain(pc, sec) => Entry(pc, sec, false) in es
    case Looped(pc, sec, fseqPc, _, _) => Entry(pc, sec, false) in es && IsFrep(es, fseqPc)
    case _ => true
  }

  predicate SlotsOk(es: seq<Entry>, buf: seq<Slot>) {
    forall i :: 0 <= i < |buf| ==> Entry(buf[i].pc, buf[i].sec, false) in es
  }

  ghost predicate CfgOk(es: seq<Entry>, cfg: Cfg) { cfg.fseqPc.Some? ==> IsFrep(es, cfg.fseqPc.value) }

  ghost predicate LoopOk(es: seq<Entry>, l: Loop) { CfgOk(es, l.cfg) && SlotsOk(es, l.fpssBuf) && SlotsOk(es, l.outerBuf) }

  // All that is queued has been offloaded; loop buffers hold no FREP; configurations name FREPs.
  ghost predicate QueuesOk(es: seq<Entry>, q: Queues) {
    && (forall i :: 0 <= i < |q.fpssPcs| ==> q.fpssPcs[i] in es)
    && (forall i :: 0 <= i < |q.cfgBuf| ==> CfgOk(es, q.cfgBuf[i]))
    && (q.curr.Some? ==> LoopOk(es, q.curr.value))
  }

  ghost predicate AnnotatorOk(es: seq<Entry>, t: Annotator) {
    QueuesOk(es, t.q) && forall i :: 0 <= i < |t.fseqPcs| ==> IsFrep(es, t.fseqPcs[i])
  }

  lemma {:induction false} PassesOk(es: seq<Entry>, body: seq<Slot>, rep: nat, maxRpt: nat)
    requires SlotsOk(es, body)
    ensures SlotsOk(es, Passes(body, rep, maxRpt))
    decreases maxRpt + 1 - rep
  {
    if rep > maxRpt {
    } else {
      PassesOk(es, body, rep + 1, maxRpt);
    }
  }

  lemma {:induction false} HoldOk(es: seq<Entry>, e: Entry, idx: nat, rep: nat, maxRpt: nat)
    requires e in es && !e.isFrep
    ensures SlotsOk(es, Hold(e, idx, rep, maxRpt))
    decreases maxRpt + 1 - rep
  {
    if rep > maxRpt {
    } else {
      assert e == Entry(e.pc, e.sec, false);
      HoldOk(es, e, idx, rep + 1, maxRpt);
    }
  }

  lemma LoadOk(es: seq<Entry>, l: Loop, e: Entry)
    requires LoopOk(es, l) && e in es && !e.isFrep
    ensures LoopOk(es, Load(l, e))
  {
    assert e == Entry(e.pc, e.sec, false);
    if l.cfg.outer {
      PassesOk(es, l.outerBuf + [Slot(e.pc, e.sec, 0, l.instIter)], 1, l.cfg.maxRpt);
    } else {
      HoldOk(es, e, l.instIter, 0, l.cfg.maxRpt);
    }
  }

  lemma DrainOk(es: seq<Entry>, q: Queues, l: Loop)
    requires QueuesOk(es, q) && LoopOk(es, l)
    ensures QueuesOk(es, Drain(q, l).0) && ComesFrom(es, Drain(q, l).1)
  {
  }

  lemma InLoopOk(es: seq<Entry>, q: Queues, l: Loop)
    requires QueuesOk(es, q) && LoopOk(es, l)
    ensures QueuesOk(es, InLoop(q, l, false).0) && ComesFrom(es, InLoop(q, l, false).1)
  {
    if l.instIter > l.cfg.maxInst {
      DrainOk(es, q, l);
    } else if q.fpssPcs != [] && !q.fpssPcs[0].isFrep {
      LoadOk(es, l, q.fpssPcs[0]);
      DrainOk(es, q.(fpssPcs := q.fpssPcs[1..]), Load(l, q.fpssPcs[0]));
    }
  }

  lemma CallOk(es: seq<Entry>, q: Queues)
    requires QueuesOk(es, q)
    ensures QueuesOk(es, Emul(q, false).0) && ComesFrom(es, Emul(q, false).1)
  {
    if q.curr.Some? {
      InLoopOk(es, q, q.curr.value);
    } else if q.fpssPcs != [] && q.fpssPcs[0].isFrep && q.cfgBuf != [] {
      InLoopOk(es, q.(fpssPcs := q.fpssPcs[1..], cfgBuf := q.cfgBuf[1..]), Loop(q.cfgBuf[0], 0, [], []));
    } else if q.fpssPcs != [] {
      assert q.fpssPcs[0] == Entry(q.fpssPcs[0].pc, q.fpssPcs[0].sec, q.fpssPcs[0].isFrep);
    }
  }

  lemma EventOk(es: seq<Entry>, t: Annotator, e: Event)
    requires AnnotatorOk(es, t) && (e.Offload? ==> e.entry in es)
    ensures AnnotatorOk(es, Handle(Call(false), t, e).0)
    ensures forall i :: 0 <= i < |Handle(Call(false), t, e).1| ==> ComesFrom(es, Handle(Call(false), t, e).1[i])
  {
    match e
    case Offload(entry) =>
      if entry.isFrep { assert entry == Entry(entry.pc, entry.sec, true); }
    case Accept(_) =>
    case Issue => CallOk(es, t.q);
  }

  lemma {:induction false} ReplayOk(es: seq<Entry>, evs: seq<Event>)
    requires forall e :: e in Offloads(evs) ==> e in es
    ensures AnnotatorOk(es, Replay(Call(false), evs).0)
    ensures forall i :: 0 <= i < |Replay(Call(false), evs).1| ==> ComesFrom(es, Replay(Call(false), evs).1[i])
  {
    if evs == [] {
    } else {
      var before, e := evs[..|evs| - 1], evs[|evs| - 1];
      assert forall x :: x in Offloads(before) ==> x in Offloads(evs);
      assert e.Offload? ==> Offloads(evs)[|Offloads(before)|] == e.entry;
      ReplayOk(es, before);
      EventOk(es, Replay(Call(false), before).0, e);
    }
  }

  /**
   * Whatever the trace, unless the emulator is permissive: every issue reported is of an instruction that was offloaded
   * and is no FREP, and names, within a loop, an FREP that was offloaded.
   */
  lemma IssuesHaveOrigins(evs: seq<Event>, i: nat)
    requires i < |Replay(Call(false), evs).1|
    ensures ComesFrom(Offloads(evs), Replay(Call(false), evs).1[i])
  {
    ReplayOk(Offloads(evs), evs);
  }

  /** A permissive one reports here the second FREP as the one instruction of the first. */
  lemma InnerFrepIsIssued(q: Queues)
    requires q == Queues([Entry(0, 0, true), Entry(4, 0, true)], [Cfg(Some(0), true, 0, 0)], None)
    ensures Emul(q, true).1 == Looped(4, 0, 0, 0, 0) && !ComesFrom(q.fpssPcs, Emul(q, true).1)
    ensures Emul(q, false).1 == NestedFrep
  {
    assert Passes([Slot(4, 0, 0, 0)], 1, 0) == [];
  }
}
