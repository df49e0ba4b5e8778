// The FPU sequencer emulator of gen_trace.py: it maps every issue seen at the FPU back to the
// instruction that caused it, through queues filled by the core and by the sequencer.
//
// Queues are sequences with the oldest element first (the source pushes with appendleft and takes with pop).
module Frep {

  datatype Option<T> = None | Some(value: T)

  // An offloaded instruction: its program counter, the section it was offloaded in, and whether it is an FREP.
  datatype Entry = Entry(pc: int, sec: int, isFrep: bool)

  // A loop buffer entry, tagged with (repetition, index in the body).
  datatype Slot = Slot(pc: int, sec: int, rep: nat, idx: nat)

  // The configuration of an FREP: the pc of the FREP instruction, and the body and repetition counts less one. The pc is
  // added once the configuration is queued, if there is an FREP to take it from.
  datatype Cfg = Cfg(fseqPc: Option<int>, outer: bool, maxInst: nat, maxRpt: nat)

  // The FREP being worked on.
  datatype Loop = Loop(cfg: Cfg, instIter: nat, fpssBuf: seq<Slot>, outerBuf: seq<Slot>)

  datatype Queues = Queues(fpssPcs: seq<Entry>, cfgBuf: seq<Cfg>, curr: Option<Loop>)

  /**
   * What one call returns. A pop from an empty deque raises, and so does the pc of a configuration that has none; a
   * nested FREP is fatal unless permissive.
   */
  datatype Outcome =
    | Plain(pc: int, sec: int)
    | Looped(pc: int, sec: int, fseqPc: int, rep: nat, idx: nat)
    | Underflow
    | NoPc
    | NestedFrep

  predicate Succeeded(r: Outcome) { r.Plain? || r.Looped? }

  // ---------------------------------------------------------------- one call, as a function

  // Repetition `rep` of the outer loop buffer.
  function Pass(body: seq<Slot>, rep: nat): (r: seq<Slot>)
    ensures |r| == |body|
  {
    seq(|body|, i requires 0 <= i < |body| => Slot(body[i].pc, body[i].sec, rep, i))
  }

  /** Repetitions rep .. maxRpt of an outer loop: the whole body, over and over. */
  function Passes(body: seq<Slot>, rep: nat, maxRpt: nat): seq<Slot>
    decreases maxRpt + 1 - rep
  {
    if rep > maxRpt then [] else Pass(body, rep) + Passes(body, rep + 1, maxRpt)
  }

  /** Repetitions rep .. maxRpt of one instruction of an inner loop. */
  function Hold(e: Entry, idx: nat, rep: nat, maxRpt: nat): (r: seq<Slot>)
    ensures |r| == if rep > maxRpt then 0 else maxRpt + 1 - rep
    decreases maxRpt + 1 - rep
  {
    if rep > maxRpt then [] else [Slot(e.pc, e.sec, rep, idx)] + Hold(e, idx, rep + 1, maxRpt)
  }

  // Taking one more instruction of the body into the loop buffer.
  function Load(l: Loop, e: Entry): Loop {
    if l.cfg.outer then
      var body := l.outerBuf + [Slot(e.pc, e.sec, 0, l.instIter)];
      var more := if l.instIter == l.cfg.maxInst then Passes(body, 1, l.cfg.maxRpt) else [];
      Loop(l.cfg, l.instIter + 1, l.fpssBuf + [Slot(e.pc, e.sec, 0, l.instIter)] + more, body)
    else
      Loop(l.cfg, l.instIter + 1, l.fpssBuf + Hold(e, l.instIter, 0, l.cfg.maxRpt), l.outerBuf)
  }

  // An issue from the loop buffer, with the pc of its FREP.
  function Issued(b: Slot, cfg: Cfg): Outcome {
    match cfg.fseqPc
    case Some(pc) => Looped(b.pc, b.sec, pc, b.rep, b.idx)
    case None => NoPc
  }

  // Taking the next issue out of the loop buffer; the last one ends the loop.
  function Drain(q: Queues, l: Loop): (Queues, Outcome) {
    if l.fpssBuf == [] then
      (q.(curr := Some(l)), Underflow)
    else
      var b := l.fpssBuf[0];
      var over := b.rep == l.cfg.maxRpt && b.idx == l.cfg.maxInst;
      (q.(curr := if over then None else Some(l.(fpssBuf := l.fpssBuf[1..]))), Issued(b, l.cfg))
  }

  function InLoop(q: Queues, l: Loop, permissive: bool): (Queues, Outcome) {
    if l.instIter <= l.cfg.maxInst then
      if q.fpssPcs == [] then
        (q.(curr := Some(l)), Underflow)
      else if q.fpssPcs[0].isFrep && (l.cfg.fseqPc.None? || !permissive) then
        (q.(fpssPcs := q.fpssPcs[1..], curr := Some(l)), if l.cfg.fseqPc.None? then NoPc else NestedFrep)
      else
        Drain(q.(fpssPcs := q.fpssPcs[1..]), Load(l, q.fpssPcs[0]))
    else
      Drain(q, l)
  }

  function Emul(q: Queues, permissive: bool): (Queues, Outcome) {
    if q.curr.Some? then
      InLoop(q, q.curr.value, permissive)
    else if q.fpssPcs == [] then
      (q, Underflow)
    else if !q.fpssPcs[0].isFrep then
      (q.(fpssPcs := q.fpssPcs[1..]), Plain(q.fpssPcs[0].pc, q.fpssPcs[0].sec))
    else if q.cfgBuf == [] then
      (q.(fpssPcs := q.fpssPcs[1..]), Underflow)
    else
      InLoop(q.(fpssPcs := q.fpssPcs[1..], cfgBuf := q.cfgBuf[1..]), Loop(q.cfgBuf[0], 0, [], []), permissive)
  }

  function Oldest(pcs: seq<int>): Option<int> { if pcs == [] then None else Some(pcs[0]) }

  // ---------------------------------------------------------------- the emulator itself

  /** fseq_info of the source, and the members of gen_trace.py that change it. */
  class Sequencer {
    var fpssPcs: seq<Entry>
    var fseqPcs: seq<int>
    var cfgBuf: seq<Cfg>
    var curr: Option<Loop>

    function State(): Queues
      reads this
    {
      Queues(fpssPcs, cfgBuf, curr)
    }

    constructor ()
      ensures State() == Queues([], [], None) && fseqPcs == []
    {
      fpssPcs, fseqPcs, cfgBuf, curr := [], [], [], None;
    }

    /** The core offloads an instruction to the FPU subsystem. */
    method Offload(pc: int, sec: int, isSeqInsn: bool)
      modifies this
      ensures State() == old(State()).(fpssPcs := old(fpssPcs) + [Entry(pc, sec, isSeqInsn)])
      ensures fseqPcs == if isSeqInsn then old(fseqPcs) + [pc] else old(fseqPcs)
    {
      fpssPcs := fpssPcs + [Entry(pc, sec, isSeqInsn)];
      if isSeqInsn {
        fseqPcs := fseqPcs + [pc];
      }
    }

    /**
     * The sequencer accepts an FREP configuration; it belongs to the oldest FREP offloaded and not yet accepted. When
     * there is none, the configuration stays queued without a program counter.
     */
    method CbufPush(outer: bool, maxInst: nat, maxRpt: nat) returns (ok: bool)
      modifies this
      ensures ok <==> old(fseqPcs) != []
      ensures State() == old(State()).(cfgBuf := old(cfgBuf) + [Cfg(Oldest(old(fseqPcs)), outer, maxInst, maxRpt)])
      ensures fseqPcs == if ok then old(fseqPcs)[1..] else old(fseqPcs)
    {
      cfgBuf := cfgBuf + [Cfg(None, outer, maxInst, maxRpt)];
      ok := fseqPcs != [];
      if ok {
        cfgBuf := cfgBuf[|cfgBuf| - 1 := Cfg(Some(fseqPcs[0]), outer, maxInst, maxRpt)];
        fseqPcs := fseqPcs[1..];
      }
    }

    static method Replicate(l: Loop, e: Entry) returns (l': Loop)
      ensures l' == Load(l, e)
    {
      var buf, body := l.fpssBuf, l.outerBuf;
      if l.cfg.outer {
        // An outer loop is repeated as a whole, once its body is complete.
        var entry := Slot(e.pc, e.sec, 0, l.instIter);
        buf, body := buf + [entry], body + [entry];
        if l.instIter == l.cfg.maxInst {
          ghost var full := buf + Passes(body, 1, l.cfg.maxRpt);
          var rep := 1;
          while rep <= l.cfg.maxRpt
            invariant 1 <= rep <= l.cfg.maxRpt + 1
            invariant buf + Passes(body, rep, l.cfg.maxRpt) == full
          {
            ghost var before := buf;
            var i := 0;
            while i < |body|
              invariant 0 <= i <= |body|
              invariant buf == before + Pass(body, rep)[..i]
            {
              buf := buf + [Slot(body[i].pc, body[i].sec, rep, i)];
              i := i + 1;
            }
            assert before + Passes(body, rep, l.cfg.maxRpt) == before + Pass(body, rep) + Passes(body, rep + 1, l.cfg.maxRpt);
            rep := rep + 1;
          }
        }
      } else {
        // An inner loop repeats each instruction as it comes.
        ghost var full := buf + Hold(e, l.instIter, 0, l.cfg.maxRpt);
        var rep := 0;
        while rep < l.cfg.maxRpt + 1
          invariant 0 <= rep <= l.cfg.maxRpt + 1
          invariant buf + Hold(e, l.instIter, rep, l.cfg.maxRpt) == full
        {
          assert buf + Hold(e, l.instIter, rep, l.cfg.maxRpt)
              == buf + [Slot(e.pc, e.sec, rep, l.instIter)] + Hold(e, l.instIter, rep + 1, l.cfg.maxRpt);
          buf := buf + [Slot(e.pc, e.sec, rep, l.instIter)];
          rep := rep + 1;
        }
      }
      l' := Loop(l.cfg, l.instIter + 1, buf, body);
    }

    /** emul_seq: called once for every issue at the FPU. */
    method EmulSeq(permissive: bool) returns (r: Outcome)
      modifies this
      ensures (State(), r) == Emul(old(State()), permissive)
      ensures fseqPcs == old(fseqPcs)
    {
      var cfg := curr;
      if cfg.None? {
        // Idle, and an FREP is next: it is taken together with its configuration.
        var isFrep := fpssPcs != [] && fpssPcs[0].isFrep;
        if isFrep {
          fpssPcs := fpssPcs[1..];
          if cfgBuf == [] { return Underflow; }
          cfg := Some(Loop(cfgBuf[0], 0, [], []));
          cfgBuf := cfgBuf[1..];
          curr := cfg;
        }
      }
      if cfg.Some? {
        var l := cfg.value;
        // The body is not complete yet: one more instruction of it, and what it is repeated as.
        if l.instIter <= l.cfg.maxInst {
          if fpssPcs == [] { return Underflow; }
          var e := fpssPcs[0];
          fpssPcs := fpssPcs[1..];
          if e.isFrep {
            // The message names the pc of the FREP around it.
            if l.cfg.fseqPc.None? { return NoPc; }
            if !permissive { return NestedFrep; }
          }
          l := Replicate(l, e);
        }
        curr := Some(l);
        // This issue is the oldest entry.
        if l.fpssBuf == [] { return Underflow; }
        var b := l.fpssBuf[0];
        // With the last entry of the last repetition the sequencer is idle again.
        if b.rep == l.cfg.maxRpt && b.idx == l.cfg.maxInst {
          curr := None;
        } else {
          curr := Some(l.(fpssBuf := l.fpssBuf[1..]));
        }
        r := Issued(b, l.cfg);
      } else {
        if fpssPcs == [] { return Underflow; }
        r := Plain(fpssPcs[0].pc, fpssPcs[0].sec);
        fpssPcs := fpssPcs[1..];
      }
    }
  }
}
