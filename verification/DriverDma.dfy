// sw/driver/npu_dma.c on top of the DMA engines: the driver and the pipeline of Driver, with the frontend of Dma
// clocked alongside in place of its abstract phase.
module DriverDma {
  import opened Common
  import opened Pipeline
  import Command
  import Fifo
  import Driver
  import Dma

  // The command the registers hold.
  function Registered(r: RegState): Dma.Request { Dma.Request(r.dmaExt, r.dmaLoc, r.dmaLen) }

  // The driver and its hardware, and the DMA frontend with its memories.
  datatype Both = Both(w: Driver.World, d: Dma.World)

  // What happens in one step: an action of the driver's world and, if it is a clock cycle, one of the frontend's.
  datatype Event = Event(a: Driver.Action, c: Dma.Cycle)

  // The frontend moves with the clock, is started by the register block, and tells the shell when it has finished.
  ghost predicate Together(x: Both, e: Event, y: Both) {
    if e.a.Tick? then
      x.d.Valid() && Follows(x.w.sys.shell.reg, e.c) && y.d == Dma.WorldNext(x.d, e.c) &&
      e.a.dmaFinish == (Dma.PhaseOf(y.d) == DmaDone)
    else y.d == x.d
  }

  predicate Follows(r: RegState, c: Dma.Cycle) {
    c.start == r.dmaStart && c.dir == r.dmaDir && c.cmd == Registered(r)
  }

  ghost predicate Step(x: Both, e: Event, y: Both) {
    Driver.Step(Driver.QUIET, x.w, e.a, y.w) && Together(x, e, y)
  }

  // Every history the quiet policy allows.
  ghost predicate IsRun(xs: seq<Both>, es: seq<Event>) {
    |xs| == |es| + 1 && Driver.IsBoot(xs[0].w) && xs[0].d.Valid() && xs[0].d.AtRest() &&
    forall k :: 0 <= k < |es| ==> Step(xs[k], es[k], xs[k + 1])
  }

  // What every step of a chain keeps holds along it.
  lemma {:induction false} ChainKeeps<S(!new), L(!new)>(rel: (S, L, S) -> bool, inv: S -> bool,
                                                        xs: seq<S>, es: seq<L>, from: nat, t: nat)
    requires |xs| == |es| + 1 && from <= t < |xs| && inv(xs[from])
    requires forall k :: from <= k < t ==> rel(xs[k], es[k], xs[k + 1])
    requires forall x, e, y :: rel(x, e, y) && inv(x) ==> inv(y)
    ensures inv(xs[t])
    decreases t
  {
    if t > from {
      ChainKeeps(rel, inv, xs, es, from, t - 1);
      assert rel(xs[t - 1], es[t - 1], xs[t - 1 + 1]);
    }
  }

  ghost predicate InStep(x: Both) {
    Driver.WorldInv(x.w) && x.d.Valid() && Dma.OneActive(x.d) && Dma.Awaited(x.d) &&
    Dma.PhaseOf(x.d) == x.w.sys.shell.dma
  }

  // No start is registered unless the frontend is at rest.
  lemma StartsAtRest(x: Both, c: Dma.Cycle)
    requires InStep(x) && Follows(x.w.sys.shell.reg, c)
    ensures Dma.StartsAtRest(x.d, c)
  {}

  lemma {:induction false} StepInStep(x: Both, e: Event, y: Both)
    requires InStep(x) && Step(x, e, y)
    ensures InStep(y)
  {
    Driver.StepKeepsInv(x.w, e.a, y.w);
    if e.a.Tick? {
      StartsAtRest(x, e.c);
      Dma.FrontendIsDmaPhase(x.d, e.c);
      Dma.AwaitedStep(x.d, e.c);
      var finish :| Dma.PhaseOf(y.d) == DmaNext(Dma.PhaseOf(x.d), e.c.start, finish);
    } else {
      Driver.SoftwareLeavesHardware(x.w, e.a, y.w);
    }
  }

  // In every quiet history the frontend is where the pipeline model takes it to be, with at most one engine active,
  // and the driver never starts it before it is at rest.
  lemma {:induction false} FrontendInStep(xs: seq<Both>, es: seq<Event>, t: nat)
    requires IsRun(xs, es) && t < |xs|
    ensures InStep(xs[t])
    ensures t < |es| && es[t].a.Tick? ==> Dma.StartsAtRest(xs[t].d, es[t].c)
  {
    Driver.BootInv(xs[0].w);
    forall x, e, y | Step(x, e, y) && InStep(x) ensures InStep(y) { StepInStep(x, e, y); }
    ChainKeeps((x, e, y) => Step(x, e, y), x => InStep(x), xs, es, 0, t);
    if t < |es| && es[t].a.Tick? {
      assert Step(xs[t], es[t], xs[t + 1]);
      StartsAtRest(xs[t], es[t].c);
    }
  }

  // ---- What a call moves ----

  // The job of a call: its arguments, cut to the registers' widths, over the memories it finds.
  function RequestOf(x: Driver.Transfer): Dma.Request { Dma.Request(x.ext, x.loc % Dma.LOC_SIZE, x.len % 0x1_0000) }
  function JobOf(x: Driver.Transfer, d: Dma.World): Dma.Job { Dma.Job(x.fromDevice, RequestOf(x), d.ext, d.local) }

  predicate InCall(pc: Driver.Pc) {
    pc.DmaExt? || pc.DmaLoc? || pc.DmaLen? || pc.DmaCtrl? || pc.DmaPoll? || pc.DmaClear? || pc.DmaUnlock?
  }

  // The registers a call has written by each program point.
  predicate RegsInv(pc: Driver.Pc, r: RegState, j: Dma.Job) {
    match pc
    case DmaExt => !r.dmaStart
    case DmaLoc => !r.dmaStart && r.dmaExt == j.cmd.ext
    case DmaLen => !r.dmaStart && r.dmaExt == j.cmd.ext && r.dmaLoc == j.cmd.loc
    case DmaCtrl => !r.dmaStart && Registered(r) == j.cmd
    case DmaPoll => r.dmaStart ==> Registered(r) == j.cmd && r.dmaDir == j.dir
    case DmaClear => !r.dmaStart
    case DmaUnlock => !r.dmaStart
    case _ => false
  }

  lemma {:induction false} RegsStep(s: Driver.View, m: Mmio, user: Driver.BusUser, pc: Driver.Pc, h: Driver.HandlerPc,
                                    words: Command.Descriptor, x: Driver.Transfer, full: bool, pc': Driver.Pc,
                                    h': Driver.HandlerPc, r: RegState, fetchReq: bool, fetchIdx: nat, j: Dma.Job)
    requires Driver.ViewTick(s, m, user, pc, h, words, x, full, pc', h') && s.dmaStart == r.dmaStart && fetchIdx < 16
    requires j.dir == x.fromDevice && j.cmd == RequestOf(x) && RegsInv(pc, r, j) && InCall(pc')
    ensures RegsInv(pc', RegNext(r, m, fetchReq, fetchIdx), j)
  {}

  // How far the transfer is: not begun while no start has been applied, over once a poll has found it so.
  ghost predicate Progress(pc: Driver.Pc, start: bool, d: Dma.World, j: Dma.Job) {
    match pc
    case DmaPoll => if start then NotBegun(d, j) else Begun(d, j)
    case DmaClear => Begun(d, j) && !d.rd.Busy() && !d.wr.Busy()
    case DmaUnlock => Begun(d, j) && !d.rd.Busy() && !d.wr.Busy()
    case _ => NotBegun(d, j)
  }

  ghost predicate NotBegun(d: Dma.World, j: Dma.Job) {
    d.Valid() && d.AtRest() && d.ext == j.ext && d.local == j.local
  }

  ghost predicate Begun(d: Dma.World, j: Dma.Job) { Dma.Underway(d, j) || Dma.Complete(d, j) }

  lemma {:induction false} BegunStep(d: Dma.World, c: Dma.Cycle, j: Dma.Job)
    requires Begun(d, j) && !c.start
    ensures Begun(Dma.WorldNext(d, c), j)
    ensures !d.rd.Busy() && !d.wr.Busy() ==> !Dma.WorldNext(d, c).rd.Busy() && !Dma.WorldNext(d, c).wr.Busy()
  {
    if !d.rd.Busy() && !d.wr.Busy() {
      Dma.OverStaysOver(d, c, j);
    } else if Dma.Underway(d, j) {
      Dma.StepKeeps(d, c, j);
    }
  }

  lemma {:induction false} RestStep(d: Dma.World, c: Dma.Cycle, j: Dma.Job)
    requires NotBegun(d, j)
    ensures if !c.start then NotBegun(Dma.WorldNext(d, c), j)
            else c.dir == j.dir && c.cmd == j.cmd ==> Begun(Dma.WorldNext(d, c), j)
  {
    if c.start { Dma.StartBegins(d, c); }
  }

  predicate Setup(pc: Driver.Pc) { pc.DmaExt? || pc.DmaLoc? || pc.DmaLen? || pc.DmaCtrl? }
  predicate Finished(pc: Driver.Pc) { pc.DmaClear? || pc.DmaUnlock? }

  // How a clock cycle can move a call on: its start is the write that ends the setup, and a poll ends the wait only
  // when no start is registered and the frontend is not busy.
  predicate MovesOn(pc: Driver.Pc, pc': Driver.Pc, start: bool, start': bool, dma: DmaPhase) {
    (Setup(pc) && Setup(pc') && !start') || (pc.DmaCtrl? && pc'.DmaPoll? && start') ||
    (pc.DmaPoll? && pc'.DmaPoll? && !start') || (pc.DmaPoll? && Finished(pc') && !start' && !start && dma != DmaBusy) ||
    (Finished(pc) && Finished(pc') && !start')
  }

  lemma {:induction false} TickMovesOn(s: Driver.View, m: Mmio, user: Driver.BusUser, pc: Driver.Pc,
                                       h: Driver.HandlerPc, words: Command.Descriptor, x: Driver.Transfer, full: bool,
                                       pc': Driver.Pc, h': Driver.HandlerPc)
    requires Driver.ViewTick(s, m, user, pc, h, words, x, full, pc', h') && InCall(pc) && InCall(pc')
    ensures MovesOn(pc, pc', s.dmaStart, WritesReg(m, REG_DMA_CTRL) && m.data % 2 == 1, s.dma)
  {}

  lemma {:induction false} ProgressStep(pc: Driver.Pc, pc': Driver.Pc, start': bool, d: Dma.World, c: Dma.Cycle,
                                        j: Dma.Job)
    requires MovesOn(pc, pc', c.start, start', Dma.PhaseOf(d)) && d.Valid() && Progress(pc, c.start, d, j)
    requires c.start ==> pc.DmaPoll? && c.dir == j.dir && c.cmd == j.cmd
    ensures Progress(pc', start', Dma.WorldNext(d, c), j)
  {
    if Setup(pc) || c.start { RestStep(d, c, j); } else { BegunStep(d, c, j); }
  }

  ghost predicate CallInv(x: Both, j: Dma.Job) {
    InCall(x.w.pc) && j.Valid() && j.dir == x.w.xfer.fromDevice && j.cmd == RequestOf(x.w.xfer) &&
    RegsInv(x.w.pc, x.w.sys.shell.reg, j) && Progress(x.w.pc, x.w.sys.shell.reg.dmaStart, x.d, j)
  }

  lemma {:induction false} CallTick(x: Both, e: Event, y: Both, j: Dma.Job)
    requires e.a.Tick? && InStep(x) && Step(x, e, y) && CallInv(x, j) && InCall(y.w.pc)
    ensures CallInv(y, j)
  {
    var w, v, a := x.w, y.w, e.a;
    var s, i, sh, full := Driver.ViewOf(w.sys), Driver.TickInput(w, a), w.sys.shell, Fifo.Full(w.sys.shell.queue);
    Driver.TickViews(w, a, v);
    RegsStep(s, i.mmio, a.user, w.pc, w.hpc, w.words, w.xfer, full, v.pc, v.hpc, sh.reg,
             sh.fetch.phase == FetchRead, sh.fetch.cnt, j);
    TickMovesOn(s, i.mmio, a.user, w.pc, w.hpc, w.words, w.xfer, full, v.pc, v.hpc);
    ProgressStep(w.pc, v.pc, v.sys.shell.reg.dmaStart, x.d, e.c, j);
  }

  lemma {:induction false} CallStep(x: Both, e: Event, y: Both, j: Dma.Job)
    requires InStep(x) && Step(x, e, y) && CallInv(x, j) && InCall(y.w.pc)
    ensures InStep(y) && CallInv(y, j)
  {
    StepInStep(x, e, y);
    if e.a.Tick? { CallTick(x, e, y, j); } else { Driver.SoftwareLeavesHardware(x.w, e.a, y.w); }
  }

  // A free lock finds the frontend at rest.
  lemma {:induction false} CallBegins(x: Both, e: Event, y: Both)
    requires InStep(x) && e.a.StartDma? && Step(x, e, y)
    ensures CallInv(y, JobOf(e.a.xfer, x.d))
  {}

  // From its start on, a call stays on the way to moving its block.
  lemma {:induction false} CallRuns(xs: seq<Both>, es: seq<Event>, from: nat, t: nat)
    requires IsRun(xs, es) && from < t < |xs| && es[from].a.StartDma?
    requires forall k :: from < k <= t ==> InCall(xs[k].w.pc)
    ensures CallInv(xs[t], JobOf(es[from].a.xfer, xs[from].d))
  {
    var j := JobOf(es[from].a.xfer, xs[from].d);
    FrontendInStep(xs, es, from);
    FrontendInStep(xs, es, from + 1);
    assert Step(xs[from], es[from], xs[from + 1]);
    CallBegins(xs[from], es[from], xs[from + 1]);
    forall x, e, y | Step(x, e, y) && InCall(y.w.pc) && InStep(x) && CallInv(x, j) ensures InStep(y) && CallInv(y, j) {
      CallStep(x, e, y, j);
    }
    ChainKeeps((x, e, y) => Step(x, e, y) && InCall(y.w.pc), x => InStep(x) && CallInv(x, j), xs, es, from + 1, t);
  }

  // In every quiet history a DMA call that is about to return 0 has moved its whole block, and nothing else.
  lemma {:induction false} CallMovesBlock(xs: seq<Both>, es: seq<Event>, from: nat, t: nat)
    requires IsRun(xs, es) && from < t < |xs| && es[from].a.StartDma?
    requires (forall k :: from < k <= t ==> InCall(xs[k].w.pc)) && xs[t].w.pc == Driver.DmaUnlock
    ensures var j := JobOf(es[from].a.xfer, xs[from].d);
            j.Valid() && xs[t].d.local == j.LocalAfter(j.Count()) && xs[t].d.ext == j.ExtAfter(j.Count())
  {
    CallRuns(xs, es, from, t);
  }
}
