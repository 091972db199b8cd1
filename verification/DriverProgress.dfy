// sw/driver/npu_queue.c and npu_dma.c never get stuck: from every world of every quiet history the holder of
// cmd_lock can go on to its return.
module DriverProgress {
  import opened Common
  import opened Command
  import opened Fifo
  import opened Core
  import opened Pipeline
  import opened Driver

  // A backend that takes a command at once and finishes it in the next cycle, and a DMA engine that finishes.
  const READY_BACKEND := BackendIn(true, true, false, false, 0, false, 0, false, 0, false)

  function HelpfulTick(user: BusUser): Action {
    Tick(user, seq(BACKENDS, _ => READY_BACKEND), Buffers(seq(WeightPort.DEPTH, _ => 0), seq(ACT_DEPTH, _ => 0)), true)
  }

  function Helped(w: World, user: BusUser): World
    requires ShellShaped(w.sys.shell, TickInput(w, HelpfulTick(user)))
  {
    w.(sys := SysNext(w.sys, TickInput(w, HelpfulTick(user))),
       pc := PcAfter(w, user), hpc := HandlerAfter(w, user))
  }

  lemma {:induction false} HelpedIsStep(w: World, user: BusUser)
    requires WorldInv(w)
    requires user == Thread ==> ThreadMay(QUIET, w.pc, w.hpc, w.sys.shell.reg.dmaStart)
    requires user == Handler ==> HandlerMay(QUIET, w.hpc, w.sys.shell.reg.irqClear)
    ensures ShellShaped(w.sys.shell, TickInput(w, HelpfulTick(user)))
    ensures var v := Helped(w, user);
            Step(QUIET, w, HelpfulTick(user), v) && WorldInv(v) &&
            ViewStep(ViewOf(w.sys), TickInput(w, HelpfulTick(user)).mmio, ViewOf(v.sys)) &&
            ViewTick(ViewOf(w.sys), TickInput(w, HelpfulTick(user)).mmio, user, w.pc, w.hpc, w.words, w.xfer,
                     Full(w.sys.shell.queue), v.pc, v.hpc)
  {
    var a := HelpfulTick(user);
    var v := Helped(w, user);
    assert TickStep(QUIET, w, a, v);
    StepKeepsInv(w, a, v);
    TickViews(w, a, v);
    ViewRefines(w.sys, TickInput(w, a));
  }

  // ---- How far the holder is from its return ----

  predicate Returning(pc: Pc) { pc.SubUnlock? || pc.DmaUnlock? }

  function Stage(pc: Pc): nat {
    match pc
    case SubStatus => 22
    case SubWindow(k) => if k < WORDS then 21 - k else 0
    case SubReinit => 5
    case SubEnable => 4
    case SubDoorbell => 3
    case SubWait => 2
    case SubDisable => 1
    case DmaExt => 6
    case DmaLoc => 5
    case DmaLen => 4
    case DmaCtrl => 3
    case DmaPoll => 2
    case DmaClear => 1
    case _ => 0
  }

  // Cycles the one descriptor outstanding still takes.
  function HardwareLeft(s: ShellState): nat
    requires s.fetch.cnt < WORDS
  {
    if s.fetch.phase != FetchIdle then 2 * (WORDS - s.fetch.cnt) + (if s.fetch.phase == FetchRead then 2 else 1) + 3
    else if s.dec.phase != DecodeIdle then (if s.dec.phase == DecodeCheck then 2 else 1) + 3
    else match s.core.sched
         case SchedIdle => 3
         case SchedIssue => 2
         case SchedWait => 1
  }

  lemma {:induction false} HardwareFalls(s: ShellState, i: ShellIn)
    requires ShellShaped(s, i) && PipeInv(s) && EnvOk(s, i) && Outstanding(s) == 1 && !s.reg.doorbell
    requires i.be == seq(BACKENDS, _ => READY_BACKEND)
    ensures PipeInv(ShellNext(s, i))
    ensures Outstanding(ShellNext(s, i)) == 0 ||
            (Outstanding(ShellNext(s, i)) == 1 && HardwareLeft(ShellNext(s, i)) < HardwareLeft(s))
  {
    PipeInvStep(s, i);
    QueueStep(s, i);
    FullEmptyExact(s.queue);
    assert AnyDone(s.core, CoreInput(s, i)) <==> s.core.sched == SchedWait;
  }

  // Within a stage: what the hardware and the handler still have to do before the thread can go on.
  function Within(w: World): nat
    requires w.sys.shell.fetch.cnt < WORDS && Valid(w.sys.shell.queue)
  {
    var s := w.sys.shell;
    match w.pc
    case SubWait =>
      if w.done > 0 then 0 else if s.reg.doorbell then 200 else if Outstanding(s) > 0 then 10 + HardwareLeft(s)
      else HandlerLeft(w.hpc)
    case SubDisable => if w.hpc == HandlerStatus then (if s.reg.irqClear then 2 else 1) else 0
    case DmaPoll => if s.reg.dmaStart then 3 else if s.dma == DmaBusy then 2 else 1
    case _ => 0
  }

  function HandlerLeft(h: HandlerPc): nat {
    match h
    case HandlerIdle => 5
    case HandlerEntered => 4
    case HandlerStatus => 3
    case HandlerClear => 2
    case HandlerComplete => 1
  }

  predicate Submitting(pc: Pc) {
    pc.SubStatus? || pc.SubWindow? || pc.SubReinit? || pc.SubEnable? || pc.SubDoorbell? || pc.SubWait? ||
    pc.SubDisable? || pc.SubUnlock?
  }

  // v is nearer than w to the end of the same call.
  ghost predicate Nearer(w: World, v: World) {
    WorldInv(w) && WorldInv(v) && v.pc != Free && (Submitting(w.pc) <==> Submitting(v.pc)) &&
    v.words == w.words && v.xfer == w.xfer &&
    (Stage(v.pc) < Stage(w.pc) || (v.pc == w.pc && Within(v) < Within(w)))
  }

  // A bus access of the thread takes it on to the next stage of its call.
  lemma {:induction false} AccessMovesOn(pc: Pc, h: HandlerPc, dmaStart: bool, full: bool, dmaBusy: bool)
    requires ThreadMay(QUIET, pc, h, dmaStart) && !(pc == SubStatus && full) && !(pc == DmaPoll && dmaBusy)
    ensures var next := ThreadNext(pc, full, dmaBusy);
            Stage(next) < Stage(pc) && next != Free && (Submitting(pc) <==> Submitting(next))
  {}

  lemma {:induction false} ThreadAdvances(w: World) returns (a: Action, v: World)
    requires WorldInv(w) && ThreadMay(QUIET, w.pc, w.hpc, w.sys.shell.reg.dmaStart)
    requires w.pc == DmaPoll ==> w.sys.shell.dma != DmaBusy
    ensures Step(QUIET, w, a, v) && Nearer(w, v)
  {
    HelpedIsStep(w, Thread);
    a, v := HelpfulTick(Thread), Helped(w, Thread);
    var s, full := ViewOf(w.sys), Full(w.sys.shell.queue);
    assert w.pc == SubStatus ==> s.outstanding == 0;
    AccessMovesOn(w.pc, w.hpc, s.dmaStart, full, s.dma == DmaBusy);
    assert v.pc == ThreadNext(w.pc, full, s.dma == DmaBusy);
  }

  // Waiting for the interrupt: the hardware finishes, then the handler runs, then the thread wakes.
  lemma {:induction false} WaitAdvances(w: World) returns (a: Action, v: World)
    requires WorldInv(w) && w.pc == SubWait
    ensures Step(QUIET, w, a, v) && Nearer(w, v)
  {
    if w.done > 0 {
      a, v := Wake, w.(pc := SubDisable, done := w.done - 1);
      StepKeepsInv(w, a, v);
    } else if w.sys.shell.reg.doorbell || Outstanding(w.sys.shell) > 0 {
      a, v := HardwareAdvances(w);
    } else {
      a, v := HandlerAdvances(w);
    }
  }

  lemma {:induction false} HardwareAdvances(w: World) returns (a: Action, v: World)
    requires WorldInv(w) && w.pc == SubWait && w.done == 0
    requires w.sys.shell.reg.doorbell || Outstanding(w.sys.shell) > 0
    ensures Step(QUIET, w, a, v) && Nearer(w, v)
  {
    HelpedIsStep(w, Nobody);
    a, v := HelpfulTick(Nobody), Helped(w, Nobody);
    HardwareTick(w, v);
  }

  // The doorbell's descriptor is taken up, and one that has been retires in a falling number of cycles.
  lemma {:induction false} HardwareTick(w: World, v: World)
    requires WorldInv(w) && w.pc == SubWait && w.done == 0 && WorldInv(v)
    requires w.sys.shell.reg.doorbell || Outstanding(w.sys.shell) > 0
    requires ShellShaped(w.sys.shell, TickInput(w, HelpfulTick(Nobody))) && v == Helped(w, Nobody)
    requires ViewStep(ViewOf(w.sys), NoAccess, ViewOf(v.sys))
    ensures Within(v) < Within(w)
  {
    if !w.sys.shell.reg.doorbell { WaitingFalls(w, TickInput(w, HelpfulTick(Nobody))); }
  }

  lemma {:induction false} WaitingFalls(w: World, i: ShellIn)
    requires WorldInv(w) && w.pc == SubWait && !w.sys.shell.reg.doorbell && Outstanding(w.sys.shell) > 0
    requires ShellShaped(w.sys.shell, i) && i.mmio == NoAccess && i.be == seq(BACKENDS, _ => READY_BACKEND)
    ensures var t := ShellNext(w.sys.shell, i);
            PipeInv(t) && (Outstanding(t) == 0 || HardwareLeft(t) < HardwareLeft(w.sys.shell))
  {
    DisciplineFromView(w.sys, i);
    HardwareFalls(w.sys.shell, i);
  }

  lemma {:induction false} HandlerAdvances(w: World) returns (a: Action, v: World)
    requires WorldInv(w) && w.pc == SubWait && w.done == 0
    requires !w.sys.shell.reg.doorbell && Outstanding(w.sys.shell) == 0
    ensures Step(QUIET, w, a, v) && Nearer(w, v)
  {
    if HoldsIrqLock(w.hpc) {
      a, v := HandlerTicks(w);
    } else {
      a, v := HandlerMovesOn(w);
    }
  }

  lemma {:induction false} HandlerTicks(w: World) returns (a: Action, v: World)
    requires WorldInv(w) && w.pc == SubWait && w.done == 0 && HoldsIrqLock(w.hpc)
    requires !w.sys.shell.reg.doorbell && Outstanding(w.sys.shell) == 0
    ensures Step(QUIET, w, a, v) && Nearer(w, v)
  {
    PendingForHandler(w);
    HelpedIsStep(w, Handler);
    a, v := HelpfulTick(Handler), Helped(w, Handler);
    HandlerAccess(ViewOf(w.sys), TickInput(w, a).mmio, w.pc, w.hpc, w.words, w.xfer, Full(w.sys.shell.queue),
                  v.pc, v.hpc, ViewOf(v.sys));
  }

  lemma {:induction false} PendingForHandler(w: World)
    requires WorldInv(w) && w.pc == SubWait && w.done == 0 && HoldsIrqLock(w.hpc)
    requires !w.sys.shell.reg.doorbell && Outstanding(w.sys.shell) == 0
    ensures w.sys.shell.pending && !w.sys.shell.reg.irqClear
  {}

  // A handler that finds its interrupt pending goes on to clear it and complete; nothing comes back in flight.
  lemma {:induction false} HandlerAccess(s: View, m: Mmio, pc: Pc, h: HandlerPc, words: Descriptor, x: Transfer,
                                         full: bool, pc': Pc, h': HandlerPc, t: View)
    requires ViewTick(s, m, Handler, pc, h, words, x, full, pc', h') && ViewStep(s, m, t)
    requires HoldsIrqLock(h) && s.pending && Driver.Empty(s)
    ensures pc' == pc && HandlerLeft(h') < HandlerLeft(h) && Driver.Empty(t)
  {}

  lemma {:induction false} HandlerMovesOn(w: World) returns (a: Action, v: World)
    requires WorldInv(w) && w.pc == SubWait && w.done == 0 && !HoldsIrqLock(w.hpc)
    requires !w.sys.shell.reg.doorbell && Outstanding(w.sys.shell) == 0
    ensures Step(QUIET, w, a, v) && Nearer(w, v)
  {
    a := if w.hpc == HandlerIdle then Enter else if w.hpc == HandlerEntered then Lock else Complete;
    v := if w.hpc == HandlerIdle then w.(hpc := HandlerEntered)
         else if w.hpc == HandlerEntered then w.(hpc := HandlerStatus)
         else w.(hpc := HandlerIdle, done := w.done + 1);
    assert w.hpc != HandlerComplete ==> LineUp(QUIET, w.sys.shell.pending, w.sys.shell.reg.irqEnable);
    StepKeepsInv(w, a, v);
  }

  // Disabling the interrupt waits for a handler that holds irq_lock.
  lemma {:induction false} DisableAdvances(w: World) returns (a: Action, v: World)
    requires WorldInv(w) && w.pc == SubDisable
    ensures Step(QUIET, w, a, v) && Nearer(w, v)
  {
    if w.hpc != HandlerStatus {
      a, v := ThreadAdvances(w);
    } else {
      var user := if w.sys.shell.reg.irqClear then Nobody else Handler;
      HelpedIsStep(w, user);
      a, v := HelpfulTick(user), Helped(w, user);
    }
  }

  lemma {:induction false} PollAdvances(w: World) returns (a: Action, v: World)
    requires WorldInv(w) && w.pc == DmaPoll
    ensures Step(QUIET, w, a, v) && Nearer(w, v)
  {
    if !w.sys.shell.reg.dmaStart && w.sys.shell.dma != DmaBusy {
      a, v := ThreadAdvances(w);
    } else {
      HelpedIsStep(w, Nobody);
      a, v := HelpfulTick(Nobody), Helped(w, Nobody);
    }
  }

  // Whoever holds the lock can come nearer to returning.
  lemma {:induction false} Advances(w: World) returns (a: Action, v: World)
    requires WorldInv(w) && w.pc != Free && !Returning(w.pc)
    ensures Step(QUIET, w, a, v) && Nearer(w, v)
  {
    match w.pc {
      case SubWait => a, v := WaitAdvances(w);
      case SubDisable => a, v := DisableAdvances(w);
      case DmaPoll => a, v := PollAdvances(w);
      case SubReinit =>
        a, v := Reinit, w.(pc := SubEnable, done := 0);
        StepKeepsInv(w, a, v);
      case _ => a, v := ThreadAdvances(w);
    }
  }

  // ---- To the return ----

  ghost predicate IsPath(ws: seq<World>, acts: seq<Action>) {
    |ws| == |acts| + 1 && forall k :: 0 <= k < |acts| ==> Step(QUIET, ws[k], acts[k], ws[k + 1])
  }

  lemma {:induction false} PathToReturn(w: World) returns (ws: seq<World>, acts: seq<Action>)
    requires WorldInv(w) && w.pc != Free
    ensures IsPath(ws, acts) && ws[0] == w
    ensures var v := ws[|acts|];
            WorldInv(v) && Returning(v.pc) && (Submitting(w.pc) <==> v.pc == SubUnlock) &&
            v.words == w.words && v.xfer == w.xfer
    decreases Stage(w.pc), Within(w)
  {
    if Returning(w.pc) {
      ws, acts := [w], [];
    } else {
      var a, v := Advances(w);
      var rest, more := PathToReturn(v);
      ws, acts := [w] + rest, [a] + more;
      Prepended(w, a, rest, more);
    }
  }

  lemma {:induction false} Prepended(w: World, a: Action, rest: seq<World>, more: seq<Action>)
    requires IsPath(rest, more) && Step(QUIET, w, a, rest[0])
    ensures IsPath([w] + rest, [a] + more)
  {
    forall k | 0 <= k < |more| + 1 ensures Step(QUIET, ([w] + rest)[k], ([a] + more)[k], ([w] + rest)[k + 1]) {
      if k > 0 { assert Step(QUIET, rest[k - 1], more[k - 1], rest[k - 1 + 1]); }
    }
  }

  // From every world of every quiet history the call that holds the lock can return, with its own result: a
  // submission 0 after its own descriptor, a DMA call after its transfer.
  lemma {:induction false} HolderCanReturn(ws: seq<World>, acts: seq<Action>, t: nat)
    returns (more: seq<World>, steps: seq<Action>)
    requires IsHistory(QUIET, ws, acts) && t < |ws| && ws[t].pc != Free
    ensures IsPath(more, steps) && more[0] == ws[t]
    ensures var v := more[|steps|];
            Safe(v) && v.words == ws[t].words && v.pc == if Submitting(ws[t].pc) then SubUnlock else DmaUnlock
  {
    HistoryInv(ws, acts, t);
    more, steps := PathToReturn(ws[t]);
    InvIsSafe(more[|steps|]);
  }
}
