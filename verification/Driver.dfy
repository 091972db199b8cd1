// sw/driver/npu_queue.c, npu_dma.c and npu_irq.c on top of the clocked pipeline, interleaved in any
// order: one bus access per clock cycle, software steps between cycles at will.
module Driver {
  import opened Common
  import opened Command
  import opened Fifo
  import opened Core
  import opened Pipeline

  // Where the thread holding cmd_lock is; each name says what it does next. Free: nobody holds the lock.
  datatype Pc =
    | Free
    | SubStatus | SubWindow(k: nat) | SubReinit | SubEnable | SubDoorbell | SubWait | SubDisable | SubUnlock
    | SubBusyUnlock
    | DmaExt | DmaLoc | DmaLen | DmaCtrl | DmaPoll | DmaClear | DmaUnlock

  // Where the interrupt handler is. A dispatched one waits for irq_lock in HandlerEntered and holds it in
  // HandlerStatus and HandlerClear.
  datatype HandlerPc = HandlerIdle | HandlerEntered | HandlerStatus | HandlerClear | HandlerComplete

  datatype Transfer = Transfer(ext: U32, loc: U32, len: U32, fromDevice: bool)

  datatype World = World(sys: System, pc: Pc, hpc: HandlerPc, done: nat, words: Descriptor, xfer: Transfer)

  // shared: the handler may be called for another device on the line (IRQF_SHARED).
  // stale: it may read IRQ_STATUS in the one cycle in which a clear is registered but not yet applied.
  // late: once dispatched, it may get irq_lock only after the line has dropped again.
  // early: the thread may read DMA_STATUS in the one cycle in which a start is registered but not yet applied.
  datatype Policy = Policy(shared: bool, stale: bool, late: bool, early: bool)

  const QUIET := Policy(false, false, false, false)

  datatype BusUser = Nobody | Thread | Handler

  datatype Action =
    | Tick(user: BusUser, be: seq<BackendIn>, mem: Buffers, dmaFinish: bool)
    | StartSubmit(words: Descriptor)
    | StartDma(xfer: Transfer)
    | Reinit
    | Wake
    | Unlock
    | Enter
    | Lock
    | Complete

  predicate HoldsIrqLock(h: HandlerPc) { h == HandlerStatus || h == HandlerClear }

  // The handler is not running, or stopped before its first effect.
  predicate Dormant(h: HandlerPc) { h == HandlerIdle || h == HandlerEntered }

  // The interrupt line as the processor sees it; another device may raise a shared one at any time.
  predicate LineUp(p: Policy, pending: bool, irqEnable: U32) { p.shared || (pending && irqEnable % 2 == 1) }

  // The bus access the thread makes at a program point.
  function ThreadOp(pc: Pc, words: Descriptor, x: Transfer): Mmio {
    match pc
    case SubStatus => Read(REG_STATUS)
    case SubWindow(k) => if k < WORDS then Write(CMD_QUEUE_BASE + 4 * k, words[k]) else NoAccess
    case SubEnable => Write(REG_IRQ_ENABLE, 1)
    case SubDoorbell => Write(REG_DOORBELL, 1)
    case SubDisable => Write(REG_IRQ_ENABLE, 0)
    case DmaExt => Write(REG_DMA_EXT_ADDR, x.ext)
    case DmaLoc => Write(REG_DMA_LOC_ADDR, x.loc)
    case DmaLen => Write(REG_DMA_LEN, x.len)
    case DmaCtrl => Write(REG_DMA_CTRL, if x.fromDevice then 3 else 1)
    case DmaPoll => Read(REG_DMA_STATUS)
    case DmaClear => Write(REG_IRQ_CLEAR, 1)
    case _ => NoAccess
  }

  // Whether the thread may make it now: the spin lock must be free around the enable register.
  predicate ThreadMay(p: Policy, pc: Pc, h: HandlerPc, dmaStart: bool) {
    match pc
    case SubEnable => !HoldsIrqLock(h)
    case SubDisable => !HoldsIrqLock(h)
    case DmaPoll => p.early || !dmaStart
    case SubStatus => true
    case SubWindow(k) => k < WORDS
    case SubDoorbell => true
    case DmaExt => true
    case DmaLoc => true
    case DmaLen => true
    case DmaCtrl => true
    case DmaClear => true
    case _ => false
  }

  // Where the access leaves the thread, given the queue-full and DMA-busy bits it may have read.
  function ThreadNext(pc: Pc, full: bool, dmaBusy: bool): Pc {
    match pc
    case SubStatus => if full then SubBusyUnlock else SubWindow(0)
    case SubWindow(k) => if k + 1 == WORDS then SubReinit else SubWindow(k + 1)
    case SubEnable => SubDoorbell
    case SubDoorbell => SubWait
    case SubDisable => SubUnlock
    case DmaExt => DmaLoc
    case DmaLoc => DmaLen
    case DmaLen => DmaCtrl
    case DmaCtrl => DmaPoll
    case DmaPoll => if dmaBusy then DmaPoll else DmaClear
    case DmaClear => DmaUnlock
    case other => other
  }

  predicate HandlerMay(p: Policy, h: HandlerPc, irqClear: bool) {
    match h
    case HandlerStatus => p.stale || !irqClear
    case HandlerClear => true
    case _ => false
  }

  function HandlerOp(h: HandlerPc): Mmio {
    match h
    case HandlerStatus => Read(REG_IRQ_STATUS)
    case HandlerClear => Write(REG_IRQ_CLEAR, 1)
    case _ => NoAccess
  }

  function HandlerNext(h: HandlerPc, pending: bool): HandlerPc {
    match h
    case HandlerStatus => if pending then HandlerClear else HandlerIdle
    case HandlerClear => HandlerComplete
    case other => other
  }

  function PcAfter(w: World, user: BusUser): Pc
    requires PointersOk(w.sys.shell.queue)
  {
    if user == Thread then ThreadNext(w.pc, Full(w.sys.shell.queue), w.sys.shell.dma == DmaBusy) else w.pc
  }

  function HandlerAfter(w: World, user: BusUser): HandlerPc {
    if user == Handler then HandlerNext(w.hpc, w.sys.shell.pending) else w.hpc
  }

  function TickInput(w: World, a: Action): ShellIn
    requires a.Tick?
  {
    ShellIn(match a.user
            case Nobody => NoAccess
            case Thread => ThreadOp(w.pc, w.words, w.xfer)
            case Handler => HandlerOp(w.hpc),
            a.be, a.mem, a.dmaFinish)
  }

  function SysNext(a: System, i: ShellIn): System
    requires ShellShaped(a.shell, i)
  {
    System(ShellNext(a.shell, i), LedgerNext(a.ledger, a.shell, i))
  }

  predicate TickStep(p: Policy, w: World, a: Action, v: World)
    requires a.Tick?
  {
    var i := TickInput(w, a);
    ShellShaped(w.sys.shell, i) && BackendContract(w.sys.shell.core, CoreInput(w.sys.shell, i)) &&
    (a.user == Thread ==> ThreadMay(p, w.pc, w.hpc, w.sys.shell.reg.dmaStart)) &&
    (a.user == Handler ==> HandlerMay(p, w.hpc, w.sys.shell.reg.irqClear)) &&
    v == w.(sys := SysNext(w.sys, i), pc := PcAfter(w, a.user), hpc := HandlerAfter(w, a.user))
  }

  predicate Step(p: Policy, w: World, a: Action, v: World) {
    match a
    case Tick(_, _, _, _) => TickStep(p, w, a, v)
    case StartSubmit(words) => w.pc == Free && v == w.(pc := SubStatus, words := words)
    case StartDma(x) => w.pc == Free && v == w.(pc := DmaExt, xfer := x)
    case Reinit => w.pc == SubReinit && v == w.(pc := SubEnable, done := 0)
    case Wake => w.pc == SubWait && w.done > 0 && v == w.(pc := SubDisable, done := w.done - 1)
    case Unlock => (w.pc == SubUnlock || w.pc == SubBusyUnlock || w.pc == DmaUnlock) && v == w.(pc := Free)
    case Enter =>
      w.hpc == HandlerIdle && LineUp(p, w.sys.shell.pending, w.sys.shell.reg.irqEnable) &&
      v == w.(hpc := HandlerEntered)
    case Lock =>
      w.hpc == HandlerEntered && (p.late || LineUp(p, w.sys.shell.pending, w.sys.shell.reg.irqEnable)) &&
      v == w.(hpc := HandlerStatus)
    case Complete => w.hpc == HandlerComplete && v == w.(hpc := HandlerIdle, done := w.done + 1)
  }

  predicate IsBoot(w: World) { IsStart(w.sys) && w.pc == Free && w.hpc == HandlerIdle && w.done == 0 }

  predicate IsHistory(p: Policy, ws: seq<World>, acts: seq<Action>) {
    |ws| == |acts| + 1 && IsBoot(ws[0]) &&
    forall k :: 0 <= k < |acts| ==> Step(p, ws[k], acts[k], ws[k + 1])
  }

  // What the driver promises.

  predicate PipelineEmpty(s: ShellState)
    requires Valid(s.queue)
  {
    Outstanding(s) == 0 && !s.reg.doorbell
  }

  // While the lock is free nothing is in flight, and no interrupt is pending unless its clear is already
  // registered.
  predicate FreeMeansEmpty(w: World) {
    Valid(w.sys.shell.queue) &&
    (w.pc == Free ==>
      PipelineEmpty(w.sys.shell) && w.sys.shell.dma == DmaIdle &&
      (w.sys.shell.pending ==> w.sys.shell.reg.irqClear))
  }

  // A submission about to return 0 is the last descriptor accepted, and every accepted descriptor,
  // including it, has been executed or rejected exactly once.
  predicate ReturnsOwnResult(w: World) {
    Valid(w.sys.shell.queue) &&
    (w.pc == SubUnlock ==>
      var l := w.sys.ledger;
      l.accepted != [] && l.accepted[|l.accepted| - 1] == w.words &&
      PipelineEmpty(w.sys.shell) && ExactlyOnce(w.sys))
  }

  predicate Safe(w: World) { FreeMeansEmpty(w) && ReturnsOwnResult(w) && w.pc != SubBusyUnlock }

  // The hardware as the driver sees it.
  datatype View = View(outstanding: nat, doorbell: bool, irqClear: bool, irqEnable: U32, dmaStart: bool, dma: DmaPhase,
                       pending: bool, window: Descriptor, last: Option<Descriptor>)

  function ViewOf(a: System): View
    requires Valid(a.shell.queue)
  {
    var s, l := a.shell, a.ledger;
    View(Outstanding(s), s.reg.doorbell, s.reg.irqClear, s.reg.irqEnable, s.reg.dmaStart, s.dma, s.pending,
         s.reg.window,
         if l.accepted == [] then None else Some(l.accepted[|l.accepted| - 1]))
  }

  predicate Empty(a: View) { a.outstanding == 0 && !a.doorbell }

  function NextWindow(d: Descriptor, m: Mmio): Descriptor {
    if WritesWindow(m) then d[WindowIndex(m.addr) := m.data] else d
  }

  // The pending latch when no command retires in the cycle.
  predicate Latch(a: View) { !a.irqClear && (a.pending || a.dma == DmaDone) }

  // What one clock cycle does to the view when at most one descriptor is outstanding.
  predicate ViewStep(a: View, m: Mmio, b: View) {
    b.doorbell == WritesReg(m, REG_DOORBELL) && b.irqClear == WritesReg(m, REG_IRQ_CLEAR) &&
    b.irqEnable == (if WritesReg(m, REG_IRQ_ENABLE) then m.data else a.irqEnable) &&
    b.dmaStart == (WritesReg(m, REG_DMA_CTRL) && m.data % 2 == 1) &&
    b.window == NextWindow(a.window, m) &&
    (a.dma == DmaIdle ==> b.dma == if a.dmaStart then DmaBusy else DmaIdle) &&
    (a.dma == DmaBusy ==> b.dma != DmaIdle) && (a.dma == DmaDone ==> b.dma == DmaIdle) &&
    (Empty(a) ==> b.outstanding == 0 && b.last == a.last && b.pending == Latch(a)) &&
    (a.outstanding == 0 && a.doorbell ==>
      b.outstanding == 1 && b.last == Some(a.window) && b.pending == Latch(a)) &&
    (a.outstanding == 1 && !a.doorbell ==>
      b.last == a.last &&
      ((b.outstanding == 1 && b.pending == Latch(a)) || (b.outstanding == 0 && b.pending == !a.irqClear)))
  }

  lemma {:induction false} OutstandingStep(s: ShellState, i: ShellIn)
    requires ShellShaped(s, i) && PipeInv(s)
    ensures var t := ShellNext(s, i);
            Valid(t.queue) &&
            (PipelineEmpty(s) ==>
              Outstanding(t) == 0 && !Full(s.queue) && s.fetch.phase == FetchIdle && !Rings(s) &&
              t.pending == (!s.reg.irqClear && (s.pending || s.dma == DmaDone))) &&
            (s.reg.doorbell && Outstanding(s) == 0 ==>
              Outstanding(t) == 1 && !Full(s.queue) && Rings(s) &&
              t.pending == (!s.reg.irqClear && (s.pending || s.dma == DmaDone))) &&
            (!s.reg.doorbell && Outstanding(s) == 1 ==>
              !Rings(s) &&
              ((Outstanding(t) == 1 && t.pending == (!s.reg.irqClear && (s.pending || s.dma == DmaDone))) ||
               (Outstanding(t) == 0 && t.pending == !s.reg.irqClear)))
  {
    QueueStep(s, i);
    FullEmptyExact(s.queue);
  }

  lemma {:induction false} ViewRefines(a: System, i: ShellIn)
    requires ShellShaped(a.shell, i) && PipeInv(a.shell)
    ensures Valid(ShellNext(a.shell, i).queue)
    ensures ViewStep(ViewOf(a), i.mmio, ViewOf(SysNext(a, i)))
  {
    OutstandingStep(a.shell, i);
  }

  // Host discipline holds whenever the view is empty, or a doorbell is registered over an empty pipeline.
  lemma {:induction false} DisciplineFromView(a: System, i: ShellIn)
    requires ShellShaped(a.shell, i) && PipeInv(a.shell) && BackendContract(a.shell.core, CoreInput(a.shell, i))
    requires var v := ViewOf(a);
             v.outstanding <= 1 && (v.doorbell ==> v.outstanding == 0) && (WritesWindow(i.mmio) ==> Empty(v))
    ensures EnvOk(a.shell, i)
  {
    OutstandingStep(a.shell, i);
  }

  // The invariant behind the promise, by program point.

  predicate DmaQuiet(s: View) { s.dma == DmaIdle && !s.dmaStart }
  predicate Settled(s: View) { s.pending ==> s.irqClear }
  predicate NoIrq(s: View) { !s.pending && !s.irqClear }

  predicate WaitInv(s: View, h: HandlerPc, done: nat, words: Descriptor) {
    DmaQuiet(s) && s.window == words && s.irqEnable == 1 &&
    if s.doorbell then s.outstanding == 0 && NoIrq(s) && done == 0 && Dormant(h)
    else
      s.last == Some(words) &&
      if s.outstanding != 0 then s.outstanding == 1 && NoIrq(s) && done == 0 && Dormant(h)
      else
        (done == 0 && h != HandlerComplete && s.pending && !s.irqClear) ||
        (done == 0 && h == HandlerComplete && Settled(s)) ||
        (done == 1 && (Dormant(h) || h == HandlerStatus) && Settled(s))
  }

  predicate PcInv(s: View, pc: Pc, h: HandlerPc, done: nat, words: Descriptor) {
    match pc
    case SubWait => WaitInv(s, h, done, words)
    case SubDisable =>
      Empty(s) && DmaQuiet(s) && Settled(s) && s.irqEnable == 1 && done == 0 && s.last == Some(words) &&
      (Dormant(h) || h == HandlerStatus)
    case SubDoorbell =>
      Empty(s) && DmaQuiet(s) && NoIrq(s) && s.window == words && done == 0 && s.irqEnable == 1 && Dormant(h)
    case SubBusyUnlock => false
    case SubWindow(k) =>
      Empty(s) && s.irqEnable == 0 && Dormant(h) && DmaQuiet(s) && NoIrq(s) && k < WORDS &&
      forall j :: 0 <= j < k ==> s.window[j] == words[j]
    case SubReinit => Empty(s) && s.irqEnable == 0 && Dormant(h) && DmaQuiet(s) && NoIrq(s) && s.window == words
    case SubEnable =>
      Empty(s) && s.irqEnable == 0 && Dormant(h) && DmaQuiet(s) && NoIrq(s) && s.window == words && done == 0
    case SubUnlock =>
      Empty(s) && s.irqEnable == 0 && Dormant(h) && DmaQuiet(s) && Settled(s) && s.last == Some(words)
    case DmaPoll => Empty(s) && s.irqEnable == 0 && Dormant(h) && (s.dmaStart ==> s.dma == DmaIdle)
    case DmaClear => Empty(s) && s.irqEnable == 0 && Dormant(h) && !s.dmaStart && s.dma != DmaBusy
    case _ => Empty(s) && s.irqEnable == 0 && Dormant(h) && DmaQuiet(s) && Settled(s)
  }

  predicate WorldInv(w: World) {
    SystemInv(w.sys) && PcInv(ViewOf(w.sys), w.pc, w.hpc, w.done, w.words)
  }

  // The bus access of a cycle and the software state after it, over views; full is the queue's status bit.
  predicate ViewTick(s: View, m: Mmio, user: BusUser, pc: Pc, h: HandlerPc, words: Descriptor, x: Transfer, full: bool,
                     pc': Pc, h': HandlerPc) {
    match user
    case Nobody => m == NoAccess && pc' == pc && h' == h
    case Handler =>
      m == HandlerOp(h) && pc' == pc && HandlerMay(QUIET, h, s.irqClear) && h' == HandlerNext(h, s.pending)
    case Thread =>
      m == ThreadOp(pc, words, x) && h' == h && ThreadMay(QUIET, pc, h, s.dmaStart) &&
      (s.outstanding == 0 ==> !full) && pc' == ThreadNext(pc, full, s.dma == DmaBusy)
  }

  lemma {:induction false} TickViews(w: World, a: Action, v: World)
    requires a.Tick? && TickStep(QUIET, w, a, v)
    requires Valid(w.sys.shell.queue) && |w.sys.shell.queue.mem| == CMD_QUEUE_DEPTH
    ensures ViewTick(ViewOf(w.sys), TickInput(w, a).mmio, a.user, w.pc, w.hpc, w.words, w.xfer,
                     Full(w.sys.shell.queue), v.pc, v.hpc)
    ensures v.done == w.done && v.words == w.words && v.sys == SysNext(w.sys, TickInput(w, a))
  {
    FullEmptyExact(w.sys.shell.queue);
  }

  lemma {:induction false} WindowWord(k: nat)
    requires k < WORDS
    ensures WindowIndex(CMD_QUEUE_BASE + 4 * k) == k
  {}

  lemma {:induction false} WindowTick(s: View, m: Mmio, user: BusUser, k: nat, h: HandlerPc, words: Descriptor,
                                      x: Transfer, full: bool, pc': Pc, h': HandlerPc, t: View)
    requires PcInv(s, SubWindow(k), h, 0, words)
    requires ViewTick(s, m, user, SubWindow(k), h, words, x, full, pc', h') && ViewStep(s, m, t)
    ensures forall done: nat :: pc' == SubReinit || pc'.SubWindow? ==> PcInv(t, pc', h', done, words)
    ensures pc' == SubReinit || pc'.SubWindow?
  {
    WindowWord(k);
    if pc' == SubReinit {
      assert forall j :: 0 <= j < WORDS ==> t.window[j] == words[j];
    }
  }

  lemma {:induction false} ViewTickKeepsInv(s: View, m: Mmio, user: BusUser, pc: Pc, h: HandlerPc, done: nat,
                                            words: Descriptor, x: Transfer, full: bool,
                                            pc': Pc, h': HandlerPc, t: View)
    requires PcInv(s, pc, h, done, words)
    requires ViewTick(s, m, user, pc, h, words, x, full, pc', h') && ViewStep(s, m, t)
    ensures PcInv(t, pc', h', done, words)
  {
    match pc
    case SubWindow(k) => WindowTick(s, m, user, k, h, words, x, full, pc', h', t);
    case _ =>
  }

  lemma {:induction false} ViewDiscipline(s: View, m: Mmio, user: BusUser, pc: Pc, h: HandlerPc, done: nat,
                                          words: Descriptor, x: Transfer, full: bool, pc': Pc, h': HandlerPc)
    requires PcInv(s, pc, h, done, words) && ViewTick(s, m, user, pc, h, words, x, full, pc', h')
    ensures s.outstanding <= 1 && (s.doorbell ==> s.outstanding == 0) && (WritesWindow(m) ==> Empty(s))
  {}

  lemma {:induction false} TickKeepsInv(w: World, a: Action, v: World)
    requires a.Tick? && WorldInv(w) && TickStep(QUIET, w, a, v)
    ensures WorldInv(v)
  {
    var i, s, full := TickInput(w, a), ViewOf(w.sys), Full(w.sys.shell.queue);
    TickViews(w, a, v);
    ViewDiscipline(s, i.mmio, a.user, w.pc, w.hpc, w.done, w.words, w.xfer, full, v.pc, v.hpc);
    DisciplineFromView(w.sys, i);
    assert Cycle(w.sys, i, v.sys);
    CycleInv(w.sys, i, v.sys);
    ViewRefines(w.sys, i);
    ViewTickKeepsInv(s, i.mmio, a.user, w.pc, w.hpc, w.done, w.words, w.xfer, full, v.pc, v.hpc, ViewOf(v.sys));
  }

  // The software steps leave the hardware alone, so they are judged on its view.
  lemma {:induction false} SoftwareStepKeepsInv(s: View, w: World, a: Action, v: World)
    requires !a.Tick? && Step(QUIET, w, a, v) && PcInv(s, w.pc, w.hpc, w.done, w.words)
    requires s.pending == w.sys.shell.pending && s.irqEnable == w.sys.shell.reg.irqEnable
    ensures v.sys == w.sys && PcInv(s, v.pc, v.hpc, v.done, v.words)
  {}

  lemma SoftwareLeavesHardware(w: World, a: Action, v: World)
    requires !a.Tick? && Step(QUIET, w, a, v)
    ensures v.sys == w.sys
  {}

  lemma {:induction false} StepKeepsInv(w: World, a: Action, v: World)
    requires WorldInv(w) && Step(QUIET, w, a, v)
    ensures WorldInv(v)
  {
    if a.Tick? {
      TickKeepsInv(w, a, v);
    } else {
      SoftwareStepKeepsInv(ViewOf(w.sys), w, a, v);
    }
  }

  lemma {:induction false} InvIsSafe(w: World)
    requires WorldInv(w)
    ensures Safe(w)
  {
    InvMeansEmpty(w);
    InvMeansOwnResult(w);
  }

  lemma {:induction false} InvMeansEmpty(w: World)
    requires WorldInv(w)
    ensures FreeMeansEmpty(w)
  {}

  lemma {:induction false} InvMeansOwnResult(w: World)
    requires WorldInv(w)
    ensures ReturnsOwnResult(w)
  {
    LedgerReading(w.sys);
  }

  lemma {:induction false} BootInv(w: World)
    requires IsBoot(w)
    ensures WorldInv(w)
  {
    StartInv(w.sys);
    FullEmptyExact(w.sys.shell.queue);
  }

  lemma {:induction false} HistoryInv(ws: seq<World>, acts: seq<Action>, t: nat)
    requires IsHistory(QUIET, ws, acts) && t < |ws|
    ensures WorldInv(ws[t])
  {
    if t == 0 {
      BootInv(ws[0]);
    } else {
      HistoryInv(ws, acts, t - 1);
      assert Step(QUIET, ws[t - 1], acts[t - 1], ws[t - 1 + 1]);
      StepKeepsInv(ws[t - 1], acts[t - 1], ws[t]);
    }
  }

  predicate AllSafe(ws: seq<World>) { forall t :: 0 <= t < |ws| ==> Safe(ws[t]) }

  // Safety of a policy: every history it allows is safe throughout.
  ghost predicate AlwaysSafe(p: Policy) {
    forall ws, acts :: IsHistory(p, ws, acts) ==> AllSafe(ws)
  }

  // The promise holds on every history when the handler is called for this device only and gets its lock while
  // the line is still up, and neither side reads a status in the one cycle in which it is stale.
  lemma QuietIsSafe()
    ensures AlwaysSafe(QUIET)
  {
    forall ws, acts | IsHistory(QUIET, ws, acts)
      ensures AllSafe(ws)
    {
      forall t | 0 <= t < |ws| ensures Safe(ws[t]) {
        HistoryInv(ws, acts, t);
        InvIsSafe(ws[t]);
      }
    }
  }

  // Histories that break the promise under the other policies.

  ghost predicate Reaches(p: Policy, w: World) {
    exists ws, acts :: IsHistory(p, ws, acts) && ws[|ws| - 1] == w
  }

  function ZeroWords(): Descriptor { seq(WORDS, _ => 0) }

  lemma ZeroWordsReserved()
    ensures !KnownOpcode(ZeroWords())
  {}

  lemma BootExists() returns (w: World)
    ensures IsBoot(w)
  {
    var reg := RegState(false, false, 0, 0, 0, 0, false, false, ZeroWords(), false, 0);
    var queue := FifoState(seq(CMD_QUEUE_DEPTH, _ => NO_CMD), 0, 0);
    var shell := ShellState(reg, FetchState(FetchIdle, 0), DecodeState(DecodeIdle, ZeroWords(), NO_CMD, false), queue,
                            CORE_RESET, false, DmaIdle);
    w := World(System(shell, Ledger([], [], 0, 0)), Free, HandlerIdle, 0, ZeroWords(), Transfer(0, 0, 0, false));
  }

  lemma ReachesBoot(p: Policy, w: World)
    requires IsBoot(w)
    ensures Reaches(p, w)
  {
    assert IsHistory(p, [w], []);
  }

  // Extending a chain of related states by one, for any relation.
  lemma ExtendChain<S(!new), L(!new)>(rel: (S, L, S) -> bool, ws: seq<S>, acts: seq<L>, a: L, v: S)
    requires |ws| == |acts| + 1 && forall k :: 0 <= k < |acts| ==> rel(ws[k], acts[k], ws[k + 1])
    requires rel(ws[|ws| - 1], a, v)
    ensures forall k :: 0 <= k < |acts + [a]| ==> rel((ws + [v])[k], (acts + [a])[k], (ws + [v])[k + 1])
  {}

  lemma ReachesStep(p: Policy, w: World, a: Action, v: World)
    requires Reaches(p, w) && Step(p, w, a, v)
    ensures Reaches(p, v)
  {
    var ws, acts :| IsHistory(p, ws, acts) && ws[|ws| - 1] == w;
    ExtendChain((x, l, y) => Step(p, x, l, y), ws, acts, a, v);
    assert IsHistory(p, ws + [v], acts + [a]);
  }

  // The histories below are built on what the driver can see of a world.
  datatype Brief = Brief(s: View, pc: Pc, h: HandlerPc, done: nat, words: Descriptor, xfer: Transfer)

  function BriefOf(w: World): Brief
    requires Valid(w.sys.shell.queue)
  {
    Brief(ViewOf(w.sys), w.pc, w.hpc, w.done, w.words, w.xfer)
  }

  function BriefOp(x: Brief, user: BusUser): Mmio {
    match user
    case Nobody => NoAccess
    case Thread => ThreadOp(x.pc, x.words, x.xfer)
    case Handler => HandlerOp(x.h)
  }

  predicate BriefMay(p: Policy, x: Brief, user: BusUser) {
    x.s.outstanding <= 1 && (x.s.doorbell ==> x.s.outstanding == 0) &&
    match user
    case Nobody => true
    case Handler => HandlerMay(p, x.h, x.s.irqClear)
    case Thread =>
      ThreadMay(p, x.pc, x.h, x.s.dmaStart) && (x.pc == SubStatus ==> x.s.outstanding == 0) &&
      (x.pc.SubWindow? || x.pc == SubDoorbell ==> Empty(x.s))
  }

  predicate BriefTick(x: Brief, user: BusUser, finish: bool, y: Brief) {
    ViewStep(x.s, BriefOp(x, user), y.s) && y.s.dma == DmaNext(x.s.dma, x.s.dmaStart, finish) &&
    y.pc == (if user == Thread then ThreadNext(x.pc, false, x.s.dma == DmaBusy) else x.pc) &&
    y.h == (if user == Handler then HandlerNext(x.h, x.s.pending) else x.h) &&
    y.done == x.done && y.words == x.words && y.xfer == x.xfer
  }

  predicate BriefSoft(p: Policy, x: Brief, y: Brief) {
    (x.pc == Free && y == x.(pc := SubStatus, words := y.words)) ||
    (x.pc == Free && y == x.(pc := DmaExt, xfer := y.xfer)) ||
    (x.pc == SubReinit && y == x.(pc := SubEnable, done := 0)) ||
    (x.pc == SubWait && x.done == 1 && y == x.(pc := SubDisable, done := 0)) ||
    ((x.pc == SubUnlock || x.pc == DmaUnlock) && y == x.(pc := Free)) ||
    (x.h == HandlerIdle && LineUp(p, x.s.pending, x.s.irqEnable) && y == x.(h := HandlerEntered)) ||
    (x.h == HandlerEntered && (p.late || LineUp(p, x.s.pending, x.s.irqEnable)) && y == x.(h := HandlerStatus)) ||
    (x.h == HandlerComplete && y == x.(h := HandlerIdle, done := x.done + 1))
  }

  // A set of briefs in which every permitted move can be followed.
  ghost predicate Idles(can: Brief -> bool, x: Brief, user: BusUser, finish: bool) {
    exists y :: can(y) && BriefTick(x, user, finish, y)
  }

  ghost predicate Closed(p: Policy, can: Brief -> bool) {
    (forall x, user, finish {:trigger Idles(can, x, user, finish)} ::
      can(x) && BriefMay(p, x, user) ==> Idles(can, x, user, finish)) &&
    (forall x, y {:trigger BriefSoft(p, x, y)} :: can(x) && BriefSoft(p, x, y) ==> can(y))
  }

  lemma Move(p: Policy, can: Brief -> bool, x: Brief, user: BusUser, finish: bool) returns (y: Brief)
    requires Closed(p, can) && can(x) && BriefMay(p, x, user)
    ensures can(y) && BriefTick(x, user, finish, y)
  {
    assert Idles(can, x, user, finish);
    y :| can(y) && BriefTick(x, user, finish, y);
  }

  lemma Soft(p: Policy, can: Brief -> bool, x: Brief, y: Brief)
    requires Closed(p, can) && can(x) && BriefSoft(p, x, y)
    ensures can(y)
  {}

  // Writing the remaining words of a descriptor over an empty pipeline.
  lemma {:induction false} WriteRest(p: Policy, can: Brief -> bool, x: Brief, k: nat) returns (y: Brief)
    requires Closed(p, can) && can(x) && x.pc == SubWindow(k) && k < WORDS
    requires Empty(x.s) && DmaQuiet(x.s) && NoIrq(x.s) && forall j :: 0 <= j < k ==> x.s.window[j] == x.words[j]
    ensures can(y) && y.pc == SubReinit && y.h == x.h && y.words == x.words
    ensures Empty(y.s) && DmaQuiet(y.s) && NoIrq(y.s) && y.s.window == x.words
    decreases WORDS - k
  {
    y := Move(p, can, x, Thread, false);
    WordWritten(x.s.window, x.words, k);
    if k + 1 < WORDS {
      y := WriteRest(p, can, y, k + 1);
    }
  }

  // Writing word k extends the agreement of the window with the words.
  lemma WordWritten(d: Descriptor, words: Descriptor, k: nat)
    requires k < WORDS && forall j :: 0 <= j < k ==> d[j] == words[j]
    ensures var e := NextWindow(d, Write(CMD_QUEUE_BASE + 4 * k, words[k]));
            (forall j :: 0 <= j < k + 1 ==> e[j] == words[j]) && (k + 1 == WORDS ==> e == words)
  {
    WindowWord(k);
  }

  predicate Rung(x: Brief, words: Descriptor) {
    x.pc == SubWait && x.done == 0 && x.words == words &&
    x.s.doorbell && x.s.outstanding == 0 && DmaQuiet(x.s) && NoIrq(x.s) && x.s.irqEnable == 1 && x.s.window == words
  }

  // A submission from a free lock up to the doorbell.
  lemma {:induction false} SubmitUpToWait(p: Policy, can: Brief -> bool, x: Brief, words: Descriptor) returns (y: Brief)
    requires Closed(p, can) && can(x) && x.pc == Free && !HoldsIrqLock(x.h)
    requires Empty(x.s) && DmaQuiet(x.s) && Settled(x.s)
    ensures can(y) && Rung(y, words) && y.h == x.h
  {
    var x1 := x.(pc := SubStatus, words := words);
    Soft(p, can, x, x1);
    var x2 := Move(p, can, x1, Thread, false);
    var x3 := WriteRest(p, can, x2, 0);
    var x4 := x3.(pc := SubEnable, done := 0);
    Soft(p, can, x3, x4);
    var x5 := Move(p, can, x4, Thread, false);
    y := Move(p, can, x5, Thread, false);
  }

  // A submission that has been woken and is about to return 0 with its descriptor outstanding, or a free lock
  // over a running DMA transfer.
  predicate Broken(x: Brief) {
    (x.pc == SubUnlock && x.s.outstanding == 1) || (x.pc == Free && x.s.dma == DmaBusy)
  }

  // A handler still on its way to complete() wakes the next submission before its descriptor is fetched.
  lemma {:induction false} LateCompleteBreaks(p: Policy, can: Brief -> bool, x: Brief) returns (y: Brief)
    requires Closed(p, can) && can(x) && x.pc == Free && x.h == HandlerComplete
    requires Empty(x.s) && DmaQuiet(x.s) && Settled(x.s)
    ensures can(y) && Broken(y)
  {
    var x1 := SubmitUpToWait(p, can, x, x.words);
    var x2 := x1.(h := HandlerIdle, done := 1);
    Soft(p, can, x1, x2);
    var x3 := x2.(pc := SubDisable, done := 0);
    Soft(p, can, x2, x3);
    y := Move(p, can, x3, Thread, false);
  }

  // A dispatched handler over a pending interrupt, up to just before complete().
  lemma {:induction false} HandlerRun(p: Policy, can: Brief -> bool, x: Brief) returns (y: Brief)
    requires Closed(p, can) && can(x) && x.h == HandlerEntered && (p.late || LineUp(p, x.s.pending, x.s.irqEnable))
    requires Empty(x.s) && DmaQuiet(x.s) && x.s.pending && !x.s.irqClear
    ensures can(y) && y.pc == x.pc && y.h == HandlerComplete && y.done == x.done
    ensures Empty(y.s) && DmaQuiet(y.s) && y.s.pending && y.s.irqClear && y.s.irqEnable == x.s.irqEnable
  {
    var x1 := x.(h := HandlerStatus);
    Soft(p, can, x, x1);
    var x2 := Move(p, can, x1, Handler, false);
    y := Move(p, can, x2, Handler, false);
  }

  // One pass of the handler, from its dispatch on.
  lemma {:induction false} HandlerPass(p: Policy, can: Brief -> bool, x: Brief) returns (y: Brief)
    requires Closed(p, can) && can(x) && x.h == HandlerIdle && LineUp(p, x.s.pending, x.s.irqEnable)
    requires Empty(x.s) && DmaQuiet(x.s) && x.s.pending && !x.s.irqClear
    ensures can(y) && y.pc == x.pc && y.h == HandlerComplete && y.done == x.done
    ensures Empty(y.s) && DmaQuiet(y.s) && y.s.pending && y.s.irqClear && y.s.irqEnable == x.s.irqEnable
  {
    var x1 := x.(h := HandlerEntered);
    Soft(p, can, x, x1);
    y := HandlerRun(p, can, x1);
  }

  // A DMA transfer from a free lock up to its completion interrupt, with the thread still polling.
  lemma {:induction false} DmaInterrupt(p: Policy, can: Brief -> bool, x: Brief) returns (y: Brief)
    requires Closed(p, can) && can(x) && x.pc == Free && Empty(x.s) && DmaQuiet(x.s) && NoIrq(x.s)
    ensures can(y) && y.pc == DmaPoll && y.h == x.h
    ensures Empty(y.s) && DmaQuiet(y.s) && y.s.pending && !y.s.irqClear
  {
    var x1 := DmaStarts(p, can, x);
    y := DmaFinishes(p, can, x1);
  }

  // Up to the cycle in which its start is registered.
  lemma {:induction false} DmaStarts(p: Policy, can: Brief -> bool, x: Brief) returns (y: Brief)
    requires Closed(p, can) && can(x) && x.pc == Free && Empty(x.s) && DmaQuiet(x.s) && NoIrq(x.s)
    ensures can(y) && y.pc == DmaPoll && y.h == x.h
    ensures Empty(y.s) && y.s.dma == DmaIdle && y.s.dmaStart && NoIrq(y.s)
  {
    var x0 := x.(pc := DmaExt);
    Soft(p, can, x, x0);
    var x1 := Move(p, can, x0, Thread, false);
    var x2 := Move(p, can, x1, Thread, false);
    var x3 := Move(p, can, x2, Thread, false);
    y := Move(p, can, x3, Thread, false);
  }

  // A poll that still finds the engine idle ends the call and frees the lock while the transfer runs.
  lemma {:induction false} EarlyPollBreaks(p: Policy, can: Brief -> bool, x: Brief) returns (y: Brief)
    requires p.early && Closed(p, can) && can(x) && x.pc == Free
    requires Empty(x.s) && DmaQuiet(x.s) && NoIrq(x.s)
    ensures can(y) && Broken(y)
  {
    var x1 := DmaStarts(p, can, x);
    var x2 := Move(p, can, x1, Thread, false);
    var x3 := Move(p, can, x2, Thread, false);
    y := x3.(pc := Free);
    Soft(p, can, x3, y);
  }

  lemma {:induction false} DmaFinishes(p: Policy, can: Brief -> bool, x: Brief) returns (y: Brief)
    requires Closed(p, can) && can(x) && x.pc == DmaPoll
    requires Empty(x.s) && x.s.dma == DmaIdle && x.s.dmaStart && NoIrq(x.s)
    ensures can(y) && y.pc == DmaPoll && y.h == x.h
    ensures Empty(y.s) && DmaQuiet(y.s) && y.s.pending && !y.s.irqClear
  {
    var x1 := Move(p, can, x, Nobody, false);
    var x2 := Move(p, can, x1, Nobody, true);
    y := Move(p, can, x2, Nobody, false);
  }

  // A handler that has consumed the interrupt of a DMA transfer outlives it and breaks the next submission.
  lemma {:induction false} ConsumedDmaBreaks(p: Policy, can: Brief -> bool, x: Brief) returns (y: Brief)
    requires Closed(p, can) && can(x) && x.pc == DmaPoll && x.h == HandlerComplete
    requires Empty(x.s) && DmaQuiet(x.s) && x.s.pending && x.s.irqClear
    ensures can(y) && Broken(y)
  {
    var x1 := Move(p, can, x, Thread, false);
    var x2 := Move(p, can, x1, Thread, false);
    var x3 := x2.(pc := Free);
    Soft(p, can, x2, x3);
    y := LateCompleteBreaks(p, can, x3);
  }

  // On a shared line the handler can consume the interrupt of a DMA transfer.
  lemma {:induction false} SharedLineBreaks(p: Policy, can: Brief -> bool, x: Brief) returns (y: Brief)
    requires p.shared && Closed(p, can) && can(x) && x.pc == Free && x.h == HandlerIdle
    requires Empty(x.s) && DmaQuiet(x.s) && NoIrq(x.s)
    ensures can(y) && Broken(y)
  {
    var x1 := DmaInterrupt(p, can, x);
    var x2 := HandlerPass(p, can, x1);
    y := ConsumedDmaBreaks(p, can, x2);
  }

  // The handler's first pass over a command's interrupt, dispatched again in the one cycle before its clear
  // has taken effect.
  lemma {:induction false} DispatchedTwice(p: Policy, can: Brief -> bool, x: Brief) returns (y: Brief)
    requires Closed(p, can) && can(x) && x.pc == SubWait && x.h == HandlerIdle && x.done == 0
    requires Empty(x.s) && DmaQuiet(x.s) && x.s.irqEnable == 1 && x.s.pending && !x.s.irqClear
    ensures can(y) && y.pc == SubWait && y.h == HandlerEntered && y.done == 1
    ensures Empty(y.s) && DmaQuiet(y.s) && y.s.irqEnable == 1 && y.s.pending && y.s.irqClear
  {
    var x1 := HandlerPass(p, can, x);
    var x2 := x1.(h := HandlerIdle, done := 1);
    Soft(p, can, x1, x2);
    y := x2.(h := HandlerEntered);
    Soft(p, can, x2, y);
  }

  // A second pass of the handler can still see the interrupt its first pass has just cleared.
  lemma {:induction false} StaleStatusBreaks(p: Policy, can: Brief -> bool, x: Brief) returns (y: Brief)
    requires p.stale && Closed(p, can) && can(x) && x.pc == SubWait && x.h == HandlerIdle && x.done == 0
    requires Empty(x.s) && DmaQuiet(x.s) && x.s.irqEnable == 1 && x.s.pending && !x.s.irqClear
    ensures can(y) && Broken(y)
  {
    var x2 := DispatchedTwice(p, can, x);
    var x3 := x2.(h := HandlerStatus);
    Soft(p, can, x2, x3);
    var x4 := Move(p, can, x3, Handler, false);
    var x5 := Move(p, can, x4, Handler, false);
    var x6 := x5.(pc := SubDisable, done := 0);
    Soft(p, can, x5, x6);
    var x7 := Move(p, can, x6, Thread, false);
    var x8 := x7.(pc := Free);
    Soft(p, can, x7, x8);
    y := LateCompleteBreaks(p, can, x8);
  }

  // A second pass that gets irq_lock only after the line has dropped can consume the interrupt of a DMA
  // transfer made in between.
  lemma {:induction false} LateLockBreaks(p: Policy, can: Brief -> bool, x: Brief) returns (y: Brief)
    requires p.late && Closed(p, can) && can(x) && x.pc == SubWait && x.h == HandlerIdle && x.done == 0
    requires Empty(x.s) && DmaQuiet(x.s) && x.s.irqEnable == 1 && x.s.pending && !x.s.irqClear
    ensures can(y) && Broken(y)
  {
    var x2 := DispatchedTwice(p, can, x);
    var x3 := x2.(pc := SubDisable, done := 0);
    Soft(p, can, x2, x3);
    var x4 := Move(p, can, x3, Thread, false);
    var x5 := x4.(pc := Free);
    Soft(p, can, x4, x5);
    var x6 := DmaInterrupt(p, can, x5);
    var x7 := HandlerRun(p, can, x6);
    y := ConsumedDmaBreaks(p, can, x7);
  }

  // The briefs of reachable worlds are such a set.

  ghost function CanOf(p: Policy): Brief -> bool {
    x => exists w :: Reaches(p, w) && SystemInv(w.sys) && BriefOf(w) == x
  }

  const IDLE_BACKEND := BackendIn(false, false, false, false, 0, false, 0, false, 0, false)

  // A clock cycle in which no backend moves.
  function IdleAction(user: BusUser, finish: bool): Action {
    Tick(user, seq(BACKENDS, _ => IDLE_BACKEND), Buffers(seq(WeightPort.DEPTH, _ => 0), seq(ACT_DEPTH, _ => 0)), finish)
  }

  function Idled(w: World, user: BusUser, finish: bool): World
    requires ShellShaped(w.sys.shell, TickInput(w, IdleAction(user, finish)))
  {
    w.(sys := SysNext(w.sys, TickInput(w, IdleAction(user, finish))),
       pc := PcAfter(w, user), hpc := HandlerAfter(w, user))
  }

  lemma {:induction false} IdledView(a: System, i: ShellIn)
    requires ShellShaped(a.shell, i) && SystemInv(a) && BackendContract(a.shell.core, CoreInput(a.shell, i))
    requires var v := ViewOf(a);
             v.outstanding <= 1 && (v.doorbell ==> v.outstanding == 0) && (WritesWindow(i.mmio) ==> Empty(v))
    ensures SystemInv(SysNext(a, i)) && ViewStep(ViewOf(a), i.mmio, ViewOf(SysNext(a, i)))
  {
    DisciplineFromView(a, i);
    assert Cycle(a, i, SysNext(a, i));
    CycleInv(a, i, SysNext(a, i));
    ViewRefines(a, i);
  }

  lemma {:induction false} BriefPermits(p: Policy, w: World, user: BusUser, finish: bool)
    requires Valid(w.sys.shell.queue) && |w.sys.shell.queue.mem| == CMD_QUEUE_DEPTH && BriefMay(p, BriefOf(w), user)
    ensures user == Thread ==> ThreadMay(p, w.pc, w.hpc, w.sys.shell.reg.dmaStart)
    ensures user == Thread ==> PcAfter(w, user) == ThreadNext(w.pc, false, w.sys.shell.dma == DmaBusy)
    ensures TickInput(w, IdleAction(user, finish)).mmio == BriefOp(BriefOf(w), user)
    ensures WritesWindow(BriefOp(BriefOf(w), user)) ==> Empty(ViewOf(w.sys))
  {
    FullEmptyExact(w.sys.shell.queue);
  }

  lemma {:induction false} IdledCan(p: Policy, w: World, user: BusUser, finish: bool)
    requires Reaches(p, w) && SystemInv(w.sys) && BriefMay(p, BriefOf(w), user)
    ensures Idles(CanOf(p), BriefOf(w), user, finish)
  {
    IdledReaches(p, w, user, finish);
    IdledBrief(p, w, user, finish);
    var y := BriefOf(Idled(w, user, finish));
    assert CanOf(p)(y) && BriefTick(BriefOf(w), user, finish, y);
  }

  lemma {:induction false} IdledBrief(p: Policy, w: World, user: BusUser, finish: bool)
    requires SystemInv(w.sys) && BriefMay(p, BriefOf(w), user)
    requires ShellShaped(w.sys.shell, TickInput(w, IdleAction(user, finish)))
    ensures SystemInv(Idled(w, user, finish).sys)
    ensures BriefTick(BriefOf(w), user, finish, BriefOf(Idled(w, user, finish)))
  {
    var i := TickInput(w, IdleAction(user, finish));
    assert BackendContract(w.sys.shell.core, CoreInput(w.sys.shell, i));
    BriefPermits(p, w, user, finish);
    IdledView(w.sys, i);
  }

  lemma {:induction false} IdledReaches(p: Policy, w: World, user: BusUser, finish: bool)
    requires Reaches(p, w) && PipeInv(w.sys.shell) && BriefMay(p, BriefOf(w), user)
    ensures ShellShaped(w.sys.shell, TickInput(w, IdleAction(user, finish)))
    ensures Reaches(p, Idled(w, user, finish))
  {
    var a := IdleAction(user, finish);
    assert BackendContract(w.sys.shell.core, CoreInput(w.sys.shell, TickInput(w, a)));
    BriefPermits(p, w, user, finish);
    ReachesStep(p, w, a, Idled(w, user, finish));
  }

  lemma {:induction false} SoftCan(p: Policy, w: World, y: Brief)
    requires Reaches(p, w) && SystemInv(w.sys) && BriefSoft(p, BriefOf(w), y)
    ensures CanOf(p)(y)
  {
    var v := World(w.sys, y.pc, y.h, y.done, y.words, y.xfer);
    var a := SoftAction(p, w, y);
    ReachesStep(p, w, a, v);
    assert BriefOf(v) == y;
  }

  lemma {:induction false} SoftAction(p: Policy, w: World, y: Brief) returns (a: Action)
    requires Valid(w.sys.shell.queue) && BriefSoft(p, BriefOf(w), y)
    ensures Step(p, w, a, World(w.sys, y.pc, y.h, y.done, y.words, y.xfer))
  {
    if y.h == HandlerEntered && w.hpc == HandlerIdle {
      a := Enter;
    } else if y.h == HandlerStatus && w.hpc == HandlerEntered {
      a := Lock;
    } else if y.h == HandlerIdle && w.hpc == HandlerComplete {
      a := Complete;
    } else {
      match w.pc {
        case Free => a := if y.pc == SubStatus then StartSubmit(y.words) else StartDma(y.xfer);
        case SubReinit => a := Reinit;
        case SubWait => a := Wake;
        case _ => a := Unlock;
      }
    }
  }

  lemma {:induction false} CanClosed(p: Policy)
    ensures Closed(p, CanOf(p))
  {
    var can := CanOf(p);
    forall x, user, finish | can(x) && BriefMay(p, x, user)
      ensures Idles(can, x, user, finish)
    {
      var w :| Reaches(p, w) && SystemInv(w.sys) && BriefOf(w) == x;
      IdledCan(p, w, user, finish);
    }
    forall x, y | can(x) && BriefSoft(p, x, y)
      ensures can(y)
    {
      var w :| Reaches(p, w) && SystemInv(w.sys) && BriefOf(w) == x;
      SoftCan(p, w, y);
    }
  }

  lemma {:induction false} BootCan(p: Policy) returns (x: Brief)
    ensures CanOf(p)(x) && x.pc == Free && x.h == HandlerIdle && Empty(x.s) && DmaQuiet(x.s) && NoIrq(x.s)
  {
    var w := BootExists();
    ReachesBoot(p, w);
    BootInv(w);
    x := BriefOf(w);
  }

  lemma {:induction false} BrokenIsUnsafe(p: Policy, x: Brief)
    requires CanOf(p)(x) && Broken(x)
    ensures !AlwaysSafe(p)
  {
    var w :| Reaches(p, w) && SystemInv(w.sys) && BriefOf(w) == x;
    assert !ReturnsOwnResult(w) || !FreeMeansEmpty(w);
    var ws, acts :| IsHistory(p, ws, acts) && ws[|ws| - 1] == w;
    assert !AllSafe(ws);
  }

  // A reserved descriptor on its way from fetch to its rejection, with nothing else going on.
  predicate RejectingShell(h: ShellState) {
    PipeInv(h) && Outstanding(h) == 1 && !h.reg.doorbell && !KnownOpcode(h.reg.window) &&
    Occupancy(h.queue) == 0 && h.core.sched == SchedIdle &&
    (h.dec.phase == DecodeCheck ==> !KnownOpcode(h.dec.words)) && (h.dec.phase == DecodeValid ==> h.dec.err)
  }

  function CyclesLeft(s: ShellState): nat {
    match s.dec.phase
    case DecodeValid => 1
    case DecodeCheck => 2
    case DecodeIdle =>
      if s.fetch.cnt < WORDS then 2 * (WORDS - s.fetch.cnt) + (if s.fetch.phase == FetchRead then 3 else 2) else 0
  }

  lemma {:induction false} RejectingShellStep(h: ShellState, i: ShellIn)
    requires ShellShaped(h, i) && RejectingShell(h) && i.mmio == NoAccess && EnvOk(h, i)
    ensures CyclesLeft(h) >= 1 && PipeInv(ShellNext(h, i))
    ensures CyclesLeft(h) > 1 ==> RejectingShell(ShellNext(h, i)) && CyclesLeft(ShellNext(h, i)) < CyclesLeft(h)
    ensures CyclesLeft(h) == 1 ==> Outstanding(ShellNext(h, i)) == 0
  {
    PipeInvStep(h, i);
    QueueStep(h, i);
    FetchDataStep(h, i);
  }

  predicate Waiting(x: Brief) {
    x.pc == SubWait && x.h == HandlerIdle && x.done == 0 && DmaQuiet(x.s) && x.s.irqEnable == 1
  }

  lemma {:induction false} RejectingView(a: System, i: ShellIn)
    requires SystemInv(a) && RejectingShell(a.shell) && ShellShaped(a.shell, i) && i.mmio == NoAccess
    requires BackendContract(a.shell.core, CoreInput(a.shell, i)) && DmaQuiet(ViewOf(a)) && NoIrq(ViewOf(a))
    ensures CyclesLeft(a.shell) >= 1 && SystemInv(SysNext(a, i)) && ViewStep(ViewOf(a), NoAccess, ViewOf(SysNext(a, i)))
    ensures CyclesLeft(a.shell) > 1 ==>
              RejectingShell(ShellNext(a.shell, i)) && CyclesLeft(ShellNext(a.shell, i)) < CyclesLeft(a.shell) &&
              NoIrq(ViewOf(SysNext(a, i)))
    ensures CyclesLeft(a.shell) == 1 ==>
              Empty(ViewOf(SysNext(a, i))) && ViewOf(SysNext(a, i)).pending && !ViewOf(SysNext(a, i)).irqClear
  {
    DisciplineFromView(a, i);
    RejectingShellStep(a.shell, i);
    IdledView(a, i);
  }

  lemma {:induction false} RunToRejection(p: Policy, w: World) returns (v: World)
    requires Reaches(p, w) && SystemInv(w.sys) && RejectingShell(w.sys.shell)
    requires Waiting(BriefOf(w)) && NoIrq(ViewOf(w.sys))
    ensures Reaches(p, v) && SystemInv(v.sys) && Waiting(BriefOf(v))
    ensures Empty(ViewOf(v.sys)) && ViewOf(v.sys).pending && !ViewOf(v.sys).irqClear
    decreases CyclesLeft(w.sys.shell)
  {
    var i := TickInput(w, IdleAction(Nobody, false));
    IdledReaches(p, w, Nobody, false);
    RejectingView(w.sys, i);
    v := Idled(w, Nobody, false);
    if CyclesLeft(w.sys.shell) > 1 {
      v := RunToRejection(p, v);
    }
  }

  lemma {:induction false} AcceptedIsRejecting(h: ShellState, i: ShellIn)
    requires ShellShaped(h, i) && PipeInv(h) && PipeInv(ShellNext(h, i)) && i.mmio == NoAccess
    requires h.reg.doorbell && Outstanding(h) == 0 && !KnownOpcode(h.reg.window) && Outstanding(ShellNext(h, i)) == 1
    ensures RejectingShell(ShellNext(h, i))
  {
    QueueStep(h, i);
  }

  lemma {:induction false} AcceptedView(a: System, i: ShellIn)
    requires SystemInv(a) && ShellShaped(a.shell, i) && i.mmio == NoAccess && !KnownOpcode(a.shell.reg.window)
    requires BackendContract(a.shell.core, CoreInput(a.shell, i))
    requires var s := ViewOf(a); s.doorbell && s.outstanding == 0 && DmaQuiet(s) && NoIrq(s)
    ensures SystemInv(SysNext(a, i)) && RejectingShell(ShellNext(a.shell, i))
    ensures var t := ViewOf(SysNext(a, i)); DmaQuiet(t) && NoIrq(t) && t.irqEnable == a.shell.reg.irqEnable
  {
    IdledView(a, i);
    AcceptedIsRejecting(a.shell, i);
  }

  lemma {:induction false} AcceptDoorbell(p: Policy, w: World) returns (v: World)
    requires Reaches(p, w) && SystemInv(w.sys) && w.hpc == HandlerIdle && Rung(BriefOf(w), w.words)
    requires !KnownOpcode(w.words)
    ensures Reaches(p, v) && SystemInv(v.sys) && RejectingShell(v.sys.shell)
    ensures Waiting(BriefOf(v)) && NoIrq(ViewOf(v.sys))
  {
    IdledReaches(p, w, Nobody, false);
    v := Idled(w, Nobody, false);
    AcceptedView(w.sys, TickInput(w, IdleAction(Nobody, false)));
  }

  // A submission of a reserved descriptor up to its rejection interrupt.
  lemma {:induction false} RejectionInterrupt(p: Policy) returns (x: Brief)
    ensures CanOf(p)(x) && Waiting(x) && Empty(x.s) && x.s.pending && !x.s.irqClear
  {
    CanClosed(p);
    var x0 := BootCan(p);
    var x1 := SubmitUpToWait(p, CanOf(p), x0, ZeroWords());
    var w1 :| Reaches(p, w1) && SystemInv(w1.sys) && BriefOf(w1) == x1;
    ZeroWordsReserved();
    var w2 := AcceptDoorbell(p, w1);
    var w3 := RunToRejection(p, w2);
    x := BriefOf(w3);
  }

  // The promise holds on every history exactly under the quiet policy.
  lemma DriverPromiseExact(p: Policy)
    ensures AlwaysSafe(p) <==> !p.shared && !p.stale && !p.late && !p.early
  {
    CanClosed(p);
    if p.shared {
      var x := BootCan(p);
      var y := SharedLineBreaks(p, CanOf(p), x);
      BrokenIsUnsafe(p, y);
    } else if p.stale {
      var x := RejectionInterrupt(p);
      var y := StaleStatusBreaks(p, CanOf(p), x);
      BrokenIsUnsafe(p, y);
    } else if p.late {
      var x := RejectionInterrupt(p);
      var y := LateLockBreaks(p, CanOf(p), x);
      BrokenIsUnsafe(p, y);
    } else if p.early {
      var x := BootCan(p);
      var y := EarlyPollBreaks(p, CanOf(p), x);
      BrokenIsUnsafe(p, y);
    } else {
      QuietIsSafe();
    }
  }
}
