// The command pipeline of rtl/core/npu_shell.sv: register block, fetch, decode, queue, core and
// interrupt latch, clocked together.
module Pipeline {
  import opened Common
  import opened Command
  import opened Fifo
  import opened Core

  const REG_STATUS := 0x0004
  const REG_DOORBELL := 0x0008
  const REG_IRQ_STATUS := 0x000C
  const REG_IRQ_ENABLE := 0x0010
  const REG_IRQ_CLEAR := 0x0014
  const REG_DMA_EXT_ADDR := 0x0030
  const REG_DMA_LOC_ADDR := 0x0034
  const REG_DMA_LEN := 0x0038
  const REG_DMA_CTRL := 0x003C
  const REG_DMA_STATUS := 0x0040
  const CMD_QUEUE_BASE := 0x1000
  const WEIGHT_BUF_BASE := 0x1_0000
  const CMD_QUEUE_DEPTH := 4

  // One bus access per cycle at most.
  datatype Mmio = NoAccess | Write(addr: nat, data: U32) | Read(addr: nat)

  // npu_reg_block: the registers the pipeline and the driver use.
  datatype RegState = RegState(
    doorbell: bool, irqClear: bool, irqEnable: U32, dmaExt: U32, dmaLoc: U20, dmaLen: U16, dmaStart: bool, dmaDir: bool,
    window: Descriptor, fetchValid: bool, fetchData: U32)

  predicate WritesWindow(m: Mmio) {
    m.Write? && CMD_QUEUE_BASE <= m.addr < WEIGHT_BUF_BASE
  }

  // The window repeats every sixteen words.
  function WindowIndex(addr: nat): (k: nat)
    requires CMD_QUEUE_BASE <= addr
    ensures k < WORDS
  {
    (addr - CMD_QUEUE_BASE) / 4 % WORDS
  }

  // Byte b of word k of any copy of the window is word k's.
  lemma {:induction false} WindowRepeats(copy: nat, k: nat, b: nat)
    requires k < 16 && b < 4
    ensures WindowIndex(0x1000 + 64 * copy + 4 * k + b) == k
  {
    DivUnique(64 * copy + 4 * k + b, 4, 16 * copy + k, b);
    DivUnique(16 * copy + k, 16, copy, k);
  }

  predicate WritesReg(m: Mmio, addr: nat) { m.Write? && m.addr == addr }

  function RegNext(r: RegState, m: Mmio, fetchReq: bool, fetchIdx: nat): RegState
    requires fetchIdx < WORDS
  {
    RegState(
      WritesReg(m, REG_DOORBELL),
      WritesReg(m, REG_IRQ_CLEAR),
      if WritesReg(m, REG_IRQ_ENABLE) then m.data else r.irqEnable,
      if WritesReg(m, REG_DMA_EXT_ADDR) then m.data else r.dmaExt,
      if WritesReg(m, REG_DMA_LOC_ADDR) then m.data % 0x10_0000 else r.dmaLoc,
      if WritesReg(m, REG_DMA_LEN) then Low16(m.data) else r.dmaLen,
      WritesReg(m, REG_DMA_CTRL) && m.data % 2 == 1,
      if WritesReg(m, REG_DMA_CTRL) then m.data / 2 % 2 == 1 else r.dmaDir,
      if WritesWindow(m) then r.window[WindowIndex(m.addr) := m.data] else r.window,
      fetchReq,
      if fetchReq then r.window[fetchIdx] else r.fetchData)
  }

  // npu_cmd_fetch

  datatype FetchPhase = FetchIdle | FetchRead | FetchWait
  datatype FetchState = FetchState(phase: FetchPhase, cnt: nat)

  function FetchNext(f: FetchState, doorbell: bool, rdValid: bool): FetchState {
    match f.phase
    case FetchIdle => if doorbell then FetchState(FetchRead, 0) else f
    case FetchRead => f.(phase := FetchWait)
    case FetchWait =>
      if !rdValid then f
      else FetchState(if f.cnt == WORDS - 1 then FetchIdle else FetchRead, (f.cnt + 1) % 16)
  }

  predicate WordValid(f: FetchState, rdValid: bool) { f.phase == FetchWait && rdValid }
  predicate DescDone(f: FetchState, rdValid: bool) { WordValid(f, rdValid) && f.cnt == WORDS - 1 }

  // npu_cmd_decode

  datatype DecodePhase = DecodeIdle | DecodeCheck | DecodeValid
  datatype DecodeState = DecodeState(phase: DecodePhase, words: Descriptor, cmd: ConvCmd, err: bool)

  predicate Offers(d: DecodeState) { d.phase == DecodeValid && !d.err }
  predicate DecodeErr(d: DecodeState) { d.phase == DecodeValid && d.err }

  function DecodeNext(d: DecodeState, word: U32, idx: nat, wordValid: bool, descDone: bool, ready: bool): DecodeState
    requires idx < WORDS
  {
    DecodeState(
      match d.phase
      case DecodeIdle => if descDone then DecodeCheck else DecodeIdle
      case DecodeCheck => DecodeValid
      case DecodeValid => if ready || d.err then DecodeIdle else DecodeValid,
      if wordValid then d.words[idx := word] else d.words,
      if d.phase == DecodeCheck then DecodeCmd(d.words) else d.cmd,
      if d.phase == DecodeCheck then !KnownOpcode(d.words) else d.err)
  }

  // npu_irq_ctrl: clear wins over set.
  function IrqNext(pending: bool, cmdDone: bool, err: bool, clear: bool): bool {
    if clear then false else pending || cmdDone || err
  }

  // The DMA frontend as the pipeline sees it: busy while moving data, then one done cycle.
  datatype DmaPhase = DmaIdle | DmaBusy | DmaDone

  function DmaNext(p: DmaPhase, start: bool, finish: bool): DmaPhase {
    match p
    case DmaIdle => if start then DmaBusy else DmaIdle
    case DmaBusy => if finish then DmaDone else DmaBusy
    case DmaDone => DmaIdle
  }

  // npu_shell

  datatype ShellState = ShellState(
    reg: RegState, fetch: FetchState, dec: DecodeState, queue: FifoState<ConvCmd>, core: CoreState,
    pending: bool, dma: DmaPhase)

  datatype ShellIn = ShellIn(mmio: Mmio, be: seq<BackendIn>, mem: Buffers, dmaFinish: bool)

  predicate ShellShaped(s: ShellState, i: ShellIn) {
    s.fetch.cnt < WORDS && PointersOk(s.queue) && |s.queue.mem| == CMD_QUEUE_DEPTH && Shaped(s.core, CoreInput(s, i))
  }

  function QueueHead(q: FifoState<ConvCmd>): Option<ConvCmd>
  {
    if PointersOk(q) && !Empty(q) then Some(q.mem[Slot(q.rd, |q.mem|)]) else None
  }

  function CoreInput(s: ShellState, i: ShellIn): CoreIn {
    CoreIn(QueueHead(s.queue), i.be, i.mem)
  }

  function ShellNext(s: ShellState, i: ShellIn): ShellState
    requires ShellShaped(s, i)
  {
    ShellState(
      RegNext(s.reg, i.mmio, s.fetch.phase == FetchRead, s.fetch.cnt),
      FetchNext(s.fetch, s.reg.doorbell, s.reg.fetchValid),
      DecodeNext(s.dec, s.reg.fetchData, s.fetch.cnt, WordValid(s.fetch, s.reg.fetchValid),
                 DescDone(s.fetch, s.reg.fetchValid), !Full(s.queue)),
      FifoNext(s.queue, Offers(s.dec), s.dec.cmd, s.core.sched == SchedIdle),
      CoreNext(s.core, CoreInput(s, i)),
      IrqNext(s.pending, AnyDone(s.core, CoreInput(s, i)) || s.dma == DmaDone, DecodeErr(s.dec), s.reg.irqClear),
      DmaNext(s.dma, s.reg.dmaStart, i.dmaFinish))
  }

  // Reset clears every state machine and pulse; the window and the queue's storage keep what they held.
  predicate CoreIsReset(c: CoreState) {
    c.sched == SchedIdle && c.beSel == 0 && !c.actValid && c.port == WeightPort.RESET &&
    |c.running| == BACKENDS && forall b :: 0 <= b < BACKENDS ==> !c.running[b]
  }

  predicate ShellIsReset(s: ShellState) {
    !s.reg.doorbell && !s.reg.irqClear && s.reg.irqEnable == 0 && !s.reg.dmaStart && !s.reg.fetchValid &&
    s.fetch == FetchState(FetchIdle, 0) && s.dec.phase == DecodeIdle && !s.dec.err &&
    |s.queue.mem| == CMD_QUEUE_DEPTH && s.queue.wr == 0 && s.queue.rd == 0 &&
    CoreIsReset(s.core) && !s.pending && s.dma == DmaIdle
  }

  // What has happened so far: descriptors accepted by a doorbell, commands taken by a backend, decode errors
  // raised and commands completed.
  datatype Ledger = Ledger(accepted: seq<Descriptor>, issued: seq<ConvCmd>, rejected: nat, completed: nat)

  predicate Rings(s: ShellState) { s.reg.doorbell && s.fetch.phase == FetchIdle }

  predicate Issues(s: ShellState, i: ShellIn)
    requires ShellShaped(s, i)
  {
    s.core.sched == SchedIssue && DispatchReady(s.core, CoreInput(s, i))
  }

  predicate Completes(s: ShellState, i: ShellIn)
    requires ShellShaped(s, i)
  {
    s.core.sched == SchedWait && AnyDone(s.core, CoreInput(s, i))
  }

  // A command is issued when the backend its opcode names accepts it, no other backend ever accepts one, and a
  // completion comes from that backend.
  lemma {:induction false} IssuedToItsBackend(s: ShellState, i: ShellIn, b: nat)
    requires ShellShaped(s, i) && CoreInv(s.core) && b < BACKENDS
    ensures Accept(s.core, CoreInput(s, i), b) <==> Issues(s, i) && b == Target(s.core.cmd.opcode)
    ensures Done(s.core, CoreInput(s, i), b) ==> Completes(s, i) && b == Target(s.core.cmd.opcode)
    ensures 1 <= s.core.cmd.opcode <= 6 ==> Target(s.core.cmd.opcode) == s.core.cmd.opcode - 1
    ensures Completes(s, i) ==> Done(s.core, CoreInput(s, i), Target(s.core.cmd.opcode))
  {}

  function LedgerNext(l: Ledger, s: ShellState, i: ShellIn): Ledger
    requires ShellShaped(s, i)
  {
    Ledger(
      if Rings(s) then l.accepted + [s.reg.window] else l.accepted,
      if Issues(s, i) then l.issued + [s.core.cmd] else l.issued,
      if DecodeErr(s.dec) then l.rejected + 1 else l.rejected,
      if Completes(s, i) then l.completed + 1 else l.completed)
  }

  // What the host and the backends owe: no accepted doorbell on a full queue, no window write while a
  // descriptor is being fetched or about to be, and the backend contract.
  predicate EnvOk(s: ShellState, i: ShellIn)
    requires ShellShaped(s, i)
  {
    (Rings(s) ==> !Full(s.queue)) &&
    (WritesWindow(i.mmio) ==> s.fetch.phase == FetchIdle && !s.reg.doorbell) &&
    BackendContract(s.core, CoreInput(s, i))
  }

  // The commands a list of descriptors asks for, in order; reserved opcodes ask for none.
  function One(d: Descriptor): seq<ConvCmd> {
    if KnownOpcode(d) then [DecodeCmd(d)] else []
  }

  function Commands(ds: seq<Descriptor>): seq<ConvCmd> {
    if ds == [] then [] else Commands(ds[..|ds| - 1]) + One(ds[|ds| - 1])
  }

  function Reserved(ds: seq<Descriptor>): nat {
    if ds == [] then 0 else Reserved(ds[..|ds| - 1]) + (if KnownOpcode(ds[|ds| - 1]) then 0 else 1)
  }

  function B(b: bool): nat { if b then 1 else 0 }

  // Commands in each section of the pipeline, oldest section first.
  function InIssue(c: CoreState): seq<ConvCmd> { if c.sched == SchedIssue then [c.cmd] else [] }

  function InDecode(d: DecodeState): seq<ConvCmd> {
    match d.phase
    case DecodeIdle => []
    case DecodeCheck => One(d.words)
    case DecodeValid => if d.err then [] else [d.cmd]
  }

  function InFetch(s: ShellState): seq<ConvCmd> {
    if s.fetch.phase == FetchIdle then [] else One(s.reg.window)
  }

  function InFlight(s: ShellState): seq<ConvCmd>
    requires Valid(s.queue)
  {
    InIssue(s.core) + (Contents(s.queue) + (InDecode(s.dec) + InFetch(s)))
  }

  function RejectsInFlight(s: ShellState): nat {
    B(s.dec.phase == DecodeCheck && !KnownOpcode(s.dec.words)) + B(DecodeErr(s.dec)) +
    B(s.fetch.phase != FetchIdle && !KnownOpcode(s.reg.window))
  }

  // How many accepted descriptors have not retired.
  function Outstanding(s: ShellState): nat
    requires Valid(s.queue)
  {
    B(s.fetch.phase != FetchIdle) + B(s.dec.phase != DecodeIdle) + Occupancy(s.queue) + B(s.core.sched != SchedIdle)
  }

  // The timing invariant. Fetch never stalls; the words fetched so far equal the window; and decode is
  // idle for the whole of a fetch except possibly its first cycle, in which it is about to drain.
  predicate PipeInv(s: ShellState) {
    s.fetch.cnt < WORDS && Valid(s.queue) && |s.queue.mem| == CMD_QUEUE_DEPTH && CoreInv(s.core) &&
    (s.reg.fetchValid <==> s.fetch.phase == FetchWait) &&
    (s.fetch.phase == FetchWait ==> s.reg.fetchData == s.reg.window[s.fetch.cnt]) &&
    (s.fetch.phase != FetchIdle ==> s.dec.words[..s.fetch.cnt] == s.reg.window[..s.fetch.cnt]) &&
    (s.fetch.phase != FetchIdle ==>
      s.dec.phase == DecodeIdle ||
      (s.fetch.phase == FetchRead && s.fetch.cnt == 0 && s.dec.phase == DecodeValid &&
       (s.dec.err || !Full(s.queue))))
  }

  // The ledger: every accepted descriptor is accounted for once, as a count and as a sequence.
  predicate Balanced(l: Ledger, s: ShellState)
    requires Valid(s.queue)
  {
    |l.accepted| == l.rejected + l.completed + Outstanding(s)
  }

  predicate InOrder(l: Ledger, s: ShellState)
    requires Valid(s.queue)
  {
    Commands(l.accepted) == l.issued + InFlight(s) &&
    Reserved(l.accepted) == l.rejected + RejectsInFlight(s) &&
    |l.issued| == l.completed + B(s.core.sched == SchedWait) &&
    (s.core.sched == SchedWait ==> l.issued[|l.issued| - 1] == s.core.cmd)
  }

  // Step lemmas

  lemma {:induction false} PipeInvStep(s: ShellState, i: ShellIn)
    requires ShellShaped(s, i) && PipeInv(s) && EnvOk(s, i)
    ensures PipeInv(ShellNext(s, i))
  {
    CoreStep(s.core, CoreInput(s, i));
    QueueStep(s, i);
    var t := ShellNext(s, i);
    FetchDataStep(s, i);
    DrainStep(s, i);
  }

  lemma {:induction false} QueueStep(s: ShellState, i: ShellIn)
    requires ShellShaped(s, i) && Valid(s.queue)
    ensures var t := ShellNext(s, i);
            Valid(t.queue) && |t.queue.mem| == CMD_QUEUE_DEPTH &&
            Contents(t.queue)
            == QueueNext(Contents(s.queue), CMD_QUEUE_DEPTH, Offers(s.dec), s.dec.cmd, s.core.sched == SchedIdle)
    ensures Full(s.queue) <==> |Contents(s.queue)| == CMD_QUEUE_DEPTH
    ensures QueueHead(s.queue) == if Contents(s.queue) == [] then None else Some(Contents(s.queue)[0])
  {
    FullEmptyExact(s.queue);
    FifoRefinesQueue(s.queue, Offers(s.dec), s.dec.cmd, s.core.sched == SchedIdle);
  }

  lemma {:induction false} FetchDataStep(s: ShellState, i: ShellIn)
    requires ShellShaped(s, i) && PipeInv(s) && EnvOk(s, i)
    ensures var t := ShellNext(s, i);
            t.fetch.cnt < WORDS &&
            (t.reg.fetchValid <==> t.fetch.phase == FetchWait) &&
            (t.fetch.phase == FetchWait ==> t.reg.fetchData == t.reg.window[t.fetch.cnt]) &&
            (t.fetch.phase != FetchIdle ==> t.dec.words[..t.fetch.cnt] == t.reg.window[..t.fetch.cnt])
    ensures DescDone(s.fetch, s.reg.fetchValid) ==>
              ShellNext(s, i).dec.words == s.reg.window == ShellNext(s, i).reg.window
  {
  }

  // Decode is drained by the time the first word of the next descriptor can arrive.
  lemma {:induction false} DrainStep(s: ShellState, i: ShellIn)
    requires ShellShaped(s, i) && PipeInv(s) && EnvOk(s, i)
    ensures var t := ShellNext(s, i);
            t.fetch.phase != FetchIdle ==>
              t.dec.phase == DecodeIdle ||
              (t.fetch.phase == FetchRead && t.fetch.cnt == 0 && t.dec.phase == DecodeValid &&
               (t.dec.err || !Full(t.queue)))
  {
    QueueStep(s, i);
    var t := ShellNext(s, i);
    FullEmptyExact(t.queue);
  }

  // Commands crossing each boundary of the pipeline in one cycle.
  function Entering(s: ShellState): seq<ConvCmd> { if Rings(s) then One(s.reg.window) else [] }

  function ToDecode(s: ShellState): seq<ConvCmd> {
    if DescDone(s.fetch, s.reg.fetchValid) then One(s.reg.window) else []
  }

  function ToQueue(s: ShellState): seq<ConvCmd>
    requires PointersOk(s.queue)
  {
    if Offers(s.dec) && !Full(s.queue) then [s.dec.cmd] else []
  }

  function ToIssue(s: ShellState): seq<ConvCmd> {
    if s.core.sched == SchedIdle && QueueHead(s.queue).Some? then [QueueHead(s.queue).value] else []
  }

  function Leaving(s: ShellState, i: ShellIn): seq<ConvCmd>
    requires ShellShaped(s, i)
  {
    if Issues(s, i) then [s.core.cmd] else []
  }

  // Nothing is lost, duplicated or reordered between a doorbell and a backend in any one cycle.
  lemma {:induction false} FlowStep(s: ShellState, i: ShellIn)
    requires ShellShaped(s, i) && PipeInv(s) && EnvOk(s, i)
    ensures PipeInv(ShellNext(s, i))
    ensures Leaving(s, i) + InFlight(ShellNext(s, i)) == InFlight(s) + Entering(s)
  {
    PipeInvStep(s, i);
    var t := ShellNext(s, i);
    FetchDataStep(s, i);
    assert ToDecode(s) + InFetch(t) == InFetch(s) + Entering(s);
    assert ToQueue(s) + InDecode(t.dec) == InDecode(s.dec) + ToDecode(s);
    Abut(ToQueue(s), InDecode(t.dec), InDecode(s.dec), ToDecode(s), InFetch(t), InFetch(s), Entering(s));
    QueueFlow(s, i);
    Abut(ToIssue(s), Contents(t.queue), Contents(s.queue), ToQueue(s),
         InDecode(t.dec) + InFetch(t), InDecode(s.dec) + InFetch(s), Entering(s));
    assert Leaving(s, i) + InIssue(t.core) == InIssue(s.core) + ToIssue(s);
    Abut(Leaving(s, i), InIssue(t.core), InIssue(s.core), ToIssue(s),
         Contents(t.queue) + (InDecode(t.dec) + InFetch(t)), Contents(s.queue) + (InDecode(s.dec) + InFetch(s)),
         Entering(s));
  }

  lemma {:induction false} QueueFlow(s: ShellState, i: ShellIn)
    requires ShellShaped(s, i) && Valid(s.queue)
    ensures Valid(ShellNext(s, i).queue)
    ensures ToIssue(s) + Contents(ShellNext(s, i).queue) == Contents(s.queue) + ToQueue(s)
  {
    QueueStep(s, i);
    PoppedFirst(Contents(s.queue), CMD_QUEUE_DEPTH, Offers(s.dec), s.dec.cmd, s.core.sched == SchedIdle);
  }

  // What a queue gives up, followed by what it becomes, is what it was, followed by what it takes in.
  lemma PoppedFirst<T>(q: seq<T>, depth: nat, push: bool, x: T, pop: bool)
    ensures (if pop && q != [] then [q[0]] else []) + QueueNext(q, depth, push, x, pop)
         == q + (if push && |q| < depth then [x] else [])
  {
    if pop && q != [] { assert q == [q[0]] + q[1..]; }
  }

  // A descriptor is lost from the count in a cycle exactly when its last word arrives while decode is
  // still occupied; this needs none of the timing assumptions.
  lemma {:induction false} BalanceStepExact(s: ShellState, i: ShellIn, l: Ledger)
    requires ShellShaped(s, i) && Valid(s.queue)
    ensures Valid(ShellNext(s, i).queue)
    ensures Balanced(l, s) ==>
      (Balanced(LedgerNext(l, s, i), ShellNext(s, i)) <==>
       !(DescDone(s.fetch, s.reg.fetchValid) && s.dec.phase != DecodeIdle))
  {
    QueueStep(s, i);
  }

  lemma {:induction false} LedgerStep(s: ShellState, i: ShellIn, l: Ledger)
    requires ShellShaped(s, i) && PipeInv(s) && EnvOk(s, i) && Balanced(l, s) && InOrder(l, s)
    ensures PipeInv(ShellNext(s, i))
    ensures Balanced(LedgerNext(l, s, i), ShellNext(s, i)) && InOrder(LedgerNext(l, s, i), ShellNext(s, i))
  {
    FlowStep(s, i);
    BalanceStepExact(s, i, l);
    RejectStep(s, i, l);
    CommandsStep(s, i, l);
    IssueCountStep(s, i, l);
    HandOver(Commands(l.accepted), l.issued, InFlight(s), Entering(s), Leaving(s, i), InFlight(ShellNext(s, i)));
  }

  lemma {:induction false} CommandsStep(s: ShellState, i: ShellIn, l: Ledger)
    requires ShellShaped(s, i)
    ensures Commands(LedgerNext(l, s, i).accepted) == Commands(l.accepted) + Entering(s)
    ensures LedgerNext(l, s, i).issued == l.issued + Leaving(s, i)
  {
    var m := LedgerNext(l, s, i);
    if Rings(s) {
      assert m.accepted[..|m.accepted| - 1] == l.accepted;
    } else {
      assert Commands(l.accepted) + [] == Commands(l.accepted);
    }
  }

  lemma {:induction false} IssueCountStep(s: ShellState, i: ShellIn, l: Ledger)
    requires ShellShaped(s, i) && CoreInv(s.core)
    requires |l.issued| == l.completed + B(s.core.sched == SchedWait)
    requires s.core.sched == SchedWait ==> l.issued[|l.issued| - 1] == s.core.cmd
    ensures var t, m := ShellNext(s, i), LedgerNext(l, s, i);
            |m.issued| == m.completed + B(t.core.sched == SchedWait) &&
            (t.core.sched == SchedWait ==> m.issued[|m.issued| - 1] == t.core.cmd)
  {}

  lemma {:induction false} RejectStep(s: ShellState, i: ShellIn, l: Ledger)
    requires ShellShaped(s, i) && PipeInv(s) && EnvOk(s, i) && Reserved(l.accepted) == l.rejected + RejectsInFlight(s)
    ensures var t, m := ShellNext(s, i), LedgerNext(l, s, i);
            Reserved(m.accepted) == m.rejected + RejectsInFlight(t)
  {
    FetchDataStep(s, i);
    var m := LedgerNext(l, s, i);
    if Rings(s) {
      assert m.accepted[..|m.accepted| - 1] == l.accepted;
    }
  }

  // Runs from reset

  datatype System = System(shell: ShellState, ledger: Ledger)

  predicate IsStart(a: System) { ShellIsReset(a.shell) && a.ledger == Ledger([], [], 0, 0) }

  // One clock cycle in which host and backends keep their side.
  predicate Cycle(a: System, i: ShellIn, b: System) {
    ShellShaped(a.shell, i) && EnvOk(a.shell, i) &&
    b == System(ShellNext(a.shell, i), LedgerNext(a.ledger, a.shell, i))
  }

  // The states a run from reset goes through, one more than it has cycles.
  predicate IsRun(states: seq<System>, ins: seq<ShellIn>) {
    |states| == |ins| + 1 && IsStart(states[0]) &&
    forall k :: 0 <= k < |ins| ==> Cycle(states[k], ins[k], states[k + 1])
  }

  predicate SystemInv(a: System) {
    PipeInv(a.shell) && Balanced(a.ledger, a.shell) && InOrder(a.ledger, a.shell)
  }

  lemma StartInv(a: System)
    requires IsStart(a)
    ensures SystemInv(a)
  {
    FullEmptyExact(a.shell.queue);
    assert InFlight(a.shell) == [];
  }

  lemma CycleInv(a: System, i: ShellIn, b: System)
    requires Cycle(a, i, b) && SystemInv(a)
    ensures SystemInv(b)
  {
    LedgerStep(a.shell, i, a.ledger);
  }

  // The pipeline ledger, over every run.
  lemma {:induction false} PipelineLedger(states: seq<System>, ins: seq<ShellIn>, t: nat)
    requires IsRun(states, ins) && t < |states|
    ensures SystemInv(states[t])
  {
    if t == 0 {
      StartInv(states[0]);
    } else {
      PipelineLedger(states, ins, t - 1);
      assert Cycle(states[t - 1], ins[t - 1], states[t - 1 + 1]);
      CycleInv(states[t - 1], ins[t - 1], states[t]);
    }
  }

  // The commands handed to backends are a prefix of the known commands accepted; once the pipeline has
  // drained they are all of them, all have completed, and every other descriptor was rejected.
  predicate ExactlyOnce(a: System)
    requires Valid(a.shell.queue)
  {
    var l := a.ledger;
    l.issued <= Commands(l.accepted) && l.rejected <= Reserved(l.accepted) &&
    (Outstanding(a.shell) == 0 ==>
      l.issued == Commands(l.accepted) && l.rejected == Reserved(l.accepted) && l.completed == |l.issued|)
  }

  lemma ExactlyOnceInOrder(states: seq<System>, ins: seq<ShellIn>, t: nat)
    requires IsRun(states, ins) && t < |states|
    ensures Valid(states[t].shell.queue) && ExactlyOnce(states[t])
  {
    PipelineLedger(states, ins, t);
    LedgerReading(states[t]);
  }

  lemma {:induction false} LedgerReading(a: System)
    requires SystemInv(a)
    ensures ExactlyOnce(a)
  {
    var l, flight := a.ledger, InFlight(a.shell);
    assert Commands(l.accepted) == l.issued + flight;
    if Outstanding(a.shell) == 0 {
      DrainedIsEmpty(a.shell);
      assert l.issued + [] == l.issued;
    }
  }

  lemma {:induction false} DrainedIsEmpty(s: ShellState)
    requires Valid(s.queue) && Outstanding(s) == 0
    ensures InFlight(s) == [] && RejectsInFlight(s) == 0 && s.core.sched == SchedIdle
  {
    assert Contents(s.queue) == [];
  }

  // The registers as objects

  class CmdFetch {
    var phase: FetchPhase
    var cnt: nat

    ghost function State(): FetchState
      reads this
    {
      FetchState(phase, cnt)
    }

    constructor ()
      ensures State() == FetchState(FetchIdle, 0)
    {
      phase, cnt := FetchIdle, 0;
    }

    method Tick(doorbell: bool, rdValid: bool) returns (rdReq: bool, rdIndex: nat, wordValid: bool, descDone: bool)
      requires cnt < WORDS
      modifies this
      ensures State() == FetchNext(old(State()), doorbell, rdValid) && cnt < WORDS
      ensures rdReq == (old(phase) == FetchRead) && rdIndex == old(cnt)
      ensures wordValid == WordValid(old(State()), rdValid) && descDone == DescDone(old(State()), rdValid)
    {
      rdReq, rdIndex := phase == FetchRead, cnt;
      wordValid := phase == FetchWait && rdValid;
      descDone := wordValid && cnt == WORDS - 1;
      match phase {
        case FetchIdle =>
          if doorbell {
            phase, cnt := FetchRead, 0;
          }
        case FetchRead =>
          phase := FetchWait;
        case FetchWait =>
          if rdValid {
            phase := if cnt == WORDS - 1 then FetchIdle else FetchRead;
            cnt := (cnt + 1) % 16;
          }
      }
    }
  }

  class CmdDecode {
    var phase: DecodePhase
    var words: Descriptor
    var cmd: ConvCmd
    var err: bool

    ghost function State(): DecodeState
      reads this
    {
      DecodeState(phase, words, cmd, err)
    }

    constructor ()
      ensures phase == DecodeIdle && !err && forall i :: 0 <= i < WORDS ==> words[i] == 0
    {
      phase, cmd, err := DecodeIdle, NO_CMD, false;
      words := seq(WORDS, _ => 0);
    }

    method Tick(word: U32, idx: nat, wordValid: bool, descDone: bool, ready: bool)
      returns (cmdValid: bool, decodeErr: bool, busy: bool)
      requires idx < WORDS
      modifies this
      ensures State() == DecodeNext(old(State()), word, idx, wordValid, descDone, ready)
      ensures cmdValid == Offers(old(State())) && decodeErr == DecodeErr(old(State()))
      ensures busy == (old(phase) != DecodeIdle)
    {
      cmdValid, decodeErr := phase == DecodeValid && !err, phase == DecodeValid && err;
      busy := phase != DecodeIdle;
      match phase {
        case DecodeIdle =>
          if descDone { phase := DecodeCheck; }
        case DecodeCheck =>
          phase, err, cmd := DecodeValid, !KnownOpcode(words), DecodeCmd(words);
        case DecodeValid =>
          if ready || err { phase := DecodeIdle; }
      }
      if wordValid {
        words := words[idx := word];
      }
    }
  }

  class IrqCtrl {
    var pending: bool

    constructor ()
      ensures !pending
    {
      pending := false;
    }

    // irqOut is the level on the interrupt pin in this cycle.
    method Tick(cmdDone: bool, err: bool, enable: bool, clear: bool) returns (irqOut: bool)
      modifies this
      ensures pending == IrqNext(old(pending), cmdDone, err, clear)
      ensures irqOut == (old(pending) && enable)
    {
      irqOut := pending && enable;
      if clear {
        pending := false;
      } else if cmdDone || err {
        pending := true;
      }
    }
  }

  class RegBlock {
    var doorbell: bool
    var irqClear: bool
    var irqEnable: U32
    var dmaExt: U32
    var dmaLoc: U20
    var dmaLen: U16
    var dmaStart: bool
    var dmaDir: bool
    var window: array<U32>
    var fetchValid: bool
    var fetchData: U32

    predicate Ok()
      reads this
    {
      window.Length == WORDS
    }

    ghost function State(): RegState
      requires Ok()
      reads this, window
    {
      RegState(doorbell, irqClear, irqEnable, dmaExt, dmaLoc, dmaLen, dmaStart, dmaDir, window[..], fetchValid,
               fetchData)
    }

    method Tick(m: Mmio, fetchReq: bool, fetchIdx: nat)
      requires Ok() && fetchIdx < WORDS
      modifies this, window
      ensures Ok() && window == old(window)
      ensures State() == RegNext(old(State()), m, fetchReq, fetchIdx)
    {
      fetchValid := fetchReq;
      if fetchReq {
        fetchData := window[fetchIdx];
      }
      doorbell, irqClear, dmaStart := false, false, false;
      if m.Write? && m.addr < CMD_QUEUE_BASE {
        match m.addr {
          case 0x0008 => doorbell := true;
          case 0x0010 => irqEnable := m.data;
          case 0x0014 => irqClear := true;
          case 0x0030 => dmaExt := m.data;
          case 0x0034 => dmaLoc := m.data % 0x10_0000;
          case 0x0038 => dmaLen := Low16(m.data);
          case 0x003C =>
            dmaStart := m.data % 2 == 1;
            dmaDir := m.data / 2 % 2 == 1;
          case _ =>
        }
      }
      if m.Write? && CMD_QUEUE_BASE <= m.addr < WEIGHT_BUF_BASE {
        window[WindowIndex(m.addr)] := m.data;
      }
    }
  }
}
