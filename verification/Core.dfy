// rtl/core/npu_scheduler.sv, npu_dispatch.sv, npu_core.sv and npu_completion.sv, with the six compute
// backends as abstract machines that keep the command/done contract.
module Core {
  import opened Common
  import opened Command
  import opened WeightPort

  // Backends by their be_sel_r code: conv, gemm, softmax, vec, lnorm, pool.
  const BACKENDS := 6

  // npu_dispatch: the opcode compare chain, convolution being the default.
  function Target(opcode: int): (b: nat)
    ensures b < BACKENDS
  {
    if opcode == OP_GEMM then 1
    else if opcode == OP_SOFTMAX then 2
    else if opcode == OP_VEC then 3
    else if opcode == OP_LNORM then 4
    else if opcode == OP_POOL then 5
    else 0
  }

  // What the dispatcher shows each backend of a command: its own view of it.
  datatype BackendCmd =
    | ToConv(conv: ConvCmd) | ToGemm(gemm: GemmCmd) | ToSoftmax(softmax: SoftmaxCmd) | ToVec(vec: VecCmd)
    | ToLnorm(lnorm: LnormCmd) | ToPool(pool: PoolCmd)

  function CommandFor(b: nat, c: ConvCmd): BackendCmd
    requires b < BACKENDS
  {
    match b
    case 1 => ToGemm(GemmView(c))
    case 2 => ToSoftmax(SoftmaxView(c))
    case 3 => ToVec(VecView(c))
    case 4 => ToLnorm(LnormView(c))
    case 5 => ToPool(PoolView(c))
    case _ => ToConv(c)
  }

  // Each of the six operations goes to a backend of its own, with the parameters its builder was given.
  lemma {:induction false} ConvAndGemmDispatched(p: ConvParams, q: GemmParams)
    ensures var c := DecodeCmd(ConvWords(p)); Target(c.opcode) == 0 && CommandFor(0, c) == ToConv(ConvIntent(p))
    ensures var c := DecodeCmd(GemmWords(q)); Target(c.opcode) == 1 && CommandFor(1, c) == ToGemm(GemmIntent(q))
  {
    ConvRoundTrip(p);
    GemmRoundTrip(q);
  }

  lemma {:induction false} SoftmaxAndVecDispatched(p: SoftmaxParams, q: VecParams)
    ensures var c := DecodeCmd(SoftmaxWords(p));
            Target(c.opcode) == 2 &&
            CommandFor(2, c) == ToSoftmax(SoftmaxCmd(p.inAddr, p.outAddr, p.numRows, p.rowLen))
    ensures var c := DecodeCmd(VecWords(q)); Target(c.opcode) == 3 && CommandFor(3, c) == ToVec(VecIntent(q))
  {
    SoftmaxRoundTrip(p);
    VecRoundTrip(q);
  }

  lemma {:induction false} LnormAndPoolDispatched(p: LnormParams, q: PoolParams)
    ensures var c := DecodeCmd(LnormWords(p));
            Target(c.opcode) == 4 &&
            CommandFor(4, c) == ToLnorm(LnormCmd(p.inAddr, p.outAddr, p.numRows, p.rowLen, p.normShift % 32))
    ensures var c := DecodeCmd(PoolWords(q)); Target(c.opcode) == 5 && CommandFor(5, c) == ToPool(PoolIntent(q))
  {
    LnormRoundTrip(p);
    PoolRoundTrip(q);
  }

  datatype SchedPhase = SchedIdle | SchedIssue | SchedWait

  // What a backend does in one cycle: whether it takes a command when idle, whether a running command
  // finishes (and if busy still shows in that cycle), and its memory requests.
  datatype BackendIn = BackendIn(ready: bool, finish: bool, busyOnDone: bool,
                                 actReq: bool, actAddr: U16, wtReq: bool, wtAddr: U16,
                                 biasReq: bool, biasAddr: U16, wrReq: bool)

  // The activation buffer is twice as deep as the weight buffer.
  const ACT_DEPTH := 8192
  type ActBytes = m: seq<int> | |m| == ACT_DEPTH witness seq(ACT_DEPTH, _ => 0)

  function ActOffset(a: U16): (o: nat)
    ensures o < ACT_DEPTH
  {
    a % ACT_DEPTH
  }

  // What the two buffers hold in a cycle.
  datatype Buffers = Buffers(wt: Bytes, act: ActBytes)

  datatype CoreState = CoreState(
    sched: SchedPhase, cmd: ConvCmd, beSel: nat, running: seq<bool>, actValid: bool, actData: int,
    port: PortState)

  datatype CoreIn = CoreIn(head: Option<ConvCmd>, be: seq<BackendIn>, mem: Buffers)

  predicate Shaped(c: CoreState, i: CoreIn) {
    |c.running| == BACKENDS && |i.be| == BACKENDS && c.beSel < BACKENDS && PortOk(c.port)
  }

  predicate Done(c: CoreState, i: CoreIn, b: nat)
    requires Shaped(c, i) && b < BACKENDS
  {
    c.running[b] && i.be[b].finish
  }

  predicate Busy(c: CoreState, i: CoreIn, b: nat)
    requires Shaped(c, i) && b < BACKENDS
  {
    c.running[b] && (!i.be[b].finish || i.be[b].busyOnDone)
  }

  // A command handshake completes: the dispatcher offers it to this backend and the idle backend is ready.
  predicate Accept(c: CoreState, i: CoreIn, b: nat)
    requires Shaped(c, i) && b < BACKENDS
  {
    c.sched == SchedIssue && Target(c.cmd.opcode) == b && !c.running[b] && i.be[b].ready
  }

  predicate AnyDone(c: CoreState, i: CoreIn)
    requires Shaped(c, i)
  {
    Done(c, i, 0) || Done(c, i, 1) || Done(c, i, 2) || Done(c, i, 3) || Done(c, i, 4) || Done(c, i, 5)
  }

  predicate AnyBusy(c: CoreState, i: CoreIn)
    requires Shaped(c, i)
  {
    Busy(c, i, 0) || Busy(c, i, 1) || Busy(c, i, 2) || Busy(c, i, 3) || Busy(c, i, 4) || Busy(c, i, 5)
  }

  predicate DispatchReady(c: CoreState, i: CoreIn)
    requires Shaped(c, i)
  {
    var b := Target(c.cmd.opcode);
    !c.running[b] && i.be[b].ready
  }

  predicate Requests(i: CoreIn, b: nat)
    requires |i.be| == BACKENDS && b < BACKENDS
  {
    i.be[b].actReq || i.be[b].wtReq || i.be[b].biasReq || i.be[b].wrReq
  }

  // The rest of the backend contract: memory is used only while a command is running.
  predicate BackendContract(c: CoreState, i: CoreIn)
    requires Shaped(c, i)
  {
    forall b :: 0 <= b < BACKENDS && Requests(i, b) ==> c.running[b]
  }

  // The port mux on be_sel_r.
  function Muxed(c: CoreState, i: CoreIn): PortIn
    requires Shaped(c, i)
  {
    var m := i.be[c.beSel];
    PortIn(m.wtReq, m.wtAddr, m.biasReq, m.biasAddr)
  }

  function SelNext(c: CoreState, i: CoreIn): nat
    requires Shaped(c, i)
  {
    if Accept(c, i, 1) then 1 else if Accept(c, i, 2) then 2 else if Accept(c, i, 3) then 3
    else if Accept(c, i, 4) then 4 else if Accept(c, i, 5) then 5 else if Accept(c, i, 0) then 0
    else c.beSel
  }

  // npu_scheduler: a command is popped, offered until it is taken, and waited for.
  function SchedStep(phase: SchedPhase, popped: bool, taken: bool, done: bool): SchedPhase {
    match phase
    case SchedIdle => if popped then SchedIssue else SchedIdle
    case SchedIssue => if taken then SchedWait else SchedIssue
    case SchedWait => if done then SchedIdle else SchedWait
  }

  function SchedNext(c: CoreState, i: CoreIn): SchedPhase
    requires Shaped(c, i)
  {
    SchedStep(c.sched, i.head.Some?, DispatchReady(c, i), AnyDone(c, i))
  }

  function CoreNext(c: CoreState, i: CoreIn): CoreState
    requires Shaped(c, i)
  {
    CoreState(
      SchedNext(c, i),
      if c.sched == SchedIdle && i.head.Some? then i.head.value else c.cmd,
      SelNext(c, i),
      seq(BACKENDS, b requires 0 <= b < BACKENDS =>
        if Accept(c, i, b) then true else if Done(c, i, b) then false else c.running[b]),
      i.be[c.beSel].actReq,
      if i.be[c.beSel].actReq then i.mem.act[ActOffset(i.be[c.beSel].actAddr)] else c.actData,
      PortNext(c.port, Muxed(c, i), i.mem.wt))
  }

  // What reaches backend b from the shared ports in this cycle.
  predicate ActGrant(c: CoreState, i: CoreIn, b: nat)
    requires Shaped(c, i)
  {
    c.beSel == b && i.be[c.beSel].actReq
  }

  predicate ActResponse(c: CoreState, b: nat) { c.beSel == b && c.actValid }
  predicate WtResponse(c: CoreState, b: nat) { c.beSel == b && WtValid(c.port) }
  predicate BiasResponse(c: CoreState, b: nat) { c.beSel == b && BiasValid(c.port) }

  // The invariant of every reachable state: only a waiting scheduler has a running backend, that
  // backend is the one be_sel_r names, and no read is still parked once a command is on offer.
  predicate CoreInv(c: CoreState) {
    |c.running| == BACKENDS && c.beSel < BACKENDS && PortOk(c.port) &&
    (forall b :: 0 <= b < BACKENDS ==> (c.running[b] <==> c.sched == SchedWait && c.beSel == b)) &&
    (c.sched == SchedWait ==> c.beSel == Target(c.cmd.opcode)) &&
    (c.sched == SchedIssue ==> !c.port.pending)
  }

  const NO_CMD := ConvCmd(0, 0, 0, 0, 0, 0, 0, 0, 0, 0, 0, 0, 0, 0, 0, 0, 0, 0, 0)
  const CORE_RESET := CoreState(SchedIdle, NO_CMD, 0, [false, false, false, false, false, false], false, 0,
                                RESET)

  lemma {:induction false} CoreStep(c: CoreState, i: CoreIn)
    requires Shaped(c, i) && CoreInv(c) && BackendContract(c, i)
    ensures CoreInv(CoreNext(c, i))
  {
    if c.sched != SchedWait {
      assert !Requests(i, c.beSel);
    }
  }

  // A backend is busy only when it is the selected one.
  lemma OneBusyBackend(c: CoreState, i: CoreIn, b: nat)
    requires Shaped(c, i) && CoreInv(c) && b < BACKENDS && Busy(c, i, b)
    ensures b == c.beSel && c.sched == SchedWait
    ensures AnyBusy(c, i) && forall o :: 0 <= o < BACKENDS && o != b ==> !Busy(c, i, o)
  {}

  // The status signals in terms of the scheduler and the selected backend alone: busy from the cycle after a command
  // is taken, and in the cycle that reports done only if the backend says so.
  lemma {:induction false} StatusExact(c: CoreState, i: CoreIn)
    requires Shaped(c, i) && CoreInv(c)
    ensures AnyDone(c, i) <==> c.sched == SchedWait && i.be[c.beSel].finish
    ensures AnyBusy(c, i) <==> c.sched == SchedWait && (i.be[c.beSel].finish ==> i.be[c.beSel].busyOnDone)
  {
    var b := c.beSel;
    assert c.running[b] <==> c.sched == SchedWait;
    assert b == 0 || b == 1 || b == 2 || b == 3 || b == 4 || b == 5;
  }

  // Every memory request comes from the selected backend, so its grant goes back to the requester.
  lemma {:induction false} GrantsReachRequester(c: CoreState, i: CoreIn, b: nat)
    requires Shaped(c, i) && CoreInv(c) && BackendContract(c, i) && b < BACKENDS && Requests(i, b)
    ensures b == c.beSel
    ensures i.be[b].actReq ==> ActGrant(c, i, b)
    ensures Muxed(c, i) == PortIn(i.be[b].wtReq, i.be[b].wtAddr, i.be[b].biasReq, i.be[b].biasAddr)
  {
    assert c.running[b];
  }

  // A backend sees an activation grant exactly when it asks.
  lemma {:induction false} ActGrantExact(c: CoreState, i: CoreIn, b: nat)
    requires Shaped(c, i) && CoreInv(c) && BackendContract(c, i) && b < BACKENDS
    ensures ActGrant(c, i, b) <==> i.be[b].actReq
  {
    if i.be[b].actReq { GrantsReachRequester(c, i, b); }
  }

  // The selector never moves under a read: whatever is answered or parked after the edge belongs to the
  // backend that was selected before it, including reads still in flight when the command is done.
  lemma {:induction false} SelectorHoldsForReads(c: CoreState, i: CoreIn)
    requires Shaped(c, i) && CoreInv(c) && BackendContract(c, i)
    ensures var d := CoreNext(c, i);
            d.actValid || d.port.rvalid || d.port.pending ==> d.beSel == c.beSel
  {
    if c.sched == SchedIssue {
      assert !Requests(i, c.beSel);
    }
  }

  predicate IsInput(ins: seq<CoreIn>) {
    forall k :: 0 <= k < |ins| ==> |ins[k].be| == BACKENDS
  }

  function CoreAt(ins: seq<CoreIn>, t: nat): (c: CoreState)
    requires t <= |ins| && IsInput(ins)
    ensures |c.running| == BACKENDS && c.beSel < BACKENDS && PortOk(c.port)
  {
    if t == 0 then CORE_RESET else CoreNext(CoreAt(ins, t - 1), ins[t - 1])
  }

  predicate ContractKept(ins: seq<CoreIn>)
    requires IsInput(ins)
  {
    forall k :: 0 <= k < |ins| ==> BackendContract(CoreAt(ins, k), ins[k])
  }

  lemma CoreAtStep(ins: seq<CoreIn>, t: nat)
    requires t < |ins| && IsInput(ins) && ContractKept(ins)
    ensures Shaped(CoreAt(ins, t), ins[t]) && BackendContract(CoreAt(ins, t), ins[t])
    ensures CoreAt(ins, t + 1) == CoreNext(CoreAt(ins, t), ins[t])
  {}

  lemma {:induction false} CoreInvAt(ins: seq<CoreIn>, t: nat)
    requires t <= |ins| && IsInput(ins) && ContractKept(ins)
    ensures CoreInv(CoreAt(ins, t))
  {
    if t > 0 {
      CoreInvAt(ins, t - 1);
      CoreAtStep(ins, t - 1);
      CoreStep(CoreAt(ins, t - 1), ins[t - 1]);
    }
  }

  // Over any run: backend b is answered at t + 1 exactly when it asked at t and was not made to wait, with the
  // byte at the address it gave. Only a bias read that meets a weight read, or a weight read that meets a
  // parked bias read, has to wait.
  lemma {:induction false} ReadsAnsweredToRequester(ins: seq<CoreIn>, t: nat, b: nat)
    requires t < |ins| && IsInput(ins) && ContractKept(ins) && b < BACKENDS
    ensures var c, d, i, m := CoreAt(ins, t), CoreAt(ins, t + 1), ins[t], ins[t].be[b];
            (ActResponse(d, b) <==> m.actReq) &&
            (m.actReq ==> d.actData == i.mem.act[m.actAddr % 8192]) &&
            (WtResponse(d, b) <==> m.wtReq && !c.port.pending) &&
            (m.wtReq && !c.port.pending ==> d.port.rdata == i.mem.wt[m.wtAddr % 4096]) &&
            (!c.port.pending ==> (BiasResponse(d, b) <==> m.biasReq && !m.wtReq)) &&
            (!c.port.pending && m.biasReq && !m.wtReq ==> d.port.rdata == i.mem.wt[m.biasAddr % 4096])
  {
    CoreInvAt(ins, t);
    var c, i := CoreAt(ins, t), ins[t];
    SelectorHoldsForReads(c, i);
    if Requests(i, b) { GrantsReachRequester(c, i, b); }
  }

  // A read is parked only by the selected backend asking on both ports, and stays parked for one cycle.
  lemma {:induction false} ParkedByRequester(ins: seq<CoreIn>, t: nat)
    requires t < |ins| && IsInput(ins) && ContractKept(ins)
    ensures var c, d, m := CoreAt(ins, t), CoreAt(ins, t + 1), ins[t].be[CoreAt(ins, t).beSel];
            d.port.pending <==> !c.port.pending && m.biasReq && m.wtReq
    ensures var c, d, m := CoreAt(ins, t), CoreAt(ins, t + 1), ins[t].be[CoreAt(ins, t).beSel];
            d.port.pending ==> d.beSel == c.beSel && d.port.pendAddr == m.biasAddr % 4096
  {
    CoreInvAt(ins, t);
    SelectorHoldsForReads(CoreAt(ins, t), ins[t]);
  }

  // The parked bias read of cycle t is answered at t + 2 to the backend that made it, and to no other, with its
  // byte; a weight read that met it and is still up then is answered at t + 3.
  lemma {:induction false} ParkedReadAnswered(ins: seq<CoreIn>, t: nat, b: nat)
    requires t + 1 < |ins| && IsInput(ins) && ContractKept(ins) && b < BACKENDS
    requires CoreAt(ins, t + 1).port.pending
    ensures BiasResponse(CoreAt(ins, t + 2), b) <==> ins[t].be[b].biasReq
    ensures ins[t].be[b].biasReq ==>
              CoreAt(ins, t + 2).port.rdata == ins[t + 1].mem.wt[ins[t].be[b].biasAddr % 4096]
    ensures t + 2 < |ins| && ins[t + 2].be[b].wtReq ==>
              WtResponse(CoreAt(ins, t + 3), b) &&
              CoreAt(ins, t + 3).port.rdata == ins[t + 2].mem.wt[ins[t + 2].be[b].wtAddr % 4096]
  {
    CoreInvAt(ins, t);
    CoreInvAt(ins, t + 1);
    ParkedByRequester(ins, t);
    ParkedByRequester(ins, t + 1);
    var c, d := CoreAt(ins, t), CoreAt(ins, t + 1);
    SelectorHoldsForReads(d, ins[t + 1]);
    assert CoreAt(ins, t + 2) == CoreNext(d, ins[t + 1]);
    if ins[t].be[b].biasReq { GrantsReachRequester(c, ins[t], b); }
    if t + 2 < |ins| { ReadsAnsweredToRequester(ins, t + 2, b); }
  }

  // The scheduler with its history: commands popped from the queue, commands a backend has taken, and how many
  // of those are done.
  class Scheduler {
    var phase: SchedPhase
    var cmd: ConvCmd
    ghost var popped: seq<ConvCmd>
    ghost var issued: seq<ConvCmd>
    ghost var finished: nat

    // One command at a time: what was popped has been issued in order, but for the one on offer; what was
    // issued is done, but for the one waited for.
    ghost predicate Valid()
      reads this
    {
      popped == issued + (if phase == SchedIssue then [cmd] else []) &&
      |issued| == finished + (if phase == SchedWait then 1 else 0)
    }

    constructor ()
      ensures Valid() && phase == SchedIdle && cmd == NO_CMD && popped == [] && issued == []
    {
      phase, cmd, popped, issued, finished := SchedIdle, NO_CMD, [], [], 0;
    }

    method Tick(head: Option<ConvCmd>, dispatchReady: bool, backendDone: bool)
      returns (queueReady: bool, offer: Option<ConvCmd>)
      requires Valid()
      modifies this
      ensures Valid()
      ensures phase == SchedStep(old(phase), head.Some?, dispatchReady, backendDone)
      ensures popped == old(popped) + (if queueReady && head.Some? then [head.value] else [])
      ensures issued == old(issued) + (if offer.Some? && dispatchReady then [offer.value] else [])
      ensures queueReady ==> |old(popped)| == old(finished)
      ensures offer.Some? ==> old(popped) == old(issued) + [offer.value]
      ensures !queueReady && offer == None ==> |old(issued)| == old(finished) + 1
    {
      queueReady := phase == SchedIdle;
      offer := if phase == SchedIssue then Some(cmd) else None;
      match phase {
        case SchedIdle =>
          if head.Some? {
            phase, cmd, popped := SchedIssue, head.value, popped + [head.value];
          }
        case SchedIssue =>
          if dispatchReady { phase, issued := SchedWait, issued + [cmd]; }
        case SchedWait =>
          if backendDone { phase, finished := SchedIdle, finished + 1; }
      }
    }
  }

  // The backend selector: it follows the backend that accepts a command, gemm first and convolution last.
  class Selector {
    var beSel: nat

    constructor ()
      ensures beSel == 0
    {
      beSel := 0;
    }

    method Tick(c: CoreState, i: CoreIn)
      requires Shaped(c, i) && c.beSel == beSel
      modifies this
      ensures beSel == SelNext(c, i)
    {
      if Accept(c, i, 1) { beSel := 1; }
      else if Accept(c, i, 2) { beSel := 2; }
      else if Accept(c, i, 3) { beSel := 3; }
      else if Accept(c, i, 4) { beSel := 4; }
      else if Accept(c, i, 5) { beSel := 5; }
      else if Accept(c, i, 0) { beSel := 0; }
    }
  }
}
