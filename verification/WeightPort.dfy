// The weight/bias arbitration of rtl/memory/npu_buffer_router.sv (lines 69-149) in front of the
// weight buffer's read port. Weight reads win a collision; the bias read is parked for one slot.
module WeightPort {
  import opened Common

  const DEPTH := 4096

  type Bytes = m: seq<int> | |m| == DEPTH witness seq(DEPTH, _ => 0)

  datatype PortState = PortState(pending: bool, pendAddr: nat, wasBias: bool, rvalid: bool, rdata: int)

  // The two requests of one cycle, with the 16-bit addresses the backend drives.
  datatype PortIn = PortIn(wtReq: bool, wtAddr: U16, biasReq: bool, biasAddr: U16)

  const RESET := PortState(false, 0, false, false, 0)

  // The low SRAM_ADDR_W bits of a backend address.
  function Offset(a: U16): (o: nat)
    ensures o < DEPTH
  {
    a % DEPTH
  }

  // An address inside the buffer is its own offset, and addresses a buffer apart share one.
  lemma LowBits(a: U16)
    ensures a < 4096 ==> Offset(a) == a
    ensures a + 4096 < 0x1_0000 ==> Offset(a + 4096) == Offset(a)
  {}

  predicate IssueBias(s: PortState, i: PortIn) {
    s.pending || (i.biasReq && !i.wtReq)
  }

  predicate Request(s: PortState, i: PortIn) {
    i.wtReq || IssueBias(s, i)
  }

  // The buffer grants every request at once, so a grant is just the routing of the shared port.
  predicate WtGrant(s: PortState, i: PortIn) { Request(s, i) && !IssueBias(s, i) }
  predicate BiasGrant(s: PortState, i: PortIn) { Request(s, i) && IssueBias(s, i) }

  predicate WtValid(s: PortState) { s.rvalid && !s.wasBias }
  predicate BiasValid(s: PortState) { s.rvalid && s.wasBias }

  predicate PortOk(s: PortState) { s.pendAddr < DEPTH }

  function PortAddr(s: PortState, i: PortIn): (a: nat)
    requires PortOk(s)
    ensures a < DEPTH
  {
    if IssueBias(s, i) then (if s.pending then s.pendAddr else Offset(i.biasAddr)) else Offset(i.wtAddr)
  }

  // One clock edge; mem is the buffer before the edge, so a same-cycle host write is not yet seen.
  function PortNext(s: PortState, i: PortIn, mem: Bytes): (t: PortState)
    requires PortOk(s)
    ensures PortOk(t)
  {
    var park := i.biasReq && i.wtReq && !s.pending;
    PortState(
      if BiasGrant(s, i) then false else park || s.pending,
      if park then Offset(i.biasAddr) else s.pendAddr,
      if Request(s, i) then IssueBias(s, i) else s.wasBias,
      Request(s, i),
      if Request(s, i) then mem[PortAddr(s, i)] else s.rdata)
  }

  // A requester keeps its request and address up until it is granted.
  predicate HeldUntilGranted(s: PortState, i: PortIn, j: PortIn) {
    (i.wtReq && !WtGrant(s, i) ==> j.wtReq && j.wtAddr == i.wtAddr) &&
    (i.biasReq && !BiasGrant(s, i) ==> j.biasReq && j.biasAddr == i.biasAddr)
  }

  datatype Slot = Slot(req: PortIn, mem: Bytes)

  function StateAt(run: seq<Slot>, t: nat): (s: PortState)
    requires t <= |run|
    ensures PortOk(s)
  {
    if t == 0 then RESET else PortNext(StateAt(run, t - 1), run[t - 1].req, run[t - 1].mem)
  }

  predicate LegalRun(run: seq<Slot>) {
    forall t :: 0 < t < |run| ==> HeldUntilGranted(StateAt(run, t - 1), run[t - 1].req, run[t].req)
  }

  // In every reachable state a parked bias read is the one its requester is still asking for.
  lemma {:induction false} ParkedIsHeld(run: seq<Slot>, t: nat)
    requires LegalRun(run) && t < |run|
    ensures var s := StateAt(run, t);
            s.pending ==> run[t].req.biasReq && s.pendAddr == run[t].req.biasAddr % 4096
  {
    if t > 0 {
      ParkedIsHeld(run, t - 1);
      assert HeldUntilGranted(StateAt(run, t - 1), run[t - 1].req, run[t].req);
    }
  }

  // A park lasts one cycle.
  lemma ParkLastsOneCycle(run: seq<Slot>, t: nat)
    requires t + 1 <= |run| && StateAt(run, t).pending
    ensures !StateAt(run, t + 1).pending
  {}

  // Each request is granted in its own cycle or the next one.
  lemma {:induction false} GrantedWithinTwoCycles(run: seq<Slot>, t: nat)
    requires LegalRun(run) && t + 1 < |run|
    ensures run[t].req.wtReq ==>
              WtGrant(StateAt(run, t), run[t].req) || WtGrant(StateAt(run, t + 1), run[t + 1].req)
    ensures run[t].req.biasReq ==>
              BiasGrant(StateAt(run, t), run[t].req) || BiasGrant(StateAt(run, t + 1), run[t + 1].req)
  {
    assert HeldUntilGranted(StateAt(run, t + 1 - 1), run[t + 1 - 1].req, run[t + 1].req);
    ParkedIsHeld(run, t);
  }

  // Each grant is answered in the next cycle, on the requester's own port only, with the byte it asked
  // for; and nothing answers without a grant.
  lemma {:induction false} AnsweredExactlyOnce(run: seq<Slot>, t: nat)
    requires LegalRun(run) && t < |run|
    ensures var s, r := StateAt(run, t + 1), run[t].req;
            (WtValid(s) <==> WtGrant(StateAt(run, t), r)) &&
            (BiasValid(s) <==> BiasGrant(StateAt(run, t), r)) &&
            !(WtValid(s) && BiasValid(s)) &&
            (WtValid(s) ==> r.wtReq && s.rdata == run[t].mem[r.wtAddr % 4096]) &&
            (BiasValid(s) ==> r.biasReq && s.rdata == run[t].mem[r.biasAddr % 4096])
  {
    ParkedIsHeld(run, t);
  }

  // Both sides ask in cycle t.
  predicate Collision(run: seq<Slot>, t: nat)
    requires t < |run|
  {
    run[t].req.wtReq && run[t].req.biasReq
  }

  // How many cycles in a row, up to just before t, both sides have asked.
  function Streak(run: seq<Slot>, t: nat): nat
    requires t <= |run|
  {
    if t > 0 && Collision(run, t - 1) then Streak(run, t - 1) + 1 else 0
  }

  // A bias read is parked exactly after an odd number of collisions in a row.
  lemma {:induction false} ParkedExactly(run: seq<Slot>, t: nat)
    requires t <= |run|
    ensures StateAt(run, t).pending <==> Streak(run, t) % 2 == 1
  {
    if t > 0 {
      ParkedExactly(run, t - 1);
      if StateAt(run, t - 1).pending { ParkLastsOneCycle(run, t - 1); }
      OddSuccessor(Streak(run, t - 1));
    }
  }

  lemma OddSuccessor(n: nat)
    ensures (n + 1) % 2 == 1 <==> n % 2 == 0
  {}

  // The router's own simulation check, "no collision while a bias read is parked", is not implied by held
  // requests. It fails exactly in a collision that an odd number of collisions in a row has led up to.
  predicate RouterAssertion(s: PortState, i: PortIn) {
    i.biasReq && i.wtReq ==> !s.pending
  }

  lemma {:induction false} RouterAssertionExact(run: seq<Slot>, t: nat)
    requires t < |run|
    ensures RouterAssertion(StateAt(run, t), run[t].req) <==> !(Collision(run, t) && Streak(run, t) % 2 == 1)
  {
    ParkedExactly(run, t);
  }

  lemma RouterAssertionFails() returns (run: seq<Slot>)
    ensures LegalRun(run) && |run| == 2 && !RouterAssertion(StateAt(run, 1), run[1].req)
  {
    var both := Slot(PortIn(true, 5, true, 9), seq(DEPTH, _ => 0));
    run := [both, both.(req := PortIn(true, 6, true, 9))];
    assert StateAt(run, 0) == RESET;
    assert StateAt(run, 1) == PortNext(StateAt(run, 0), run[0].req, run[0].mem);
  }

  class BiasArbiter {
    var pending: bool
    var pendAddr: nat
    var wasBias: bool
    var rvalid: bool
    var rdata: int

    ghost function State(): PortState
      reads this
    {
      PortState(pending, pendAddr, wasBias, rvalid, rdata)
    }

    constructor ()
      ensures State() == RESET
    {
      pending, pendAddr, wasBias, rvalid, rdata := false, 0, false, false, 0;
    }

    method Tick(i: PortIn, mem: Bytes) returns (wtGnt: bool, biasGnt: bool)
      requires PortOk(State())
      modifies this
      ensures State() == PortNext(old(State()), i, mem)
      ensures wtGnt == WtGrant(old(State()), i) && biasGnt == BiasGrant(old(State()), i)
      ensures wtGnt ==> rdata == mem[i.wtAddr % 4096] && !wasBias && rvalid
      ensures biasGnt ==> rdata == mem[if old(pending) then old(pendAddr) else i.biasAddr % 4096] && wasBias && rvalid
      ensures pending ==> pendAddr == i.biasAddr % 4096 && i.biasReq && i.wtReq && !old(pending)
    {
      var selBias := pending || (i.biasReq && !i.wtReq);
      var req := i.wtReq || selBias;
      wtGnt, biasGnt := req && !selBias, req && selBias;
      var park := i.biasReq && i.wtReq && !pending;
      var addr := if selBias then (if pending then pendAddr else i.biasAddr % DEPTH) else i.wtAddr % DEPTH;
      if park {
        pending, pendAddr := true, i.biasAddr % DEPTH;
      }
      if req && selBias {
        pending := false;
      }
      if req {
        wasBias, rdata := selBias, mem[addr];
      }
      rvalid := req;
    }
  }
}
