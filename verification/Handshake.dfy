// rtl/common/skid_buffer.sv and rtl/common/pipeline_reg.sv, and chains of valid/ready stages.
module Handshake {
  import opened Common
  import opened Fifo

  datatype SkidState<T> = SkidState(outData: T, outValid: bool, skidData: T, skidValid: bool)
  datatype RegState<T> = RegState(data: T, valid: bool)

  // One clock edge of the skid buffer. An offered word is Some(data), an idle upstream None.
  function SkidNext<T>(s: SkidState<T>, offer: Option<T>, outReady: bool): SkidState<T> {
    var popOut := s.outValid && outReady;
    var pushIn := offer.Some? && !s.skidValid;
    var room := popOut || !s.outValid;
    var refill := room && s.skidValid;
    var bypass := room && !s.skidValid && pushIn;
    var spill := s.outValid && !outReady && pushIn;
    SkidState(
      if refill then s.skidData else if bypass then offer.value else s.outData,
      if refill || bypass then true else if popOut then false else s.outValid,
      if spill then offer.value else s.skidData,
      if spill then true else if refill then false else s.skidValid)
  }

  function RegNext<T>(s: RegState<T>, offer: Option<T>, outReady: bool): RegState<T> {
    if offer.Some? && (!s.valid || outReady) then RegState(offer.value, true)
    else if s.valid && outReady then s.(valid := false)
    else s
  }

  // A stage of a stream: any of the three primitives.
  datatype Stage<T> =
    | FifoStage(fifo: FifoState<T>)
    | SkidStage(skid: SkidState<T>)
    | RegStage(reg: RegState<T>)

  predicate StageOk<T>(s: Stage<T>) {
    match s
    case FifoStage(f) => Valid(f)
    case SkidStage(k) => k.skidValid ==> k.outValid
    case RegStage(_) => true
  }

  function Capacity<T>(s: Stage<T>): nat {
    match s
    case FifoStage(f) => |f.mem|
    case SkidStage(_) => 2
    case RegStage(_) => 1
  }

  // The words a stage holds, oldest first.
  function Held<T>(s: Stage<T>): seq<T>
    requires StageOk(s)
  {
    match s
    case FifoStage(f) => Contents(f)
    case SkidStage(k) => (if k.outValid then [k.outData] else []) + (if k.skidValid then [k.skidData] else [])
    case RegStage(r) => if r.valid then [r.data] else []
  }

  // The registered output: Some(data) when valid is high.
  function StageOut<T>(s: Stage<T>): Option<T>
    requires StageOk(s)
  {
    match s
    case FifoStage(f) => if Empty(f) then None else Some(f.mem[Slot(f.rd, |f.mem|)])
    case SkidStage(k) => if k.outValid then Some(k.outData) else None
    case RegStage(r) => if r.valid then Some(r.data) else None
  }

  predicate StageReady<T>(s: Stage<T>, outReady: bool)
    requires StageOk(s)
  {
    match s
    case FifoStage(f) => !Full(f)
    case SkidStage(k) => !k.skidValid
    case RegStage(r) => !r.valid || outReady
  }

  function StageNext<T>(s: Stage<T>, offer: Option<T>, outReady: bool): Stage<T>
    requires StageOk(s)
  {
    match s
    case FifoStage(f) =>
      if offer.Some? then FifoStage(FifoNext(f, true, offer.value, outReady))
      else FifoStage(f.(rd := if outReady && !Empty(f) then Advance(f.rd, |f.mem|) else f.rd))
    case SkidStage(k) => SkidStage(SkidNext(k, offer, outReady))
    case RegStage(r) => RegStage(RegNext(r, offer, outReady))
  }

  function Taken<T>(offer: Option<T>, ready: bool): seq<T> {
    if offer.Some? && ready then [offer.value] else []
  }

  // Two steps one after the other.
  lemma InSuccession<T>(o: seq<T>, d: seq<T>, h: seq<T>, k: seq<T>, e: seq<T>, r: seq<T>, a: seq<T>)
    requires o + d == h + k && e + r == d + a
    ensures (o + e) + r == h + (k + a)
  {
    assert (o + e) + r == o + (e + r);
    assert o + (d + a) == (o + d) + a;
    assert (h + k) + a == h + (k + a);
  }

  lemma {:induction false} FifoStageRefines<T>(s: Stage<T>, offer: Option<T>, outReady: bool)
    requires StageOk(s) && s.FifoStage?
    ensures var t := StageNext(s, offer, outReady);
            StageOk(t) && Capacity(t) == Capacity(s) &&
            Taken(StageOut(s), outReady) + Held(t) == Held(s) + Taken(offer, StageReady(s, outReady))
    ensures StageOut(s) == if Held(s) == [] then None else Some(Held(s)[0])
  {
    var f := s.fifo;
    FullEmptyExact(f);
    var data := if offer.Some? then offer.value else f.mem[0];
    FifoRefinesQueue(f, offer.Some?, data, outReady);
    var t := StageNext(s, offer, outReady);
    assert t.fifo == FifoNext(f, offer.Some?, data, outReady);
    assert Held(t) == QueueNext(Held(s), |f.mem|, offer.Some?, data, outReady);
    if outReady && Held(s) != [] {
      assert Held(s) == [Held(s)[0]] + Held(s)[1..];
    }
  }

  // Every stage is a bounded queue: what leaves is its head, what it accepts goes to its tail.
  lemma {:induction false} StageRefinesQueue<T>(s: Stage<T>, offer: Option<T>, outReady: bool)
    requires StageOk(s)
    ensures var t := StageNext(s, offer, outReady);
            StageOk(t) && Capacity(t) == Capacity(s) && |Held(s)| <= Capacity(s) &&
            Taken(StageOut(s), outReady) + Held(t) == Held(s) + Taken(offer, StageReady(s, outReady))
    ensures StageOut(s) == if Held(s) == [] then None else Some(Held(s)[0])
    ensures |Held(s)| < Capacity(s) ==> StageReady(s, outReady)
    ensures !outReady && |Held(s)| == Capacity(s) ==> !StageReady(s, outReady)
  {
    match s
    case FifoStage(f) =>
      FullEmptyExact(f);
      FifoStageRefines(s, offer, outReady);
    case SkidStage(_) =>
    case RegStage(_) =>
  }

  // A stalled stage keeps valid high and its data unchanged.
  lemma StalledOutputStable<T>(s: Stage<T>, offer: Option<T>)
    requires StageOk(s) && StageOut(s).Some?
    ensures StageOk(StageNext(s, offer, false)) && StageOut(StageNext(s, offer, false)) == StageOut(s)
  {
    StageRefinesQueue(s, offer, false);
    StageRefinesQueue(StageNext(s, offer, false), None, false);
  }

  // A chain, upstream end first; each stage's ready comes from the rest of the chain.
  datatype Chain<T> = End(last: Stage<T>) | Link(head: Stage<T>, rest: Chain<T>)

  predicate ChainOk<T>(c: Chain<T>) {
    match c
    case End(s) => StageOk(s)
    case Link(s, rest) => StageOk(s) && ChainOk(rest)
  }

  function ChainHeld<T>(c: Chain<T>): seq<T>
    requires ChainOk(c)
  {
    match c
    case End(s) => Held(s)
    case Link(s, rest) => ChainHeld(rest) + Held(s)
  }

  function ChainOut<T>(c: Chain<T>): Option<T>
    requires ChainOk(c)
  {
    match c
    case End(s) => StageOut(s)
    case Link(_, rest) => ChainOut(rest)
  }

  predicate ChainReady<T>(c: Chain<T>, outReady: bool)
    requires ChainOk(c)
  {
    match c
    case End(s) => StageReady(s, outReady)
    case Link(s, rest) => StageReady(s, ChainReady(rest, outReady))
  }

  function ChainNext<T>(c: Chain<T>, offer: Option<T>, outReady: bool): Chain<T>
    requires ChainOk(c)
  {
    match c
    case End(s) => End(StageNext(s, offer, outReady))
    case Link(s, rest) =>
      Link(StageNext(s, offer, ChainReady(rest, outReady)), ChainNext(rest, StageOut(s), outReady))
  }

  lemma {:induction false} ChainStep<T>(c: Chain<T>, offer: Option<T>, outReady: bool)
    requires ChainOk(c)
    ensures var d := ChainNext(c, offer, outReady);
            ChainOk(d) &&
            Taken(ChainOut(c), outReady) + ChainHeld(d) == ChainHeld(c) + Taken(offer, ChainReady(c, outReady))
  {
    match c
    case End(s) => StageRefinesQueue(s, offer, outReady);
    case Link(s, rest) =>
      var ready := ChainReady(rest, outReady);
      StageRefinesQueue(s, offer, ready);
      ChainStep(rest, StageOut(s), outReady);
      var d := ChainNext(c, offer, outReady);
      Abut(Taken(ChainOut(rest), outReady), ChainHeld(d.rest), ChainHeld(rest), Taken(StageOut(s), ready),
           Held(d.head), Held(s), Taken(offer, StageReady(s, ready)));
  }

  lemma {:induction false} ChainStalledOutputStable<T>(c: Chain<T>, offer: Option<T>)
    requires ChainOk(c) && ChainOut(c).Some?
    ensures ChainOk(ChainNext(c, offer, false)) && ChainOut(ChainNext(c, offer, false)) == ChainOut(c)
  {
    ChainStep(c, offer, false);
    match c
    case End(s) => StalledOutputStable(s, offer);
    case Link(s, rest) => ChainStalledOutputStable(rest, StageOut(s));
  }

  // What upstream offers and whether downstream is ready, one pair per clock cycle.
  datatype Cycle<T> = Cycle(offer: Option<T>, outReady: bool)

  function RunChain<T>(c: Chain<T>, run: seq<Cycle<T>>): Chain<T>
    requires ChainOk(c)
    decreases |run|
  {
    if run == [] then c else
    ChainStep(c, run[0].offer, run[0].outReady);
    RunChain(ChainNext(c, run[0].offer, run[0].outReady), run[1..])
  }

  // The words accepted upstream, and the words emitted downstream, over a run.
  function Accepted<T>(c: Chain<T>, run: seq<Cycle<T>>): seq<T>
    requires ChainOk(c)
    decreases |run|
  {
    if run == [] then [] else
    ChainStep(c, run[0].offer, run[0].outReady);
    Taken(run[0].offer, ChainReady(c, run[0].outReady)) +
    Accepted(ChainNext(c, run[0].offer, run[0].outReady), run[1..])
  }

  function Emitted<T>(c: Chain<T>, run: seq<Cycle<T>>): seq<T>
    requires ChainOk(c)
    decreases |run|
  {
    if run == [] then [] else
    ChainStep(c, run[0].offer, run[0].outReady);
    Taken(ChainOut(c), run[0].outReady) +
    Emitted(ChainNext(c, run[0].offer, run[0].outReady), run[1..])
  }

  // Nothing is lost, duplicated or reordered by any chain over any run.
  lemma {:induction false} ChainConserves<T>(c: Chain<T>, run: seq<Cycle<T>>)
    requires ChainOk(c)
    ensures ChainOk(RunChain(c, run))
    ensures Emitted(c, run) + ChainHeld(RunChain(c, run)) == ChainHeld(c) + Accepted(c, run)
    decreases |run|
  {
    if run != [] {
      var offer, ready := run[0].offer, run[0].outReady;
      ChainStep(c, offer, ready);
      var d := ChainNext(c, offer, ready);
      ChainConserves(d, run[1..]);
      InSuccession(Taken(ChainOut(c), ready), ChainHeld(d), ChainHeld(c), Taken(offer, ChainReady(c, ready)),
                   Emitted(d, run[1..]), ChainHeld(RunChain(d, run[1..])), Accepted(d, run[1..]));
    } else {
      assert Emitted(c, run) == [] && Accepted(c, run) == [];
    }
  }

  // From an empty chain the emitted words are a prefix of the accepted ones.
  lemma EmittedIsPrefix<T>(c: Chain<T>, run: seq<Cycle<T>>)
    requires ChainOk(c) && ChainHeld(c) == []
    ensures Emitted(c, run) <= Accepted(c, run)
  {
    ChainConserves(c, run);
    assert [] + Accepted(c, run) == Accepted(c, run);
  }

  class SkidBuffer<T> {
    var outData: T
    var outValid: bool
    var skidData: T
    var skidValid: bool

    ghost function State(): SkidState<T>
      reads this
    {
      SkidState(outData, outValid, skidData, skidValid)
    }

    constructor (zero: T)
      ensures State() == SkidState(zero, false, zero, false)
    {
      outData, skidData := zero, zero;
      outValid, skidValid := false, false;
    }

    method Tick(inData: T, inValid: bool, outReady: bool) returns (inReady: bool)
      requires StageOk(SkidStage(State()))
      modifies this
      ensures inReady == old(StageReady(SkidStage(State()), outReady))
      ensures State() == SkidNext(old(State()), if inValid then Some(inData) else None, outReady)
      ensures StageOk(SkidStage(State()))
      ensures old(if outValid && outReady then [outData] else []) + Held(SkidStage(State())) ==
              old(Held(SkidStage(State()))) + (if inValid && inReady then [inData] else [])
    {
      inReady := !skidValid;
      var popOut := outValid && outReady;
      var pushIn := inValid && inReady;
      var spill := outValid && !outReady && pushIn;
      if (popOut || !outValid) && skidValid {
        outData, outValid, skidValid := skidData, true, false;
      } else if (popOut || !outValid) && pushIn {
        outData, outValid := inData, true;
      } else if popOut {
        outValid := false;
      }
      if spill {
        skidData, skidValid := inData, true;
      }
    }
  }

  class PipelineReg<T> {
    var data: T
    var valid: bool

    ghost function State(): RegState<T>
      reads this
    {
      RegState(data, valid)
    }

    constructor (zero: T)
      ensures State() == RegState(zero, false)
    {
      data, valid := zero, false;
    }

    method Tick(inData: T, inValid: bool, outReady: bool) returns (inReady: bool)
      modifies this
      ensures inReady == old(!valid || outReady)
      ensures State() == RegNext(old(State()), if inValid then Some(inData) else None, outReady)
      ensures old(if valid && outReady then [data] else []) + Held(RegStage(State())) ==
              old(Held(RegStage(State()))) + (if inValid && inReady then [inData] else [])
    {
      inReady := !valid || outReady;
      if inValid && inReady {
        data, valid := inData, true;
      } else if valid && outReady {
        valid := false;
      }
    }
  }
}
