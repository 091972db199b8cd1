// How soon a descriptor retires: the pipeline of rtl/core/npu_shell.sv with backends that keep to time limits.
module Progress {
  import opened Common
  import opened Command
  import opened Fifo
  import opened Core
  import opened Pipeline

  // ---- Which descriptors sit in front of the queue ----

  // The newest accepted descriptor is the one being fetched; the one before it, or the newest itself if fetch is
  // idle, is the one in decode.
  predicate FrontIs(s: ShellState, l: Ledger) {
    var a := |l.accepted|;
    (s.fetch.phase != FetchIdle ==> a >= 1 && l.accepted[a - 1] == s.reg.window) &&
    (s.dec.phase == DecodeCheck ==> s.fetch.phase == FetchIdle && a >= 1 && l.accepted[a - 1] == s.dec.words) &&
    (s.dec.phase == DecodeValid ==>
      var k := a - 1 - B(s.fetch.phase != FetchIdle);
      k >= 0 && s.dec.err == !KnownOpcode(l.accepted[k]))
  }

  lemma {:induction false} FrontStep(s: ShellState, i: ShellIn, l: Ledger)
    requires ShellShaped(s, i) && PipeInv(s) && EnvOk(s, i) && FrontIs(s, l)
    ensures FrontIs(ShellNext(s, i), LedgerNext(l, s, i))
  {
    FetchDataStep(s, i);
  }

  // ---- What the first n descriptors still need ----

  predicate Retired(l: Ledger, n: nat) {
    n <= |l.accepted| && l.completed >= Needed(l, n) && l.rejected >= Reserved(l.accepted[..n])
  }

  // The commands among them.
  function Needed(l: Ledger, n: nat): nat
    requires n <= |l.accepted|
  {
    |Commands(l.accepted[..n])|
  }

  // Commands the scheduler has taken from the queue.
  function Popped(s: ShellState, l: Ledger): nat { |l.issued| + B(s.core.sched == SchedIssue) }

  // Whether fetch and decode hold one of the first n, when `later` more have been accepted since.
  predicate FetchCounts(s: ShellState, later: nat) { s.fetch.phase != FetchIdle && later == 0 }

  predicate DecodeCounts(s: ShellState, later: nat) {
    s.dec.phase != DecodeIdle && (later == 0 || (later == 1 && s.fetch.phase != FetchIdle))
  }

  // Cycles until the last of them has left decode, were the queue never full.
  function FrontLeft(s: ShellState, later: nat): nat
    requires s.fetch.cnt < WORDS
  {
    if FetchCounts(s, later) then 2 * (WORDS - s.fetch.cnt) + (if s.fetch.phase == FetchRead then 2 else 1)
    else if DecodeCounts(s, later) then (if s.dec.phase == DecodeCheck then 2 else 1)
    else 0
  }

  // Decode holds a command that the queue has no room for.
  predicate Stuck(s: ShellState)
    requires PointersOk(s.queue)
  {
    s.dec.phase == DecodeValid && !s.dec.err && Full(s.queue)
  }

  lemma {:induction false} FrontFalls(s: ShellState, i: ShellIn, later: nat)
    requires ShellShaped(s, i) && PipeInv(s) && EnvOk(s, i) && PipeInv(ShellNext(s, i))
    ensures var rest := FrontLeft(ShellNext(s, i), later + B(Rings(s)));
            rest <= FrontLeft(s, later) && (FrontLeft(s, later) > 0 && !Stuck(s) ==> rest < FrontLeft(s, later))
  {}

  // ---- The scheduler's clock ----

  // What the backends owe: a command on offer is taken within `take` cycles, a taken one done within `run`. The age
  // is the number of cycles the scheduler has been in its phase.
  predicate InTime(phase: SchedPhase, age: nat, take: nat, run: nat) {
    match phase
    case SchedIdle => true
    case SchedIssue => age < take
    case SchedWait => age < run
  }

  function AgeNext(phase: SchedPhase, next: SchedPhase, age: nat): nat { if next == phase then age + 1 else 0 }

  // Cycles the command in the scheduler may still take.
  function SchedLeft(phase: SchedPhase, age: nat, take: nat, run: nat): nat
    requires InTime(phase, age, take, run)
  {
    match phase
    case SchedIdle => 0
    case SchedIssue => take - age + run
    case SchedWait => run - age
  }

  // Cycles the scheduler needs for the first `needed` commands when it has popped `popped`.
  function CoreLeft(phase: SchedPhase, age: nat, popped: nat, needed: nat, take: nat, run: nat): nat
    requires InTime(phase, age, take, run)
  {
    Steps(0, if needed > popped then needed - popped else 0, take + run + 1) +
    (if popped <= needed then SchedLeft(phase, age, take, run) else 0)
  }

  lemma {:induction false} CoreFalls(phase: SchedPhase, next: SchedPhase, pop: bool, taken: bool, done: bool, age: nat,
                                     popped: nat, needed: nat, take: nat, run: nat)
    requires next == SchedStep(phase, pop, taken, done) && InTime(phase, age, take, run)
    requires InTime(next, AgeNext(phase, next, age), take, run)
    ensures var more := B(phase == SchedIdle && pop);
            var rest := CoreLeft(next, AgeNext(phase, next, age), popped + more, needed, take, run);
            rest <= CoreLeft(phase, age, popped, needed, take, run) &&
            (popped <= needed && phase != SchedIdle ==> rest < CoreLeft(phase, age, popped, needed, take, run)) &&
            (popped < needed && phase == SchedIdle && pop ==> rest < CoreLeft(phase, age, popped, needed, take, run))
  {}

  // ---- Both sides together ----

  // The first n of a list ask for no more than the whole, and the last two descriptors for what they ask.
  lemma {:induction false} PrefixNeeds(ds: seq<Descriptor>, n: nat)
    requires n <= |ds|
    ensures |Commands(ds[..n])| <= |Commands(ds)| && Reserved(ds[..n]) <= Reserved(ds)
  {
    if n < |ds| {
      PrefixNeeds(ds[..|ds| - 1], n);
      assert ds[..|ds| - 1][..n] == ds[..n];
    } else {
      assert ds[..n] == ds;
    }
  }

  lemma {:induction false} LastTwo(ds: seq<Descriptor>, n: nat)
    requires n <= |ds|
    ensures n == |ds| ==> ds[..n] == ds
    ensures n + 1 == |ds| ==>
              |Commands(ds)| == |Commands(ds[..n])| + |One(ds[n])| &&
              Reserved(ds) == Reserved(ds[..n]) + 1 - |One(ds[n])|
    ensures n + 2 <= |ds| ==>
              |Commands(ds)| >= |Commands(ds[..n])| + |One(ds[|ds| - 2])| + |One(ds[|ds| - 1])| &&
              Reserved(ds) >= Reserved(ds[..n]) + 2 - |One(ds[|ds| - 2])| - |One(ds[|ds| - 1])|
  {
    if n + 1 == |ds| {
      assert ds[..|ds| - 1] == ds[..n];
    } else if n + 2 <= |ds| {
      var front := ds[..|ds| - 1];
      assert front[..|front| - 1] == ds[..|ds| - 2];
      PrefixNeeds(ds[..|ds| - 2], n);
      assert ds[..|ds| - 2][..n] == ds[..n];
    }
  }

  // What is not in front any more has been popped, is in the queue, or has been rejected.
  lemma {:induction false} BehindFront(s: ShellState, l: Ledger, n: nat)
    requires PipeInv(s) && InOrder(l, s) && FrontIs(s, l) && n <= |l.accepted|
    requires FrontLeft(s, |l.accepted| - n) == 0
    ensures Needed(l, n) <= Popped(s, l) + |Contents(s.queue)| && Reserved(l.accepted[..n]) <= l.rejected
  {
    LastTwo(l.accepted, n);
    InFlightLength(s, l);
  }

  lemma {:induction false} StuckInFront(s: ShellState, l: Ledger, n: nat)
    requires PipeInv(s) && InOrder(l, s) && FrontIs(s, l) && n <= |l.accepted|
    requires FrontLeft(s, |l.accepted| - n) > 0 && Stuck(s)
    ensures Needed(l, n) == Popped(s, l) + |Contents(s.queue)| + 1
  {
    LastTwo(l.accepted, n);
    InFlightLength(s, l);
  }

  lemma {:induction false} AtMostSix(s: ShellState, l: Ledger, n: nat)
    requires PipeInv(s) && InOrder(l, s) && n <= |l.accepted|
    ensures Needed(l, n) <= Popped(s, l) + 6
  {
    PrefixNeeds(l.accepted, n);
    InFlightLength(s, l);
    FullEmptyExact(s.queue);
  }

  lemma {:induction false} InFlightLength(s: ShellState, l: Ledger)
    requires PipeInv(s) && InOrder(l, s)
    ensures |Commands(l.accepted)| == Popped(s, l) + |Contents(s.queue)| + |InDecode(s.dec)| + |InFetch(s)|
  {}

  function CoreLeftOf(a: System, n: nat, age: nat, take: nat, run: nat): nat
    requires n <= |a.ledger.accepted| && InTime(a.shell.core.sched, age, take, run)
  {
    CoreLeft(a.shell.core.sched, age, Popped(a.shell, a.ledger), Needed(a.ledger, n), take, run)
  }

  // Cycles until the first n descriptors have retired, at most.
  function Left(a: System, n: nat, age: nat, take: nat, run: nat): nat
    requires a.shell.fetch.cnt < WORDS && n <= |a.ledger.accepted| && InTime(a.shell.core.sched, age, take, run)
  {
    CoreLeftOf(a, n, age, take, run) + FrontLeft(a.shell, |a.ledger.accepted| - n)
  }

  lemma {:induction false} SamePrefix(a: System, i: ShellIn, b: System, n: nat)
    requires Cycle(a, i, b) && n <= |a.ledger.accepted|
    ensures n <= |b.ledger.accepted| && a.ledger.accepted[..n] == b.ledger.accepted[..n]
  {}

  // While any of the first n has not retired, one side or the other is at work on them.
  lemma {:induction false} SomethingMoves(s: ShellState, l: Ledger, n: nat)
    requires PipeInv(s) && InOrder(l, s) && FrontIs(s, l) && n <= |l.accepted| && !Retired(l, n)
    ensures (FrontLeft(s, |l.accepted| - n) > 0 && !Stuck(s)) ||
            (if s.core.sched == SchedIdle then Popped(s, l) < Needed(l, n) && Contents(s.queue) != []
             else Popped(s, l) <= Needed(l, n))
  {
    if FrontLeft(s, |l.accepted| - n) == 0 { BehindFront(s, l, n); }
    if FrontLeft(s, |l.accepted| - n) > 0 && Stuck(s) { StuckInFront(s, l, n); }
    FullEmptyExact(s.queue);
  }

  // One cycle of both sides, in numbers.
  lemma {:induction false} CycleMoves(a: System, i: ShellIn, b: System, n: nat)
    requires Cycle(a, i, b) && PipeInv(a.shell) && n <= |a.ledger.accepted|
    ensures n <= |b.ledger.accepted| && Needed(b.ledger, n) == Needed(a.ledger, n)
    ensures |b.ledger.accepted| == |a.ledger.accepted| + B(Rings(a.shell))
    ensures var c, j, head := a.shell.core, CoreInput(a.shell, i), Contents(a.shell.queue) != [];
            b.shell.core.sched == SchedStep(c.sched, head, DispatchReady(c, j), AnyDone(c, j)) &&
            Popped(b.shell, b.ledger) == Popped(a.shell, a.ledger) + B(c.sched == SchedIdle && head)
  {
    SamePrefix(a, i, b, n);
    QueueStep(a.shell, i);
  }

  lemma {:induction false} CoreSide(a: System, i: ShellIn, b: System, n: nat, age: nat, next: nat, take: nat, run: nat)
    requires Cycle(a, i, b) && PipeInv(a.shell) && n <= |a.ledger.accepted| <= |b.ledger.accepted|
    requires next == AgeNext(a.shell.core.sched, b.shell.core.sched, age)
    requires InTime(a.shell.core.sched, age, take, run) && InTime(b.shell.core.sched, next, take, run)
    ensures CoreLeftOf(b, n, next, take, run) <= CoreLeftOf(a, n, age, take, run)
    ensures (if a.shell.core.sched == SchedIdle
             then Popped(a.shell, a.ledger) < Needed(a.ledger, n) && Contents(a.shell.queue) != []
             else Popped(a.shell, a.ledger) <= Needed(a.ledger, n)) ==>
              CoreLeftOf(b, n, next, take, run) < CoreLeftOf(a, n, age, take, run)
  {
    var s, l, c := a.shell, a.ledger, a.shell.core;
    CycleMoves(a, i, b, n);
    CoreFalls(c.sched, b.shell.core.sched, Contents(s.queue) != [], DispatchReady(c, CoreInput(s, i)),
              AnyDone(c, CoreInput(s, i)), age, Popped(s, l), Needed(l, n), take, run);
  }

  // So every cycle brings them nearer to it.
  lemma {:induction false} LeftFalls(a: System, i: ShellIn, b: System, n: nat, age: nat, next: nat, take: nat, run: nat)
    requires Cycle(a, i, b) && SystemInv(a) && PipeInv(b.shell) && FrontIs(a.shell, a.ledger)
    requires n <= |a.ledger.accepted| <= |b.ledger.accepted| && !Retired(a.ledger, n)
    requires next == AgeNext(a.shell.core.sched, b.shell.core.sched, age)
    requires InTime(a.shell.core.sched, age, take, run) && InTime(b.shell.core.sched, next, take, run)
    ensures Left(b, n, next, take, run) < Left(a, n, age, take, run)
  {
    SomethingMoves(a.shell, a.ledger, n);
    CoreSide(a, i, b, n, age, next, take, run);
    FrontFalls(a.shell, i, |a.ledger.accepted| - n);
  }

  lemma {:induction false} RetiredStays(a: System, i: ShellIn, b: System, n: nat)
    requires Cycle(a, i, b) && Retired(a.ledger, n)
    ensures Retired(b.ledger, n)
  {
    SamePrefix(a, i, b, n);
  }

  // ---- Over whole runs ----

  function Age(states: seq<System>, t: nat): nat
    requires t < |states|
  {
    if t == 0 then 0
    else AgeNext(states[t - 1].shell.core.sched, states[t].shell.core.sched, Age(states, t - 1))
  }

  // Backends that take every command within `take` cycles and finish it within `run`.
  predicate Punctual(states: seq<System>, take: nat, run: nat) {
    forall t :: 0 <= t < |states| ==> InTime(states[t].shell.core.sched, Age(states, t), take, run)
  }

  lemma {:induction false} FrontIsAt(states: seq<System>, ins: seq<ShellIn>, t: nat)
    requires IsRun(states, ins) && t < |states|
    ensures FrontIs(states[t].shell, states[t].ledger)
  {
    if t > 0 {
      FrontIsAt(states, ins, t - 1);
      PipelineLedger(states, ins, t - 1);
      assert Cycle(states[t - 1], ins[t - 1], states[t - 1 + 1]);
      FrontStep(states[t - 1].shell, ins[t - 1], states[t - 1].ledger);
    }
  }

  ghost predicate Counted(states: seq<System>, t: nat, n: nat, take: nat, run: nat, left: int)
    requires t < |states|
  {
    n <= |states[t].ledger.accepted| && states[t].shell.fetch.cnt < WORDS &&
    InTime(states[t].shell.core.sched, Age(states, t), take, run) &&
    (Retired(states[t].ledger, n) || Left(states[t], n, Age(states, t), take, run) <= left)
  }

  lemma {:induction false} Countdown(states: seq<System>, ins: seq<ShellIn>, take: nat, run: nat, t: nat, n: nat,
                                     left: int)
    requires IsRun(states, ins) && Punctual(states, take, run) && t + 1 < |states|
    requires Counted(states, t, n, take, run, left)
    ensures Counted(states, t + 1, n, take, run, left - 1)
  {
    var a, i, b := states[t], ins[t], states[t + 1];
    assert Cycle(a, i, b);
    PipelineLedger(states, ins, t);
    PipelineLedger(states, ins, t + 1);
    FrontIsAt(states, ins, t);
    SamePrefix(a, i, b, n);
    if Retired(a.ledger, n) {
      RetiredStays(a, i, b, n);
    } else {
      LeftFalls(a, i, b, n, Age(states, t), Age(states, t + 1), take, run);
    }
  }

  // Counting down from t to u.
  lemma {:induction false} StepByStep(inv: (nat, int) -> bool, t: nat, u: nat, left: int)
    requires t <= u && inv(t, left) && forall k: nat, x :: t <= k < u && inv(k, x) ==> inv(k + 1, x - 1)
    ensures inv(u, left - (u - t))
    decreases u
  {
    if t < u {
      StepByStep(inv, t, u - 1, left);
      assert inv(u - 1 + 1, left - (u - 1 - t) - 1);
    }
  }

  // Seven descriptors at most are unretired, one being fetched, one in decode, four queued and one in a backend.
  function Limit(take: nat, run: nat): nat { 7 * (take + run + 1) + 34 }

  lemma {:induction false} LeftBelowLimit(a: System, age: nat, take: nat, run: nat)
    requires SystemInv(a) && FrontIs(a.shell, a.ledger) && InTime(a.shell.core.sched, age, take, run)
    ensures Left(a, |a.ledger.accepted|, age, take, run) < Limit(take, run)
  {
    AtMostSix(a.shell, a.ledger, |a.ledger.accepted|);
    CoreBelow(a.shell.core.sched, age, Popped(a.shell, a.ledger), Needed(a.ledger, |a.ledger.accepted|), take, run);
  }

  lemma {:induction false} CoreBelow(phase: SchedPhase, age: nat, popped: nat, needed: nat, take: nat, run: nat)
    requires InTime(phase, age, take, run) && needed <= popped + 6
    ensures CoreLeft(phase, age, popped, needed, take, run) <= 7 * (take + run + 1) - 1
  {
    var owed: nat := if needed > popped then needed - popped else 0;
    MoreSteps(0, owed, 6, take + run + 1);
    StepsExact(0, 6, take + run + 1);
  }

  // Over every run, whatever is accepted meanwhile: everything accepted by cycle t has retired by t + Limit.
  lemma {:induction false} RetiresWithin(states: seq<System>, ins: seq<ShellIn>, take: nat, run: nat, t: nat, u: nat)
    requires IsRun(states, ins) && Punctual(states, take, run) && t + Limit(take, run) <= u < |states|
    ensures Retired(states[u].ledger, |states[t].ledger.accepted|)
  {
    var n := |states[t].ledger.accepted|;
    PipelineLedger(states, ins, t);
    FrontIsAt(states, ins, t);
    LeftBelowLimit(states[t], Age(states, t), take, run);
    var inv := (k: nat, x: int) => k < |states| && Counted(states, k, n, take, run, x);
    forall k: nat, x | t <= k < u && inv(k, x) ensures inv(k + 1, x - 1) {
      Countdown(states, ins, take, run, k, n, x);
    }
    StepByStep(inv, t, u, Left(states[t], n, Age(states, t), take, run));
  }

  // So a pipeline left alone for that long has drained.
  lemma {:induction false} DrainsWithin(states: seq<System>, ins: seq<ShellIn>, take: nat, run: nat, t: nat, u: nat)
    requires IsRun(states, ins) && Punctual(states, take, run) && t + Limit(take, run) <= u < |states|
    requires |states[u].ledger.accepted| == |states[t].ledger.accepted|
    ensures Valid(states[u].shell.queue) && Outstanding(states[u].shell) == 0
  {
    var l := states[u].ledger;
    RetiresWithin(states, ins, take, run, t, u);
    PipelineLedger(states, ins, u);
    assert l.accepted[..|l.accepted|] == l.accepted;
    KnownOrReserved(l.accepted);
  }

  lemma {:induction false} KnownOrReserved(ds: seq<Descriptor>)
    ensures |Commands(ds)| + Reserved(ds) == |ds|
  {
    if ds != [] { KnownOrReserved(ds[..|ds| - 1]); }
  }
}
