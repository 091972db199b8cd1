// rtl/common/fifo.sv: a ring buffer whose pointers carry one wrap bit above the slot index.
module Fifo {
  import opened Common

  datatype FifoState<T> = FifoState(mem: seq<T>, wr: nat, rd: nat)

  // The low bits of a pointer, and its wrap bit, for pointers below 2 * depth.
  function Slot(p: nat, depth: nat): (s: nat)
    requires p < 2 * depth
    ensures s < depth
  {
    if p >= depth then p - depth else p
  }

  // For a power-of-two depth these are the pointer's low bits.
  lemma SlotIsLowBits(p: nat, depth: nat)
    requires p < 2 * depth
    ensures Slot(p, depth) == p % depth
  {
    if p >= depth {
      assert p == 1 * depth + (p - depth);
      assert p / depth == 1;
    }
  }

  function WrapBit(p: nat, depth: nat): bool { p >= depth }

  function Advance(p: nat, depth: nat): nat {
    if p + 1 == 2 * depth then 0 else p + 1
  }

  predicate PointersOk<T>(f: FifoState<T>) {
    |f.mem| > 0 && f.wr < 2 * |f.mem| && f.rd < 2 * |f.mem|
  }

  predicate Full<T>(f: FifoState<T>)
    requires PointersOk(f)
  {
    WrapBit(f.wr, |f.mem|) != WrapBit(f.rd, |f.mem|) && Slot(f.wr, |f.mem|) == Slot(f.rd, |f.mem|)
  }

  predicate Empty<T>(f: FifoState<T>) { f.wr == f.rd }

  // How far the write pointer is ahead of the read pointer, modulo 2 * depth.
  function Occupancy<T>(f: FifoState<T>): int {
    if f.wr >= f.rd then f.wr - f.rd else f.wr + 2 * |f.mem| - f.rd
  }

  predicate Valid<T>(f: FifoState<T>) {
    PointersOk(f) && Occupancy(f) <= |f.mem|
  }

  // Slot index of the k-th oldest element.
  function At<T>(f: FifoState<T>, k: nat): (s: nat)
    requires PointersOk(f) && k <= |f.mem|
    ensures s < |f.mem|
  {
    var s := Slot(f.rd, |f.mem|) + k;
    if s >= |f.mem| then s - |f.mem| else s
  }

  // The queue a ring buffer stands for, oldest element first.
  function Contents<T>(f: FifoState<T>): (q: seq<T>)
    requires Valid(f)
    ensures |q| == Occupancy(f)
  {
    seq(Occupancy(f), k requires 0 <= k < Occupancy(f) => f.mem[At(f, k)])
  }

  // One clock edge: a push and a pop, each when its handshake completes.
  function FifoNext<T>(f: FifoState<T>, wrValid: bool, wrData: T, rdReady: bool): FifoState<T>
    requires PointersOk(f)
  {
    var doWr := wrValid && !Full(f);
    var doRd := rdReady && !Empty(f);
    FifoState(
      if doWr then f.mem[Slot(f.wr, |f.mem|) := wrData] else f.mem,
      if doWr then Advance(f.wr, |f.mem|) else f.wr,
      if doRd then Advance(f.rd, |f.mem|) else f.rd)
  }

  lemma FullEmptyExact<T>(f: FifoState<T>)
    requires Valid(f)
    ensures Full(f) <==> |Contents(f)| == |f.mem|
    ensures Empty(f) <==> Contents(f) == []
  {}

  // What the queue becomes: pop the head if asked, then append the pushed word if there was room.
  function QueueNext<T>(q: seq<T>, depth: nat, wrValid: bool, wrData: T, rdReady: bool): seq<T> {
    (if rdReady && q != [] then q[1..] else q) + (if wrValid && |q| < depth then [wrData] else [])
  }

  lemma {:induction false} NextOccupancy<T>(f: FifoState<T>, wrValid: bool, wrData: T, rdReady: bool)
    requires Valid(f)
    ensures var g := FifoNext(f, wrValid, wrData, rdReady);
            Valid(g) && |g.mem| == |f.mem| &&
            Occupancy(g) == |QueueNext(Contents(f), |f.mem|, wrValid, wrData, rdReady)|
  {
    FullEmptyExact(f);
  }

  // A surviving element sits in the same slot, one place nearer the head after a pop.
  lemma {:induction false} SlotKept<T>(f: FifoState<T>, g: FifoState<T>, k: nat)
    requires PointersOk(f) && PointersOk(g) && |g.mem| == |f.mem| && k <= |f.mem|
    ensures g.rd == f.rd ==> At(g, k) == At(f, k)
    ensures g.rd == Advance(f.rd, |f.mem|) && k < |f.mem| ==> At(g, k) == At(f, k + 1)
  {}

  // The write slot is free: no stored element uses it, and it comes right after the last one.
  lemma {:induction false} WriteSlot<T>(f: FifoState<T>, k: nat)
    requires Valid(f) && Occupancy(f) < |f.mem| && k <= Occupancy(f)
    ensures (At(f, k) == Slot(f.wr, |f.mem|)) <==> k == Occupancy(f)
  {}

  lemma {:induction false} ElementStep<T>(f: FifoState<T>, wrValid: bool, wrData: T, rdReady: bool, k: nat)
    requires Valid(f) && k < |QueueNext(Contents(f), |f.mem|, wrValid, wrData, rdReady)|
    ensures var g := FifoNext(f, wrValid, wrData, rdReady);
            Valid(g) && k < Occupancy(g) &&
            g.mem[At(g, k)] == QueueNext(Contents(f), |f.mem|, wrValid, wrData, rdReady)[k]
  {
    var g := FifoNext(f, wrValid, wrData, rdReady);
    FullEmptyExact(f);
    NextOccupancy(f, wrValid, wrData, rdReady);
    var popped := if rdReady && Contents(f) != [] then 1 else 0;
    SlotKept(f, g, k);
    assert At(g, k) == At(f, k + popped);
    if Occupancy(f) < |f.mem| { WriteSlot(f, k + popped); }
  }

  // The ring buffer is a bounded queue.
  lemma {:induction false} FifoRefinesQueue<T>(f: FifoState<T>, wrValid: bool, wrData: T, rdReady: bool)
    requires Valid(f)
    ensures var g := FifoNext(f, wrValid, wrData, rdReady);
            Valid(g) && |g.mem| == |f.mem| &&
            Contents(g) == QueueNext(Contents(f), |f.mem|, wrValid, wrData, rdReady)
    ensures Contents(f) != [] ==> f.mem[Slot(f.rd, |f.mem|)] == Contents(f)[0]
  {
    var g := FifoNext(f, wrValid, wrData, rdReady);
    var q := Contents(f);
    var r := QueueNext(q, |f.mem|, wrValid, wrData, rdReady);
    FullEmptyExact(f);
    NextOccupancy(f, wrValid, wrData, rdReady);
    forall k | 0 <= k < |r| ensures Contents(g)[k] == r[k] {
      ElementStep(f, wrValid, wrData, rdReady, k);
    }
  }

  class Queue<T(0)> {
    var mem: array<T>
    var wrPtr: nat
    var rdPtr: nat

    ghost function State(): FifoState<T>
      reads this, mem
    {
      FifoState(mem[..], wrPtr, rdPtr)
    }

    constructor (depth: nat)
      requires depth > 0
      ensures Valid(State()) && fresh(mem) && mem.Length == depth && Contents(State()) == []
    {
      mem := new T[depth];
      wrPtr, rdPtr := 0, 0;
    }

    // The always_ff block. rdData is the head before the edge; the source drives it to zero when empty.
    method Tick(wrValid: bool, wrData: T, rdReady: bool, zero: T) returns (wrReady: bool, rdValid: bool, rdData: T)
      requires Valid(State())
      modifies this, mem
      ensures mem == old(mem) && Valid(State())
      ensures State() == FifoNext(old(State()), wrValid, wrData, rdReady)
      ensures wrReady == (|old(Contents(State()))| < mem.Length)
      ensures rdValid == (old(Contents(State())) != [])
      ensures rdData == if rdValid then old(Contents(State()))[0] else zero
    {
      ghost var was := State();
      FifoRefinesQueue(was, wrValid, wrData, rdReady);
      FullEmptyExact(was);
      var depth := mem.Length;
      var full := WrapBit(wrPtr, depth) != WrapBit(rdPtr, depth) && Slot(wrPtr, depth) == Slot(rdPtr, depth);
      var empty := wrPtr == rdPtr;
      wrReady, rdValid := !full, !empty;
      rdData := if empty then zero else mem[Slot(rdPtr, depth)];
      if wrValid && wrReady {
        mem[Slot(wrPtr, depth)] := wrData;
        wrPtr := Advance(wrPtr, depth);
      }
      if rdValid && rdReady {
        rdPtr := Advance(rdPtr, depth);
      }
      assert State().mem == FifoNext(was, wrValid, wrData, rdReady).mem;
    }
  }
}
