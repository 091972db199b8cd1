// rtl/memory/npu_dma_reader.sv, npu_dma_writer.sv and npu_dma_frontend.sv over the host side of
// npu_buffer_router.sv and an external memory, with arbitrary grant and response delays.
module Dma {
  import opened Common
  import opened Pipeline

  const EXT_SIZE := 0x1_0000_0000
  const LOC_SIZE := 0x10_0000
  const ACT_BUF_BASE := 0x2_0000
  const PSUM_BUF_BASE := 0x3_0000
  const SRAM_DEPTH := 4096

  type LocAddr = x: int | 0 <= x < LOC_SIZE

  // An address or count register one further, wrapping at its width.
  function Step(x: nat, size: nat): (y: nat)
    requires x < size
    ensures y < size
  {
    if x + 1 == size then 0 else x + 1
  }

  function Walk(x: nat, size: nat, i: nat): (y: nat)
    requires x < size
    ensures y < size
  {
    if i == 0 then x else Step(Walk(x, size, i - 1), size)
  }

  lemma {:induction false} WalkIsModular(x: nat, size: nat, i: nat)
    requires x < size
    ensures Walk(x, size, i) == (x + i) % size
    ensures x + i < size ==> Walk(x, size, i) == x + i
  {
    if i > 0 {
      WalkIsModular(x, size, i - 1);
      StepIsModular(x + i - 1, size);
    }
  }

  lemma StepIsModular(x: nat, size: nat)
    requires size > 0
    ensures Step(x % size, size) == (x + 1) % size
  {
    var q, r := x / size, x % size;
    assert x == q * size + r;
    if r + 1 == size {
      Distribute(q, 1, size);
      DivUnique(x + 1, size, q + 1, 0);
    } else {
      DivUnique(x + 1, size, q, r + 1);
    }
  }

  // ---- Local memory ----

  // The host address decode: a buffer and an offset cut to that buffer's address width, or nothing at all.
  datatype Cell = NoCell | WtCell(i: nat) | ActCell(i: nat) | PsumCell(i: nat)

  function CellOf(a: LocAddr): Cell {
    if a < WEIGHT_BUF_BASE then NoCell
    else if a < ACT_BUF_BASE then WtCell(a % SRAM_DEPTH)
    else if a < PSUM_BUF_BASE then ActCell(a % (2 * SRAM_DEPTH))
    else PsumCell(a % SRAM_DEPTH)
  }

  // The windows start at 0x10000, 0x20000 and 0x30000, the last one reaching to the end; each repeats its buffer of
  // 4096, 8192 or 4096 cells.
  lemma {:induction false} CellExact(a: LocAddr, k: nat, i: nat)
    ensures a < 0x1_0000 <==> CellOf(a) == NoCell
    ensures i < 4096 && a == 0x1_0000 + 4096 * k + i < 0x2_0000 ==> CellOf(a) == WtCell(i)
    ensures i < 8192 && a == 0x2_0000 + 8192 * k + i < 0x3_0000 ==> CellOf(a) == ActCell(i)
    ensures i < 4096 && a == 0x3_0000 + 4096 * k + i ==> CellOf(a) == PsumCell(i)
  {}

  datatype Local = Local(wt: seq<Byte>, act: seq<Byte>, psum: seq<U32>) {
    predicate Valid() { |wt| == SRAM_DEPTH && |act| == 2 * SRAM_DEPTH && |psum| == SRAM_DEPTH }

    // Reads are zero-extended; writes to the byte buffers keep the low byte.
    function Load(a: LocAddr): U32
      requires Valid()
    {
      match CellOf(a)
      case NoCell => 0
      case WtCell(i) => wt[i]
      case ActCell(i) => act[i]
      case PsumCell(i) => psum[i]
    }

    function Store(a: LocAddr, x: U32): (m: Local)
      requires Valid()
      ensures m.Valid()
    {
      match CellOf(a)
      case NoCell => this
      case WtCell(i) => this.(wt := wt[i := x % 256])
      case ActCell(i) => this.(act := act[i := x % 256])
      case PsumCell(i) => this.(psum := psum[i := x])
    }
  }

  // What a local cell keeps of a word.
  function Kept(a: LocAddr, x: U32): U32 {
    match CellOf(a)
    case NoCell => 0
    case PsumCell(_) => x
    case _ => x % 256
  }

  // The byte buffers keep the low byte, partial sums the whole word; a load shows the cell, zero-extended.
  lemma {:induction false} LocalMeaning(m: Local, a: LocAddr, x: U32)
    requires m.Valid()
    ensures Kept(a, x) == if a < 0x1_0000 then 0 else if a < 0x3_0000 then x % 256 else x
    ensures match CellOf(a)
            case NoCell => m.Load(a) == 0 && m.Store(a, x) == m
            case WtCell(i) => m.Load(a) == m.wt[i] && m.Store(a, x) == m.(wt := m.wt[i := x % 256])
            case ActCell(i) => m.Load(a) == m.act[i] && m.Store(a, x) == m.(act := m.act[i := x % 256])
            case PsumCell(i) => m.Load(a) == m.psum[i] && m.Store(a, x) == m.(psum := m.psum[i := x])
  {}

  lemma {:induction false} LoadAfterStore(m: Local, a: LocAddr, x: U32, b: LocAddr)
    requires m.Valid() && CellOf(a) != NoCell
    ensures m.Store(a, x).Load(b) == if CellOf(a) == CellOf(b) then Kept(a, x) else m.Load(b)
  {}

  // ---- The engines ----

  datatype Phase = Idle | Fetching | Waiting | Storing | Done

  // Both engines have these registers; the reader fetches from outside and stores locally, the writer the
  // other way round.
  datatype Engine = Engine(phase: Phase, ext: U32, loc: LocAddr, len: U16, cnt: U16, data: U32) {
    predicate Busy() { phase == Fetching || phase == Waiting || phase == Storing }
  }

  datatype Request = Request(ext: U32, loc: LocAddr, len: U16)

  function EngineNext(e: Engine, start: bool, cmd: Request, fetchGnt: bool, rvalid: bool, rdata: U32, storeGnt: bool)
    : Engine
  {
    match e.phase
    case Idle => if start then Engine(Fetching, cmd.ext, cmd.loc, cmd.len, 0, e.data) else e
    case Fetching => if fetchGnt then e.(phase := Waiting) else e
    case Waiting => if rvalid then e.(phase := Storing, data := rdata) else e
    case Storing =>
      if storeGnt then
        e.(phase := if Step(e.cnt, 0x1_0000) >= e.len then Done else Fetching, cnt := Step(e.cnt, 0x1_0000),
           ext := Step(e.ext, EXT_SIZE), loc := Step(e.loc, LOC_SIZE))
      else e
    case Done => e.(phase := Idle)
  }

  // ---- Frontend, memories and their environment ----

  // The pending values are reads that have been granted and not yet answered.
  datatype World = World(rd: Engine, wr: Engine, ext: seq<U32>, local: Local,
                         extPending: Option<U32>, bufPending: Option<U32>) {
    predicate Valid() { |ext| == EXT_SIZE && local.Valid() }

    // The frontend's multiplexers.
    function ExtReq(): bool { if rd.Busy() then rd.phase == Fetching else wr.phase == Storing }
    function ExtAddr(): U32 { if rd.Busy() then (if rd.phase == Fetching then rd.ext else 0)
                              else if wr.phase == Storing then wr.ext else 0 }
    function ExtWr(): bool { wr.Busy() && wr.phase == Storing }
    function BufReq(): bool { rd.phase == Storing || wr.phase == Fetching }
    function BufAddr(): LocAddr { if rd.Busy() then (if rd.phase == Storing then rd.loc else 0)
                                  else if wr.phase == Fetching then wr.loc else 0 }
    function BufWr(): bool { rd.phase == Storing }

    predicate AtRest() { rd.phase == Idle && wr.phase == Idle && extPending == None && bufPending == None }
  }

  // The registers' command and the memories' willingness to grant or answer in this cycle.
  datatype Cycle = Cycle(start: bool, dir: bool, cmd: Request, extReady: bool, extAnswer: bool,
                         bufReady: bool, bufAnswer: bool)

  function ExtGnt(w: World, c: Cycle): bool { c.extReady && w.ExtReq() }
  function BufGnt(w: World, c: Cycle): bool { c.bufReady && w.BufReq() && CellOf(w.BufAddr()) != NoCell }
  function ExtRvalid(w: World, c: Cycle): bool { c.extAnswer && w.extPending.Some? }
  function BufRvalid(w: World, c: Cycle): bool { c.bufAnswer && w.bufPending.Some? }
  function Answer(p: Option<U32>): U32 { if p.Some? then p.value else 0 }

  function PendingNext(granted: bool, value: U32, answered: bool, p: Option<U32>): Option<U32> {
    if granted then Some(value) else if answered then None else p
  }

  function WorldNext(w: World, c: Cycle): (v: World)
    requires w.Valid()
    ensures v.Valid()
  {
    var extGnt, bufGnt := ExtGnt(w, c), BufGnt(w, c);
    World(EngineNext(w.rd, c.start && !c.dir, c.cmd, extGnt, ExtRvalid(w, c), Answer(w.extPending), bufGnt),
          EngineNext(w.wr, c.start && c.dir, c.cmd, bufGnt, BufRvalid(w, c), Answer(w.bufPending), extGnt),
          if extGnt && w.ExtWr() then w.ext[w.ExtAddr() := w.wr.data] else w.ext,
          if bufGnt && w.BufWr() then w.local.Store(w.BufAddr(), w.rd.data) else w.local,
          PendingNext(extGnt && !w.ExtWr(), w.ext[w.ExtAddr()], ExtRvalid(w, c), w.extPending),
          PendingNext(bufGnt && !w.BufWr(), w.local.Load(w.BufAddr()), BufRvalid(w, c), w.bufPending))
  }

  // ---- What a transfer is to do ----

  // A transfer and the memories it found.
  datatype Job = Job(dir: bool, cmd: Request, ext: seq<U32>, local: Local) {
    predicate Valid() { |ext| == EXT_SIZE && local.Valid() }

    // A length of zero still moves one element.
    function Count(): nat { if cmd.len == 0 then 1 else cmd.len }
    function ExtAt(i: nat): U32 { Walk(cmd.ext, EXT_SIZE, i) }
    function LocAt(i: nat): LocAddr { Walk(cmd.loc, LOC_SIZE, i) }

    // The element in hand: what the source holds at position i.
    function Element(i: nat): U32
      requires Valid()
    {
      if dir then local.Load(LocAt(i)) else ext[ExtAt(i)]
    }

    // The memories after k elements.
    function LocalAfter(k: nat): (m: Local)
      requires Valid()
      ensures m.Valid()
    {
      if dir || k == 0 then local else LocalAfter(k - 1).Store(LocAt(k - 1), Element(k - 1))
    }

    function ExtAfter(k: nat): (s: seq<U32>)
      requires Valid()
      ensures |s| == EXT_SIZE
    {
      if !dir || k == 0 then ext else ExtAfter(k - 1)[ExtAt(k - 1) := Element(k - 1)]
    }
  }

  // Where a transfer stands: k elements are through, and the engine's registers say so.
  ghost predicate Underway(w: World, j: Job) {
    var e, idle := if j.dir then w.wr else w.rd, if j.dir then w.rd else w.wr;
    var pending, other := if j.dir then w.bufPending else w.extPending, if j.dir then w.extPending else w.bufPending;
    var k := e.cnt;
    j.Valid() && w.Valid() && idle.phase == Idle && other == None && e.len == j.cmd.len &&
    w.local == j.LocalAfter(k) && w.ext == j.ExtAfter(k) &&
    match e.phase
    case Idle => false
    case Done => k == j.Count() && pending == None
    case Fetching => k < j.Count() && AtElement(e, j) && pending == None
    case Waiting => k < j.Count() && AtElement(e, j) && pending == Some(j.Element(k))
    case Storing => k < j.Count() && AtElement(e, j) && pending == None && e.data == j.Element(k)
  }

  predicate AtElement(e: Engine, j: Job) { e.ext == j.ExtAt(e.cnt) && e.loc == j.LocAt(e.cnt) }

  // The transfer is over: both engines at rest and every element in place.
  ghost predicate Complete(w: World, j: Job) {
    j.Valid() && w.Valid() && w.AtRest() && w.local == j.LocalAfter(j.Count()) && w.ext == j.ExtAfter(j.Count())
  }

  lemma {:induction false} StartBegins(w: World, c: Cycle)
    requires w.Valid() && w.AtRest() && c.start
    ensures Underway(WorldNext(w, c), Job(c.dir, c.cmd, w.ext, w.local))
  {}

  // A source is read as it was at the start: what has been stored so far went to the other memory.
  lemma ElementNow(w: World, j: Job)
    requires Underway(w, j)
    ensures j.dir ==> w.local.Load(j.LocAt(w.wr.cnt)) == j.Element(w.wr.cnt)
    ensures !j.dir ==> w.ext[j.ExtAt(w.rd.cnt)] == j.Element(w.rd.cnt)
  {}

  lemma {:induction false} ReaderFetches(w: World, c: Cycle, j: Job)
    requires Underway(w, j) && !j.dir && !c.start && w.rd.phase != Storing
    ensures if w.rd.phase == Done then Complete(WorldNext(w, c), j) else Underway(WorldNext(w, c), j)
  {
    ElementNow(w, j);
  }

  lemma {:induction false} ReaderStores(w: World, c: Cycle, j: Job)
    requires Underway(w, j) && !j.dir && !c.start && w.rd.phase == Storing
    ensures Underway(WorldNext(w, c), j)
  {
  }

  lemma {:induction false} WriterFetches(w: World, c: Cycle, j: Job)
    requires Underway(w, j) && j.dir && !c.start && w.wr.phase != Storing
    ensures if w.wr.phase == Done then Complete(WorldNext(w, c), j) else Underway(WorldNext(w, c), j)
  {
    ElementNow(w, j);
  }

  lemma {:induction false} WriterStores(w: World, c: Cycle, j: Job)
    requires Underway(w, j) && j.dir && !c.start && w.wr.phase == Storing
    ensures Underway(WorldNext(w, c), j)
  {
  }

  // Whatever the memories do in a cycle, the transfer stays on track, and its one done cycle is its last.
  lemma {:induction false} StepKeeps(w: World, c: Cycle, j: Job)
    requires Underway(w, j) && !c.start
    ensures if (if j.dir then w.wr.phase else w.rd.phase) == Done
            then Complete(WorldNext(w, c), j) else Underway(WorldNext(w, c), j)
  {
    if j.dir {
      if w.wr.phase == Storing { WriterStores(w, c, j); } else { WriterFetches(w, c, j); }
    } else {
      if w.rd.phase == Storing { ReaderStores(w, c, j); } else { ReaderFetches(w, c, j); }
    }
  }

  lemma {:induction false} RestKeeps(w: World, c: Cycle, j: Job)
    requires Complete(w, j) && !c.start
    ensures Complete(WorldNext(w, c), j)
  {}

  // ---- Whole runs ----

  ghost predicate IsRun(ws: seq<World>, cs: seq<Cycle>) {
    |ws| == |cs| + 1 && (forall i :: 0 <= i < |ws| ==> ws[i].Valid()) &&
    forall i :: 0 <= i < |cs| ==> ws[i + 1] == WorldNext(ws[i], cs[i])
  }

  // A started transfer and nothing else.
  ghost predicate IsTransfer(ws: seq<World>, cs: seq<Cycle>, j: Job) {
    IsRun(ws, cs) && |cs| > 0 && ws[0].AtRest() && cs[0].start && (forall k :: 0 < k < |cs| ==> !cs[k].start) &&
    j == Job(cs[0].dir, cs[0].cmd, ws[0].ext, ws[0].local)
  }

  // A transfer started at rest and left alone is, in every later cycle, on track or complete.
  lemma {:induction false} TransferRuns(ws: seq<World>, cs: seq<Cycle>, j: Job, i: nat)
    requires IsTransfer(ws, cs, j) && 0 < i < |ws|
    ensures Underway(ws[i], j) || Complete(ws[i], j)
  {
    if i == 1 {
      StartBegins(ws[0], cs[0]);
    } else {
      TransferRuns(ws, cs, j, i - 1);
      if Underway(ws[i - 1], j) { StepKeeps(ws[i - 1], cs[i - 1], j); } else { RestKeeps(ws[i - 1], cs[i - 1], j); }
    }
  }

  // So when neither engine is busy any more, every element has been moved, and nothing else.
  lemma {:induction false} FinishedMeansMoved(ws: seq<World>, cs: seq<Cycle>, j: Job, i: nat)
    requires IsTransfer(ws, cs, j) && 0 < i < |ws| && !ws[i].rd.Busy() && !ws[i].wr.Busy()
    ensures j.Valid() && ws[i].local == j.LocalAfter(j.Count()) && ws[i].ext == j.ExtAfter(j.Count())
  {
    TransferRuns(ws, cs, j, i);
  }

  // ---- Progress ----

  // Cycles still to be granted or answered: three per element.
  function Remaining(w: World, j: Job): int {
    var e := if j.dir then w.wr else w.rd;
    match e.phase
    case Fetching => 3 * (j.Count() - e.cnt)
    case Waiting => 3 * (j.Count() - e.cnt) - 1
    case Storing => 3 * (j.Count() - e.cnt) - 2
    case _ => 0
  }

  // The memory in question grants or answers what the transfer is waiting for.
  predicate Served(w: World, c: Cycle, j: Job) {
    if j.dir then
      match w.wr.phase
      case Fetching => BufGnt(w, c)
      case Waiting => BufRvalid(w, c)
      case Storing => ExtGnt(w, c)
      case _ => false
    else
      match w.rd.phase
      case Fetching => ExtGnt(w, c)
      case Waiting => ExtRvalid(w, c)
      case Storing => BufGnt(w, c)
      case _ => false
  }

  // A served cycle brings a busy transfer one step nearer its end, an unserved one changes nothing, and the
  // last served one ends in the cycle that reports completion.
  lemma {:induction false} ServedAdvances(w: World, c: Cycle, j: Job)
    requires Underway(w, j) && !c.start && (w.rd.Busy() || w.wr.Busy())
    ensures 0 < Remaining(w, j)
    ensures Remaining(WorldNext(w, c), j) == Remaining(w, j) - (if Served(w, c, j) then 1 else 0)
    ensures !Served(w, c, j) ==> WorldNext(w, c) == w
    ensures Remaining(WorldNext(w, c), j) == 0 <==>
            (if j.dir then WorldNext(w, c).wr.phase else WorldNext(w, c).rd.phase) == Done
  {}

  // Served cycles among cycles 1 to i - 1 of a run.
  function ServedCount(ws: seq<World>, cs: seq<Cycle>, j: Job, i: nat): nat
    requires i <= |cs| && |ws| == |cs| + 1
  {
    if i <= 1 then 0 else ServedCount(ws, cs, j, i - 1) + (if Served(ws[i - 1], cs[i - 1], j) then 1 else 0)
  }

  // A transfer takes exactly three served cycles per element: with fewer it is still busy, as far from its end
  // as cycles are missing, and with the last of them it is over.
  lemma {:induction false} CompletesExactly(ws: seq<World>, cs: seq<Cycle>, j: Job, i: nat)
    requires IsTransfer(ws, cs, j) && 0 < i <= |cs|
    ensures var n := ServedCount(ws, cs, j, i);
            n <= 3 * j.Count() &&
            (n < 3 * j.Count() ==>
              Underway(ws[i], j) && (ws[i].rd.Busy() || ws[i].wr.Busy()) && Remaining(ws[i], j) == 3 * j.Count() - n) &&
            (n == 3 * j.Count() ==>
              !ws[i].rd.Busy() && !ws[i].wr.Busy() && (Underway(ws[i], j) || Complete(ws[i], j)))
  {
    if i == 1 {
      StartBegins(ws[0], cs[0]);
    } else {
      CompletesExactly(ws, cs, j, i - 1);
      var w, c := ws[i - 1], cs[i - 1];
      if ServedCount(ws, cs, j, i - 1) < 3 * j.Count() {
        StepKeeps(w, c, j);
        ServedAdvances(w, c, j);
      } else {
        OverStaysOver(w, c, j);
      }
    }
  }

  lemma {:induction false} OverStaysOver(w: World, c: Cycle, j: Job)
    requires !c.start && !w.rd.Busy() && !w.wr.Busy() && (Underway(w, j) || Complete(w, j))
    ensures Complete(WorldNext(w, c), j) && !Served(w, c, j)
  {
    if Underway(w, j) { StepKeeps(w, c, j); } else { RestKeeps(w, c, j); }
  }

  // A memory that always grants and always answers.
  predicate Willing(c: Cycle) { c.extReady && c.extAnswer && c.bufReady && c.bufAnswer }

  lemma {:induction false} WillingServes(w: World, c: Cycle, j: Job)
    requires Underway(w, j) && Willing(c) && (w.rd.Busy() || w.wr.Busy())
    requires forall m :: 0 <= m < j.Count() ==> CellOf(j.LocAt(m)) != NoCell
    ensures Served(w, c, j)
  {
    assert CellOf(j.LocAt(if j.dir then w.wr.cnt else w.rd.cnt)) != NoCell;
  }

  // With willing memories a transfer is over after three cycles per element exactly when every one of its local
  // addresses lies in a buffer.
  lemma {:induction false} FinishesExactly(ws: seq<World>, cs: seq<Cycle>, j: Job)
    requires IsTransfer(ws, cs, j) && |cs| == 3 * j.Count() + 1 && forall k :: 0 <= k < |cs| ==> Willing(cs[k])
    ensures !ws[|cs|].rd.Busy() && !ws[|cs|].wr.Busy() <==>
            forall m :: 0 <= m < j.Count() ==> CellOf(j.LocAt(m)) != NoCell
  {
    if forall m :: 0 <= m < j.Count() ==> CellOf(j.LocAt(m)) != NoCell {
      EveryCycleServed(ws, cs, j, |cs|);
      CompletesExactly(ws, cs, j, |cs|);
    } else {
      var m :| 0 <= m < j.Count() && CellOf(j.LocAt(m)) == NoCell;
      StuckOutsideBuffers(ws, cs, |cs|, j, m);
    }
  }

  lemma {:induction false} EveryCycleServed(ws: seq<World>, cs: seq<Cycle>, j: Job, i: nat)
    requires IsTransfer(ws, cs, j) && 0 < i <= |cs| == 3 * j.Count() + 1
    requires forall k :: 0 <= k < |cs| ==> Willing(cs[k])
    requires forall m :: 0 <= m < j.Count() ==> CellOf(j.LocAt(m)) != NoCell
    ensures ServedCount(ws, cs, j, i) == i - 1
  {
    if i > 1 {
      EveryCycleServed(ws, cs, j, i - 1);
      CompletesExactly(ws, cs, j, i - 1);
      var w, c := ws[i - 1], cs[i - 1];
      assert Willing(c);
      WillingServes(w, c, j);
    }
  }

  // Where element m is the furthest a transfer can be.
  predicate Before(w: World, j: Job, m: nat) {
    if j.dir then w.wr.Busy() && w.wr.cnt <= m && (w.wr.cnt == m ==> w.wr.phase == Fetching)
    else w.rd.Busy() && w.rd.cnt <= m
  }

  // Below 0x10000 no buffer is selected, so a transfer with an element there never gets past it.
  lemma {:induction false} StuckOutsideBuffers(ws: seq<World>, cs: seq<Cycle>, i: nat, j: Job, m: nat)
    requires IsTransfer(ws, cs, j) && 0 < i < |ws| && m < j.Count() && CellOf(j.LocAt(m)) == NoCell
    ensures Underway(ws[i], j) && Before(ws[i], j, m)
  {
    if i == 1 {
      StartBegins(ws[0], cs[0]);
    } else {
      StuckOutsideBuffers(ws, cs, i - 1, j, m);
      StepKeeps(ws[i - 1], cs[i - 1], j);
      StuckStep(ws[i - 1], cs[i - 1], j, m);
    }
  }

  lemma {:induction false} StuckStep(w: World, c: Cycle, j: Job, m: nat)
    requires Underway(w, j) && !c.start && Before(w, j, m)
    requires m < j.Count() && CellOf(j.LocAt(m)) == NoCell
    ensures Before(WorldNext(w, c), j, m)
  {}

  // ---- One engine at a time ----

  predicate OneActive(w: World) { w.rd.phase == Idle || w.wr.phase == Idle }

  // The register block starts a transfer only while none is in progress.
  predicate StartsAtRest(w: World, c: Cycle) { c.start ==> w.rd.phase == Idle && w.wr.phase == Idle }

  function PhaseOf(w: World): DmaPhase {
    if w.rd.Busy() || w.wr.Busy() then DmaBusy
    else if w.rd.phase == Done || w.wr.phase == Done then DmaDone
    else DmaIdle
  }

  // At most one engine is ever out of idle, and busy and done behave as the pipeline model takes them to.
  lemma {:induction false} FrontendIsDmaPhase(w: World, c: Cycle)
    requires w.Valid() && OneActive(w) && StartsAtRest(w, c)
    ensures OneActive(WorldNext(w, c)) && !(WorldNext(w, c).rd.Busy() && WorldNext(w, c).wr.Busy())
    ensures exists finish :: PhaseOf(WorldNext(w, c)) == DmaNext(PhaseOf(w), c.start, finish)
  {
    var v := WorldNext(w, c);
    assert PhaseOf(v) == DmaNext(PhaseOf(w), c.start, PhaseOf(v) == DmaDone);
  }

  // A read is outstanding exactly while an engine waits for it.
  predicate Awaited(w: World) {
    (w.extPending.Some? <==> w.rd.phase == Waiting) && (w.bufPending.Some? <==> w.wr.phase == Waiting)
  }

  lemma {:induction false} AwaitedStep(w: World, c: Cycle)
    requires w.Valid() && OneActive(w) && StartsAtRest(w, c) && Awaited(w)
    ensures Awaited(WorldNext(w, c))
  {}

  // ---- What the folds mean inside one buffer ----

  // Where a buffer starts and how many cells it has.
  predicate InOneBuffer(a: LocAddr, n: nat) {
    (WEIGHT_BUF_BASE <= a && a + n <= WEIGHT_BUF_BASE + SRAM_DEPTH) ||
    (ACT_BUF_BASE <= a && a + n <= ACT_BUF_BASE + 2 * SRAM_DEPTH) ||
    (PSUM_BUF_BASE <= a && a + n <= PSUM_BUF_BASE + SRAM_DEPTH)
  }

  lemma {:induction false} CellsDistinct(a: LocAddr, n: nat, i: nat, k: nat)
    requires InOneBuffer(a, n) && i < n && k < n
    ensures a + i < LOC_SIZE && a + k < LOC_SIZE && CellOf(a + i) != NoCell
    ensures CellOf(a + i) == CellOf(a + k) <==> i == k
  {
    CellInBuffer(a + i);
    CellInBuffer(a + k);
  }

  // Within its capacity a buffer's cells follow its addresses.
  lemma CellInBuffer(x: LocAddr)
    ensures WEIGHT_BUF_BASE <= x < WEIGHT_BUF_BASE + SRAM_DEPTH ==> CellOf(x) == WtCell(x - WEIGHT_BUF_BASE)
    ensures ACT_BUF_BASE <= x < ACT_BUF_BASE + 2 * SRAM_DEPTH ==> CellOf(x) == ActCell(x - ACT_BUF_BASE)
    ensures PSUM_BUF_BASE <= x < PSUM_BUF_BASE + SRAM_DEPTH ==> CellOf(x) == PsumCell(x - PSUM_BUF_BASE)
  {}

  // After a read transfer inside one buffer, cell loc + i holds what it keeps of external word ext + i...
  lemma {:induction false} ReadMoves(j: Job, k: nat, i: nat)
    requires j.Valid() && !j.dir && InOneBuffer(j.cmd.loc, j.Count()) && i < k <= j.Count()
    ensures j.LocAt(i) == j.cmd.loc + i
    ensures j.LocalAfter(k).Load(j.LocAt(i)) == Kept(j.LocAt(i), j.ext[j.ExtAt(i)])
  {
    WalkIsModular(j.cmd.loc, LOC_SIZE, i);
    WalkIsModular(j.cmd.loc, LOC_SIZE, k - 1);
    CellsDistinct(j.cmd.loc, j.Count(), k - 1, i);
    LoadAfterStore(j.LocalAfter(k - 1), j.LocAt(k - 1), j.Element(k - 1), j.LocAt(i));
    if i < k - 1 { ReadMoves(j, k - 1, i); }
  }

  // ...and every cell the transfer does not cover is untouched.
  lemma {:induction false} ReadFrame(j: Job, k: nat, b: LocAddr)
    requires j.Valid() && !j.dir && InOneBuffer(j.cmd.loc, j.Count()) && k <= j.Count()
    requires forall i :: 0 <= i < k ==> CellOf(b) != CellOf(j.LocAt(i))
    ensures j.LocalAfter(k).Load(b) == j.local.Load(b)
  {
    if k > 0 {
      WalkIsModular(j.cmd.loc, LOC_SIZE, k - 1);
      CellsDistinct(j.cmd.loc, j.Count(), k - 1, k - 1);
      LoadAfterStore(j.LocalAfter(k - 1), j.LocAt(k - 1), j.Element(k - 1), b);
      ReadFrame(j, k - 1, b);
    }
  }

  // After a write transfer that does not run off the end of the address space, external word ext + i holds
  // local element i, zero-extended, and every other word is untouched.
  lemma {:induction false} WriteMoves(j: Job, k: nat, b: U32)
    requires j.Valid() && j.dir && j.cmd.ext + j.Count() <= EXT_SIZE && k <= j.Count()
    ensures j.ExtAfter(k)[b] == if j.cmd.ext <= b < j.cmd.ext + k
                                then j.local.Load(j.LocAt(b - j.cmd.ext)) else j.ext[b]
  {
    if k > 0 {
      WriteMoves(j, k - 1, b);
      WalkIsModular(j.cmd.ext, EXT_SIZE, k - 1);
    }
  }

  // The whole promise of a read transfer, over any run: after three served cycles per element the block is in
  // the buffer and the rest of both memories is as it was.
  lemma {:induction false} ReadTransfer(ws: seq<World>, cs: seq<Cycle>, j: Job, i: nat)
    requires IsTransfer(ws, cs, j) && 0 < i <= |cs| && ServedCount(ws, cs, j, i) == 3 * j.Count()
    requires !j.dir && InOneBuffer(j.cmd.loc, j.Count()) && j.cmd.ext + j.Count() <= EXT_SIZE
    ensures !ws[i].rd.Busy() && !ws[i].wr.Busy() && ws[i].ext == ws[0].ext
    ensures forall k :: 0 <= k < j.Count() ==>
              ws[i].local.Load(j.LocAt(k)) == Kept(j.LocAt(k), ws[0].ext[j.cmd.ext + k]) &&
              j.LocAt(k) == j.cmd.loc + k
    ensures forall b: LocAddr :: (forall k :: 0 <= k < j.Count() ==> CellOf(b) != CellOf(j.LocAt(k))) ==>
              ws[i].local.Load(b) == ws[0].local.Load(b)
  {
    CompletesExactly(ws, cs, j, i);
    forall k | 0 <= k < j.Count()
      ensures ws[i].local.Load(j.LocAt(k)) == Kept(j.LocAt(k), ws[0].ext[j.cmd.ext + k])
      ensures j.LocAt(k) == j.cmd.loc + k
    {
      ReadMoves(j, j.Count(), k);
      WalkIsModular(j.cmd.ext, EXT_SIZE, k);
    }
    forall b: LocAddr | forall k :: 0 <= k < j.Count() ==> CellOf(b) != CellOf(j.LocAt(k))
      ensures ws[i].local.Load(b) == ws[0].local.Load(b)
    {
      ReadFrame(j, j.Count(), b);
    }
  }

  // And of a write transfer.
  lemma {:induction false} WriteTransfer(ws: seq<World>, cs: seq<Cycle>, j: Job, i: nat)
    requires IsTransfer(ws, cs, j) && 0 < i <= |cs| && ServedCount(ws, cs, j, i) == 3 * j.Count()
    requires j.dir && j.cmd.ext + j.Count() <= EXT_SIZE
    ensures !ws[i].rd.Busy() && !ws[i].wr.Busy() && ws[i].local == ws[0].local
    ensures forall b :: 0 <= b < EXT_SIZE ==>
              ws[i].ext[b] == if j.cmd.ext <= b < j.cmd.ext + j.Count()
                              then ws[0].local.Load(j.LocAt(b - j.cmd.ext)) else ws[0].ext[b]
  {
    CompletesExactly(ws, cs, j, i);
    forall b | 0 <= b < EXT_SIZE
      ensures ws[i].ext[b] == if j.cmd.ext <= b < j.cmd.ext + j.Count()
                              then ws[0].local.Load(j.LocAt(b - j.cmd.ext)) else ws[0].ext[b]
    {
      WriteMoves(j, j.Count(), b);
    }
  }

  // Reading a block in and writing it out again reproduces it elsewhere, cut to what the cells keep: low bytes
  // for the byte buffers, whole words for partial sums.
  lemma {:induction false} RoundTrip(r: Job, w: Job, i: nat)
    requires r.Valid() && !r.dir && InOneBuffer(r.cmd.loc, r.Count()) && r.cmd.ext + r.Count() <= EXT_SIZE
    requires w.Valid() && w.dir && w.cmd.loc == r.cmd.loc && w.cmd.len == r.cmd.len
    requires w.cmd.ext + w.Count() <= EXT_SIZE && w.local == r.LocalAfter(r.Count()) && i < r.Count()
    ensures w.ExtAfter(w.Count())[w.cmd.ext + i] == Kept(r.cmd.loc + i, r.ext[r.cmd.ext + i])
  {
    ReadMoves(r, r.Count(), i);
    WalkIsModular(r.cmd.ext, EXT_SIZE, i);
    WriteMoves(w, w.Count(), w.cmd.ext + i);
  }

  // ---- The clocked form ----

  class DmaReader {
    var stateR: Phase
    var extAddrR: U32
    var locAddrR: LocAddr
    var lenR: U16
    var cntR: U16
    var dataR: U32

    ghost function State(): Engine
      reads this
    {
      Engine(stateR, extAddrR, locAddrR, lenR, cntR, dataR)
    }

    constructor ()
      ensures State() == Engine(Idle, 0, 0, 0, 0, 0)
    {
      stateR, extAddrR, locAddrR, lenR, cntR, dataR := Idle, 0, 0, 0, 0, 0;
    }

    method Tick(start: bool, cmd: Request, extGnt: bool, extRdata: U32, extRvalid: bool, bufGnt: bool)
      modifies this
      ensures State() == EngineNext(old(State()), start, cmd, extGnt, extRvalid, extRdata, bufGnt)
    {
      match stateR
      case Idle =>
        if start {
          stateR, extAddrR, locAddrR, lenR, cntR := Fetching, cmd.ext, cmd.loc, cmd.len, 0;
        }
      case Fetching =>
        if extGnt { stateR := Waiting; }
      case Waiting =>
        if extRvalid { stateR, dataR := Storing, extRdata; }
      case Storing =>
        if bufGnt {
          stateR := if Step(cntR, 0x1_0000) >= lenR then Done else Fetching;
          cntR, extAddrR, locAddrR := Step(cntR, 0x1_0000), Step(extAddrR, EXT_SIZE), Step(locAddrR, LOC_SIZE);
        }
      case Done =>
        stateR := Idle;
    }
  }

  class DmaWriter {
    var stateR: Phase
    var extAddrR: U32
    var locAddrR: LocAddr
    var lenR: U16
    var cntR: U16
    var dataR: U32

    ghost function State(): Engine
      reads this
    {
      Engine(stateR, extAddrR, locAddrR, lenR, cntR, dataR)
    }

    constructor ()
      ensures State() == Engine(Idle, 0, 0, 0, 0, 0)
    {
      stateR, extAddrR, locAddrR, lenR, cntR, dataR := Idle, 0, 0, 0, 0, 0;
    }

    method Tick(start: bool, cmd: Request, extGnt: bool, bufGnt: bool, bufRdata: U32, bufRvalid: bool)
      modifies this
      ensures State() == EngineNext(old(State()), start, cmd, bufGnt, bufRvalid, bufRdata, extGnt)
    {
      match stateR
      case Idle =>
        if start {
          stateR, extAddrR, locAddrR, lenR, cntR := Fetching, cmd.ext, cmd.loc, cmd.len, 0;
        }
      case Fetching =>
        if bufGnt { stateR := Waiting; }
      case Waiting =>
        if bufRvalid { stateR, dataR := Storing, bufRdata; }
      case Storing =>
        if extGnt {
          stateR := if Step(cntR, 0x1_0000) >= lenR then Done else Fetching;
          cntR, extAddrR, locAddrR := Step(cntR, 0x1_0000), Step(extAddrR, EXT_SIZE), Step(locAddrR, LOC_SIZE);
        }
      case Done =>
        stateR := Idle;
    }
  }
}
