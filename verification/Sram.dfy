// rtl/platform/mem_macro_1rw1r_wrap.sv: a byte memory tiled over 512-row, four-lane macros against a flat one.
module Sram {
  import opened Common

  const LANES := 4
  const ROWS := 512
  const BANK_BYTES := 2048

  type Word = w: seq<Byte> | |w| == 4 witness [0, 0, 0, 0]

  // Port activity in one cycle. The junk words are what a macro drives where its data sheet promises nothing.
  datatype Ports = Ports(aAddr: nat, aWdata: Byte, aWe: bool, aEn: bool, bAddr: nat, bEn: bool,
                         junk0: Word, junk1: Word)

  predicate InDepth(p: Ports, depth: nat) { p.aAddr < depth && p.bAddr < depth }

  // ---- The flat memory: the FLOPS and FPGA variants ----

  datatype Flat = Flat(mem: seq<Byte>, aRdata: Byte, bRdata: Byte)

  function FlatNext(f: Flat, p: Ports): Flat
    requires InDepth(p, |f.mem|)
  {
    Flat(if p.aEn && p.aWe then f.mem[p.aAddr := p.aWdata] else f.mem,
         if p.aEn && !p.aWe then f.mem[p.aAddr] else f.aRdata,
         if p.bEn then f.mem[p.bAddr] else f.bRdata)
  }

  // ---- The tiled memory: the Sky130 variant ----

  function LaneOf(addr: nat): nat { addr % LANES }
  function RowOf(addr: nat): nat { addr / LANES % ROWS }
  function BankOf(addr: nat): nat { addr / BANK_BYTES }
  function Join(bank: nat, row: nat, lane: nat): nat { bank * BANK_BYTES + row * LANES + lane }

  // The address split is a bijection between [0, banks * 2048) and banks x rows x lanes.
  lemma {:induction false} SplitBijective(addr: nat, banks: nat, bank: nat, row: nat, lane: nat)
    requires addr < banks * BANK_BYTES && bank < banks && row < ROWS && lane < LANES
    ensures BankOf(addr) < banks && RowOf(addr) < ROWS && LaneOf(addr) < LANES
    ensures Join(BankOf(addr), RowOf(addr), LaneOf(addr)) == addr
    ensures Join(bank, row, lane) < banks * BANK_BYTES
    ensures Join(bank, row, lane) == addr <==> bank == BankOf(addr) && row == RowOf(addr) && lane == LaneOf(addr)
    ensures addr == BankOf(addr) * 2048 + RowOf(addr) * 4 + LaneOf(addr)
  {
    SplitJoins(addr);
    JoinSplits(bank, row, lane);
  }

  lemma SplitJoins(addr: nat)
    ensures RowOf(addr) < ROWS && LaneOf(addr) < LANES && Join(BankOf(addr), RowOf(addr), LaneOf(addr)) == addr
  {
    var q := addr / LANES;
    assert q / ROWS == BankOf(addr);
  }

  lemma JoinSplits(bank: nat, row: nat, lane: nat)
    requires row < ROWS && lane < LANES
    ensures BankOf(Join(bank, row, lane)) == bank
    ensures RowOf(Join(bank, row, lane)) == row && LaneOf(Join(bank, row, lane)) == lane
  {
    assert Join(bank, row, lane) / LANES == bank * ROWS + row;
  }

  // One 512 x 32 macro with its two output registers.
  datatype Macro = Macro(cells: seq<Word>, dout0: Word, dout1: Word) {
    predicate Valid() { |cells| == ROWS }
  }

  function Masked(was: Word, din: Word, mask: seq<bool>): Word
    requires |mask| == LANES
  {
    seq(LANES, i requires 0 <= i < LANES => if mask[i] then din[i] else was[i])
  }

  // Chip selects and write enable are active high here. A port-B read of the row being written returns junk,
  // and so does port A's output after a write.
  function MacroNext(m: Macro, en0: bool, we0: bool, mask: seq<bool>, row0: nat, din: Word,
                     en1: bool, row1: nat, junk0: Word, junk1: Word): (m': Macro)
    requires m.Valid() && row0 < ROWS && row1 < ROWS && |mask| == LANES
    ensures m'.Valid()
  {
    Macro(if en0 && we0 then m.cells[row0 := Masked(m.cells[row0], din, mask)] else m.cells,
          if !en0 then m.dout0 else if we0 then junk0 else m.cells[row0],
          if !en1 then m.dout1 else if en0 && we0 && row0 == row1 then junk1 else m.cells[row1])
  }

  datatype Tiled = Tiled(banks: seq<Macro>, aBank: nat, aLane: nat, bBank: nat, bLane: nat) {
    predicate Valid() {
      |banks| > 0 && (forall b :: 0 <= b < |banks| ==> banks[b].Valid()) &&
      aBank < |banks| && bBank < |banks| && aLane < LANES && bLane < LANES
    }

    function Depth(): nat { |banks| * BANK_BYTES }
    function ARdata(): Byte requires Valid() { banks[aBank].dout0[aLane] }
    function BRdata(): Byte requires Valid() { banks[bBank].dout1[bLane] }
    function Cell(addr: nat): Byte
      requires Valid() && addr < Depth()
    {
      banks[BankOf(addr)].cells[RowOf(addr)][LaneOf(addr)]
    }
  }

  // One bank's share of a cycle: enabled when its number matches, byte replicated over the lanes, mask one-hot.
  function BankNext(m: Macro, b: nat, p: Ports): (m': Macro)
    requires m.Valid()
    ensures m'.Valid()
  {
    MacroNext(m, p.aEn && BankOf(p.aAddr) == b, p.aWe, seq(LANES, i => p.aWe && i == LaneOf(p.aAddr)),
              RowOf(p.aAddr), [p.aWdata, p.aWdata, p.aWdata, p.aWdata],
              p.bEn && BankOf(p.bAddr) == b, RowOf(p.bAddr), p.junk0, p.junk1)
  }

  function TiledNext(t: Tiled, p: Ports): Tiled
    requires t.Valid() && InDepth(p, t.Depth())
  {
    Tiled(seq(|t.banks|, b requires 0 <= b < |t.banks| => BankNext(t.banks[b], b, p)),
          if p.aEn then BankOf(p.aAddr) else t.aBank, if p.aEn then LaneOf(p.aAddr) else t.aLane,
          if p.bEn then BankOf(p.bAddr) else t.bBank, if p.bEn then LaneOf(p.bAddr) else t.bLane)
  }

  lemma TiledValid(t: Tiled, p: Ports)
    requires t.Valid() && InDepth(p, t.Depth())
    ensures TiledNext(t, p).Valid() && TiledNext(t, p).Depth() == t.Depth()
  {}

  // A port-B read of the very row port A is writing.
  predicate Conflict(p: Ports) {
    p.aEn && p.aWe && p.bEn && BankOf(p.aAddr) == BankOf(p.bAddr) && RowOf(p.aAddr) == RowOf(p.bAddr)
  }

  // Which outputs can be relied on: port A's when its last operation was a read, port B's when its last read
  // met no conflict.
  datatype Trust = Trust(a: bool, b: bool)

  function TrustNext(k: Trust, p: Ports): Trust {
    Trust(if p.aEn then !p.aWe else k.a, if p.bEn then !Conflict(p) else k.b)
  }

  ghost predicate Refines(t: Tiled, f: Flat, k: Trust) {
    t.Valid() && t.Depth() == |f.mem| &&
    (forall addr :: 0 <= addr < |f.mem| ==> t.Cell(addr) == f.mem[addr]) &&
    (k.a ==> t.ARdata() == f.aRdata) && (k.b ==> t.BRdata() == f.bRdata)
  }

  lemma {:induction false} WriteRefines(t: Tiled, p: Ports, addr: nat)
    requires t.Valid() && InDepth(p, t.Depth()) && addr < t.Depth() && TiledNext(t, p).Valid()
    ensures TiledNext(t, p).Cell(addr) == if p.aEn && p.aWe && addr == p.aAddr then p.aWdata else t.Cell(addr)
  {
    SplitBijective(addr, |t.banks|, BankOf(p.aAddr), RowOf(p.aAddr), LaneOf(p.aAddr));
    SplitBijective(p.aAddr, |t.banks|, BankOf(addr), RowOf(addr), LaneOf(addr));
  }

  lemma {:induction false} ReadsRefine(t: Tiled, p: Ports)
    requires t.Valid() && InDepth(p, t.Depth()) && TiledNext(t, p).Valid()
    ensures p.aEn && !p.aWe ==> TiledNext(t, p).ARdata() == t.Cell(p.aAddr)
    ensures !p.aEn ==> TiledNext(t, p).ARdata() == t.ARdata()
    ensures p.bEn && !Conflict(p) ==> TiledNext(t, p).BRdata() == t.Cell(p.bAddr)
    ensures !p.bEn ==> TiledNext(t, p).BRdata() == t.BRdata()
  {
    SplitBijective(p.aAddr, |t.banks|, 0, 0, 0);
    SplitBijective(p.bAddr, |t.banks|, 0, 0, 0);
  }

  lemma {:induction false} StepRefines(t: Tiled, f: Flat, k: Trust, p: Ports)
    requires Refines(t, f, k) && InDepth(p, |f.mem|)
    ensures Refines(TiledNext(t, p), FlatNext(f, p), TrustNext(k, p))
  {
    TiledValid(t, p);
    ReadsRefine(t, p);
    forall addr | 0 <= addr < |f.mem| ensures TiledNext(t, p).Cell(addr) == FlatNext(f, p).mem[addr] {
      WriteRefines(t, p, addr);
    }
  }

  // ---- Whole runs ----

  predicate AllInDepth(ps: seq<Ports>, depth: nat) { forall i :: 0 <= i < |ps| ==> InDepth(ps[i], depth) }

  // Both memories after the first i cycles of the same port activity, and what can be trusted of them then.
  function TiledAt(t: Tiled, ps: seq<Ports>, i: nat): (r: Tiled)
    requires t.Valid() && AllInDepth(ps, t.Depth()) && i <= |ps|
    ensures r.Valid() && r.Depth() == t.Depth()
  {
    if i == 0 then t else
      var was := TiledAt(t, ps, i - 1);
      TiledValid(was, ps[i - 1]);
      TiledNext(was, ps[i - 1])
  }

  function FlatAt(f: Flat, ps: seq<Ports>, i: nat): (r: Flat)
    requires AllInDepth(ps, |f.mem|) && i <= |ps|
    ensures |r.mem| == |f.mem|
  {
    if i == 0 then f else FlatNext(FlatAt(f, ps, i - 1), ps[i - 1])
  }

  function TrustAt(k: Trust, ps: seq<Ports>, i: nat): Trust
    requires i <= |ps|
  {
    if i == 0 then k else TrustNext(TrustAt(k, ps, i - 1), ps[i - 1])
  }

  lemma {:induction false} RunRefines(t: Tiled, f: Flat, k: Trust, ps: seq<Ports>, i: nat)
    requires Refines(t, f, k) && AllInDepth(ps, |f.mem|) && i <= |ps|
    ensures Refines(TiledAt(t, ps, i), FlatAt(f, ps, i), TrustAt(k, ps, i))
  {
    if i > 0 {
      RunRefines(t, f, k, ps, i - 1);
      StepRefines(TiledAt(t, ps, i - 1), FlatAt(f, ps, i - 1), TrustAt(k, ps, i - 1), ps[i - 1]);
    }
  }

  // In the cycle after a read, and until the port is used again, both memories show the byte the flat one held
  // when it was read.
  lemma {:induction false} ReadsMatch(t: Tiled, f: Flat, k: Trust, ps: seq<Ports>, i: nat, n: nat)
    requires Refines(t, f, k) && AllInDepth(ps, |f.mem|) && i < n <= |ps|
    ensures ps[i].aEn && !ps[i].aWe && (forall j :: i < j < n ==> !ps[j].aEn)
            ==> TiledAt(t, ps, n).ARdata() == FlatAt(f, ps, n).aRdata == FlatAt(f, ps, i).mem[ps[i].aAddr]
    ensures ps[i].bEn && !Conflict(ps[i]) && (forall j :: i < j < n ==> !ps[j].bEn)
            ==> TiledAt(t, ps, n).BRdata() == FlatAt(f, ps, n).bRdata == FlatAt(f, ps, i).mem[ps[i].bAddr]
  {
    RunRefines(t, f, k, ps, n);
    if ps[i].aEn && !ps[i].aWe && (forall j :: i < j < n ==> !ps[j].aEn) { PortAHolds(f, k, ps, i, n); }
    if ps[i].bEn && !Conflict(ps[i]) && (forall j :: i < j < n ==> !ps[j].bEn) { PortBHolds(f, k, ps, i, n); }
  }

  lemma {:induction false} PortAHolds(f: Flat, k: Trust, ps: seq<Ports>, i: nat, n: nat)
    requires AllInDepth(ps, |f.mem|) && i < n <= |ps|
    requires ps[i].aEn && !ps[i].aWe && forall j :: i < j < n ==> !ps[j].aEn
    ensures FlatAt(f, ps, n).aRdata == FlatAt(f, ps, i).mem[ps[i].aAddr] && TrustAt(k, ps, n).a
    decreases n
  {
    if i < n - 1 { PortAHolds(f, k, ps, i, n - 1); }
  }

  lemma {:induction false} PortBHolds(f: Flat, k: Trust, ps: seq<Ports>, i: nat, n: nat)
    requires AllInDepth(ps, |f.mem|) && i < n <= |ps|
    requires ps[i].bEn && !Conflict(ps[i]) && forall j :: i < j < n ==> !ps[j].bEn
    ensures FlatAt(f, ps, n).bRdata == FlatAt(f, ps, i).mem[ps[i].bAddr] && TrustAt(k, ps, n).b
    decreases n
  {
    if i < n - 1 { PortBHolds(f, k, ps, i, n - 1); }
  }

  // Port A's output agrees whatever a macro drives after a write exactly when its last operation was no write.
  lemma {:induction false} PortATrustExact(t: Tiled, f: Flat, k: Trust, p: Ports)
    requires Refines(t, f, k) && InDepth(p, |f.mem|) && t.ARdata() == f.aRdata
    ensures (forall junk: Word :: TiledNext(t, p.(junk0 := junk)).Valid() &&
               TiledNext(t, p.(junk0 := junk)).ARdata() == FlatNext(f, p).aRdata)
       <==> !(p.aEn && p.aWe)
  {
    if p.aEn && p.aWe {
      var q := p.(junk0 := Unlike(f.aRdata));
      TiledValid(t, q);
      WriteDisturbs(t, f, k, q);
      assert TiledNext(t, q).ARdata() != FlatNext(f, p).aRdata;
    } else {
      forall junk: Word
        ensures TiledNext(t, p.(junk0 := junk)).Valid()
        ensures TiledNext(t, p.(junk0 := junk)).ARdata() == FlatNext(f, p).aRdata
      {
        TiledValid(t, p.(junk0 := junk));
        ReadsRefine(t, p.(junk0 := junk));
      }
    }
  }

  // A word with no lane equal to b.
  function Unlike(b: Byte): (w: Word)
    ensures forall i :: 0 <= i < LANES ==> w[i] != b
  {
    var other: Byte := if b == 0 then 1 else 0;
    [other, other, other, other]
  }

  lemma {:induction false} WriteDisturbs(t: Tiled, f: Flat, k: Trust, p: Ports)
    requires Refines(t, f, k) && InDepth(p, |f.mem|) && p.aEn && p.aWe && TiledNext(t, p).Valid()
    ensures TiledNext(t, p).ARdata() == p.junk0[LaneOf(p.aAddr)] && FlatNext(f, p).aRdata == f.aRdata
  {
    SplitBijective(p.aAddr, |t.banks|, 0, 0, 0);
  }

  // Port B's output agrees whatever a macro drives on a conflict exactly when there was none.
  lemma {:induction false} PortBTrustExact(t: Tiled, f: Flat, k: Trust, p: Ports)
    requires Refines(t, f, k) && InDepth(p, |f.mem|) && p.bEn
    ensures (forall junk: Word :: TiledNext(t, p.(junk1 := junk)).Valid() &&
               TiledNext(t, p.(junk1 := junk)).BRdata() == FlatNext(f, p).bRdata)
       <==> !Conflict(p)
  {
    if Conflict(p) {
      var q := p.(junk1 := Unlike(FlatNext(f, p).bRdata));
      TiledValid(t, q);
      SplitBijective(p.bAddr, |t.banks|, 0, 0, 0);
      assert TiledNext(t, q).BRdata() == q.junk1[LaneOf(p.bAddr)];
    } else {
      forall junk: Word
        ensures TiledNext(t, p.(junk1 := junk)).Valid()
        ensures TiledNext(t, p.(junk1 := junk)).BRdata() == FlatNext(f, p).bRdata
      {
        TiledValid(t, p.(junk1 := junk));
        ReadsRefine(t, p.(junk1 := junk));
      }
    }
  }

  // ---- The clocked form ----

  class TiledSram {
    var banks: seq<Macro>
    var aBank: nat
    var aLane: nat
    var bBank: nat
    var bLane: nat

    ghost function State(): Tiled
      reads this
    {
      Tiled(banks, aBank, aLane, bBank, bLane)
    }

    method Tick(p: Ports)
      requires State().Valid() && InDepth(p, State().Depth())
      modifies this
      ensures State() == TiledNext(old(State()), p) && State().Valid()
    {
      TiledValid(State(), p);
      var next := banks;
      for gi := 0 to |banks|
        invariant |next| == |banks|
        invariant forall b :: 0 <= b < gi ==> next[b] == BankNext(banks[b], b, p)
      {
        next := next[gi := BankNext(banks[gi], gi, p)];
      }
      banks := next;
      if p.aEn { aLane, aBank := LaneOf(p.aAddr), BankOf(p.aAddr); }
      if p.bEn { bLane, bBank := LaneOf(p.bAddr), BankOf(p.bAddr); }
    }
  }

  class FlatSram {
    const mem: array<Byte>
    var aRdata: Byte
    var bRdata: Byte

    constructor (depth: nat)
      ensures fresh(mem) && mem.Length == depth
    {
      mem := new Byte[depth];
    }

    ghost function State(): Flat
      reads this, mem
    {
      Flat(mem[..], aRdata, bRdata)
    }

    method Tick(p: Ports)
      requires InDepth(p, mem.Length)
      modifies this, mem
      ensures State() == FlatNext(old(State()), p)
    {
      if p.bEn { bRdata := mem[p.bAddr]; }
      if p.aEn {
        if p.aWe {
          mem[p.aAddr] := p.aWdata;
        } else {
          aRdata := mem[p.aAddr];
        }
      }
    }
  }
}
