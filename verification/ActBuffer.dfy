// rtl/memory/npu_act_buffer.sv: host, backend read and backend write ports over one 1RW1R memory.
module ActBuffer {
  import opened Common
  import opened Sram

  datatype Requests = Requests(hostAddr: nat, hostWdata: Byte, hostWe: bool, hostReq: bool,
                               beRdAddr: nat, beRdReq: bool, beWrAddr: nat, beWrData: Byte, beWrReq: bool)

  predicate InRange(r: Requests, depth: nat) {
    r.hostAddr < depth && r.beRdAddr < depth && r.beWrAddr < depth
  }

  // Backend writes have priority on port A.
  function PortsOf(r: Requests, junk0: Word, junk1: Word): Ports {
    Ports(if r.beWrReq then r.beWrAddr else r.hostAddr, if r.beWrReq then r.beWrData else r.hostWdata,
          if r.beWrReq then true else r.hostReq && r.hostWe, r.beWrReq || r.hostReq,
          r.beRdAddr, r.beRdReq, junk0, junk1)
  }

  predicate HostGnt(r: Requests) { r.hostReq && !r.beWrReq }

  datatype Accepts = Accepts(hostRd: bool, beRd: bool)

  function AcceptsNext(r: Requests): Accepts {
    Accepts(r.hostReq && !r.hostWe && !r.beWrReq, r.beRdReq)
  }

  // One cycle of the buffer on the flat memory: every granted read is answered in the next cycle, and only
  // those, with the byte stored at the address when it was granted; memory changes by the one write that was
  // granted and by nothing else.
  lemma {:induction false} GrantedIsAnswered(f: Flat, r: Requests, junk0: Word, junk1: Word)
    requires InRange(r, |f.mem|)
    ensures var f' := FlatNext(f, PortsOf(r, junk0, junk1));
            var k' := AcceptsNext(r);
            (k'.hostRd <==> HostGnt(r) && !r.hostWe) && (k'.hostRd ==> f'.aRdata == f.mem[r.hostAddr]) &&
            (k'.beRd <==> r.beRdReq) && (k'.beRd ==> f'.bRdata == f.mem[r.beRdAddr]) &&
            (forall a :: 0 <= a < |f.mem| ==>
               f'.mem[a] == if r.beWrReq && a == r.beWrAddr then r.beWrData
                            else if HostGnt(r) && r.hostWe && a == r.hostAddr then r.hostWdata
                            else f.mem[a])
  {}

  // A backend read of a row port A writes in the same cycle.
  predicate Collides(r: Requests) { Conflict(PortsOf(r, [0, 0, 0, 0], [0, 0, 0, 0])) }

  // Whenever the buffer says a response is valid, the tiled memory drives what the flat one would, unless a
  // backend read collided.
  lemma {:induction false} ValidResponsesMatch(t: Tiled, f: Flat, k: Trust, r: Requests, junk0: Word, junk1: Word)
    requires Refines(t, f, k) && InRange(r, |f.mem|)
    ensures var p := PortsOf(r, junk0, junk1);
            Refines(TiledNext(t, p), FlatNext(f, p), TrustNext(k, p)) &&
            (AcceptsNext(r).hostRd ==> TiledNext(t, p).ARdata() == f.mem[r.hostAddr]) &&
            (AcceptsNext(r).beRd && !Collides(r) ==> TiledNext(t, p).BRdata() == f.mem[r.beRdAddr])
  {
    StepRefines(t, f, k, PortsOf(r, junk0, junk1));
    GrantedIsAnswered(f, r, junk0, junk1);
  }

  class Buffer {
    const sram: FlatSram
    var hostRdAcceptR: bool
    var beRdAcceptR: bool

    constructor (sram: FlatSram)
      ensures this.sram == sram && !hostRdAcceptR && !beRdAcceptR
    {
      this.sram := sram;
      hostRdAcceptR, beRdAcceptR := false, false;
    }

    // One clock edge, with the responses that become visible after it.
    method Tick(r: Requests) returns (hostRvalid: bool, hostRdata: Byte, beRvalid: bool, beRdata: Byte)
      requires InRange(r, sram.mem.Length)
      modifies this, sram, sram.mem
      ensures hostRdAcceptR == hostRvalid && beRdAcceptR == beRvalid
      ensures hostRvalid <==> HostGnt(r) && !r.hostWe
      ensures beRvalid <==> r.beRdReq
      ensures hostRvalid ==> hostRdata == old(sram.State()).mem[r.hostAddr]
      ensures beRvalid ==> beRdata == old(sram.State()).mem[r.beRdAddr]
      ensures sram.State() == FlatNext(old(sram.State()), PortsOf(r, [0, 0, 0, 0], [0, 0, 0, 0]))
    {
      GrantedIsAnswered(sram.State(), r, [0, 0, 0, 0], [0, 0, 0, 0]);
      hostRdAcceptR := r.hostReq && !r.hostWe && !r.beWrReq;
      beRdAcceptR := r.beRdReq;
      sram.Tick(PortsOf(r, [0, 0, 0, 0], [0, 0, 0, 0]));
      hostRvalid, hostRdata := hostRdAcceptR, sram.aRdata;
      beRvalid, beRdata := beRdAcceptR, sram.bRdata;
    }
  }
}
