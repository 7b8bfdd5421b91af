/** The memory side of the cache's port: its contract, and the responder that
    meets it (sim/cache/l1d/cache_model.h). */
module MemPort {
  import opened Bytes
  import opened ByteMemory
  import opened Mshrs

  /** Memory's side of the port: a writeback lands at once, a fill is read at
      once and answered later, one at a time. */
  datatype Port = Port(mem: Mem, pend: bool, pendData: seq<byte>)

  predicate ReqShape(r: MemReq) {
    r.WriteBack? ==> |r.data| == LINE
  }

  /** One cycle of the contract: the request is taken when memory is ready, the
      outstanding read is over when it is answered. */
  function PortStep(p: Port, r: MemReq, fire: bool, resp: bool): Port
    requires ReqShape(r)
  {
    if fire && r.WriteBack? then p.(mem := WriteLine(p.mem, r.line, r.data), pend := p.pend && !resp)
    else if fire && r.Fill? then p.(pend := true, pendData := ReadLine(p.mem, r.line))
    else p.(pend := p.pend && !resp)
  }

  class MemResponder {
    const backing: ByteMem
    var pending: bool
    var countdown: nat
    var pendingLine: seq<byte>
    var writebacksSeen: nat

    function View(): Port
      reads this, backing
    {
      Port(backing.bytes, pending, pendingLine)
    }

    predicate Valid()
      reads this
    {
      pending ==> countdown > 0
    }

    constructor (b: ByteMem)
      ensures backing == b && !pending && writebacksSeen == 0 && Valid()
    {
      backing := b;
      pending, countdown, pendingLine, writebacksSeen := false, 0, [], 0;
    }

    /** One cycle; `latency` is the random delay a fill draws when it starts. A
        request is taken exactly when no read was outstanding. */
    method Step(req: MemReq, latency: nat) returns (resp: bool, line: seq<byte>)
      requires Valid() && ReqShape(req) && latency > 0
      modifies this, backing
      ensures Valid() && View() == PortStep(old(View()), req, !old(pending), resp)
      ensures resp ==> line == old(pendingLine)
      ensures resp == (old(pending) && old(countdown) == 1)
      ensures old(pending) && !resp ==> countdown == old(countdown) - 1
      ensures !old(pending) && pending ==> countdown == latency
      ensures writebacksSeen == old(writebacksSeen) + if req.WriteBack? && !old(pending) then 1 else 0
    {
      resp, line := false, [];
      if pending {
        countdown := countdown - 1;
        if countdown == 0 {
          pending := false;
          return true, pendingLine;
        }
      }
      if !req.NoReq? && !pending {
        if req.WriteBack? {
          backing.WriteLineBytes(req.line, req.data);
          writebacksSeen := writebacksSeen + 1;
        } else {
          pending, countdown := true, latency;
          pendingLine := backing.ReadLineBytes(req.line);
        }
      }
    }
  }
}
