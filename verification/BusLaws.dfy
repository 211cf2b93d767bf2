/** What one request on the system bus does, by its opcode, size and address. */
module BusLaws {

  import opened Memory
  import opened Bus
  import FlatMemoryLaws

  /** Bytes of a transfer. */
  function Width(size: nat): nat
    requires size <= 3
  {
    match size case 0 => 1 case 1 => 2 case 2 => 4 case _ => 8
  }

  /** A read of DRAM answers with the word, as a 64-bit integer in two's complement, and changes nothing. */
  lemma GetFromDram<D>(cfg: Setting<D>, w: World<D>, req: Request)
    requires req.opcode.Get? && req.size <= 3 && w.dram.Contains(req.address, Width(req.size))
    ensures var (r, w1) := Execute(cfg, w, req);
            var word := w.dram.Get(req.address, Width(req.size));
            && r.opcode == AccessAckData && r.size == req.size && r.source == req.source && !r.error && w1 == w
            && match req.size
               case 0 => FlatMemoryLaws.Integer(r.data, 0x8000_0000_0000_0000) == FlatMemoryLaws.Integer(word, 0x80)
               case 1 => FlatMemoryLaws.Integer(r.data, 0x8000_0000_0000_0000) == FlatMemoryLaws.Integer(word, 0x8000)
               case 2 =>
                 FlatMemoryLaws.Integer(r.data, 0x8000_0000_0000_0000) == FlatMemoryLaws.Integer(word, 0x8000_0000)
               case _ => r.data == word
  {
    hide Load, Span;
    FlatMemoryLaws.Spans();
  }

  /** A write of DRAM stores the low bytes of the data and acknowledges. A write of 4 or 8 bytes at the test
      host's address or at one of the two fixed ones also reaches the tohost register; no other does. */
  lemma PutToDram<D>(cfg: Setting<D>, w: World<D>, req: Request)
    requires (req.opcode.PutFullData? || req.opcode.PutPartialData?) && req.size <= 3
    requires w.dram.Contains(req.address, Width(req.size))
    ensures var (r, w1) := Execute(cfg, w, req);
            && r == Response(AccessAck, req.size, req.source, 0, false)
            && w1.dram == w.dram.Put(req.address, Width(req.size), req.data) && w1.device == w.device
            && w1.tohost == if req.size >= 2 && req.address in {cfg.testHost, 0x8000_1000, 0x4000_8000} then req.data
                            else w.tohost
  {
    hide Store, Span;
  }

  /** A request that is neither read nor write, or longer than 8 bytes, is an error and does nothing. */
  lemma Refused<D>(cfg: Setting<D>, w: World<D>, req: Request)
    requires req.size > 3 || req.opcode in {ArithmeticData, LogicalData, Intent}
    ensures Execute(cfg, w, req) == (Response(AccessAckData, req.size, req.source, 0, true), w)
  {
  }

  /** A read or write that does not lie in DRAM goes to the device that owns the address, with a mask of all its
      bytes if it came without one. The device's data and error are the answer; without a device the
      answer is an error with data 0, and no device changes. */
  lemma OutsideDram<D>(cfg: Setting<D>, w: World<D>, req: Request)
    requires req.opcode in {Get, PutFullData, PutPartialData} && req.size <= 3
    requires !w.dram.Contains(req.address, Width(req.size))
    ensures var all := match req.size
                       case 0 => 0xFF case 1 => 0xFFFF case 2 => 0xFFFF_FFFF case _ => 0xFFFF_FFFF_FFFF_FFFF;
            var out := cfg.route(w.device, req.(mask := if req.mask == 0 then all else req.mask));
            var (r, w1) := Execute(cfg, w, req);
            && r.opcode == (if req.opcode.Get? then AccessAckData else AccessAck)
            && r.size == req.size && r.source == req.source
            && (out.handled ==> r.data == out.data && r.error == out.error && w1.device == out.device)
            && (!out.handled ==> r.data == 0 && r.error && w1.device == w.device)
            && w1.dram == w.dram
            && var host := !req.opcode.Get? && req.size >= 2 && req.address in {cfg.testHost, 0x8000_1000, 0x4000_8000};
               w1.tohost == if host then req.data else w.tohost
  {
    hide Store, Load, Span;
    FlatMemoryLaws.Spans();
  }
}
