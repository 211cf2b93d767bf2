/** The system bus: requests wait in one queue, are carried out one per tick, and their responses
    wait until the source that sent the request asks for them. */
module Bus {

  import opened Memory
  import opened Options

  datatype OpcodeA = PutFullData | PutPartialData | ArithmeticData | LogicalData | Get | Intent
  datatype OpcodeD = AccessAck | AccessAckData | HintAck

  datatype Request = Request(opcode: OpcodeA, size: nat, source: nat, address: nat, mask: nat, data: nat)

  datatype Response = Response(opcode: OpcodeD, size: nat, source: nat, data: nat, error: bool)

  /** What the devices behind the router do with a request: `handled` is false exactly when no
      device owns the address. */
  datatype Routed<D> = Routed(device: D, handled: bool, data: nat, error: bool)

  /** Everything a request can read or change. */
  datatype World<D> = World(dram: Dram, device: D, tohost: nat)

  /** The fixed surroundings of the bus: the configured tohost word and the devices' behaviour. */
  datatype Setting<!D> = Setting(testHost: nat, route: (D, Request) -> Routed<D>)

  /** 1 << size, for the four legal sizes. */
  function TransferBytes(size: nat): (n: nat)
    requires size <= 3
    ensures n > 0 && Span(n) <= 0x1_0000_0000_0000_0000
  {
    assert Span(8) == 0x1_0000_0000_0000_0000 by { SpanBelow(7); }
    SpanBelow(1); SpanBelow(2); SpanBelow(4);
    if size == 0 then 1 else if size == 1 then 2 else if size == 2 then 4 else 8
  }

  /** The byte-lane mask a request without one gets. */
  function WithMask(req: Request): Request
    requires req.size <= 3
  {
    if req.mask == 0 then req.(mask := Span(TransferBytes(req.size)) - 1) else req
  }

  predicate IsTohost(testHost: nat, req: Request) {
    (req.size == 2 || req.size == 3)
    && (req.address == testHost || req.address == 0x8000_1000 || req.address == 0x4000_8000)
  }

  /** A request outside DRAM: the owning device answers, and there is an error without one. */
  function Forward<D>(cfg: Setting<D>, w: World<D>, req: Request, opcode: OpcodeD): (Response, World<D>)
    requires req.size <= 3
  {
    var out := cfg.route(w.device, WithMask(req));
    (Response(opcode, req.size, req.source, if out.handled then out.data else 0, out.error || !out.handled),
     if out.handled then w.(device := out.device) else w)
  }

  /** Carries out one request. */
  function Execute<D>(cfg: Setting<D>, w: World<D>, req: Request): (r: (Response, World<D>))
    ensures r.0.source == req.source
    ensures r.1.dram.base == w.dram.base && |r.1.dram.bytes| == |w.dram.bytes|
  {
    if req.size > 3 then (Response(AccessAckData, req.size, req.source, 0, true), w)
    else
      var n := TransferBytes(req.size);
      if req.opcode.Get? then
        if w.dram.Contains(req.address, n) then
          (Response(AccessAckData, req.size, req.source, Extend(w.dram.Get(req.address, n), n, true), false), w)
        else Forward(cfg, w, req, AccessAckData)
      else if req.opcode.PutFullData? || req.opcode.PutPartialData? then
        var w1 := if IsTohost(cfg.testHost, req) then w.(tohost := req.data) else w;
        if w1.dram.Contains(req.address, n) then
          (Response(AccessAck, req.size, req.source, 0, false),
           w1.(dram := w1.dram.Put(req.address, n, req.data)))
        else Forward(cfg, w1, req, AccessAck)
      else (Response(AccessAckData, req.size, req.source, 0, true), w)
  }

  // ---- the bus as a value ------------------------------------------------------------

  datatype BusState<D> = BusState(world: World<D>, reqs: seq<Request>, resps: seq<Response>)

  function Send<D>(s: BusState<D>, req: Request): BusState<D> {
    s.(reqs := s.reqs + [req])
  }

  function Tick<D>(cfg: Setting<D>, s: BusState<D>): BusState<D> {
    if s.reqs == [] then s
    else
      var (resp, w) := Execute(cfg, s.world, s.reqs[0]);
      BusState(w, s.reqs[1..], s.resps + [resp])
  }

  /** The position of the first waiting response of this source; |resps| when there is none. */
  function Find(resps: seq<Response>, source: nat): (i: nat)
    ensures i <= |resps|
    ensures forall k :: 0 <= k < i ==> resps[k].source != source
    ensures i < |resps| ==> resps[i].source == source
  {
    if resps == [] then 0
    else if resps[0].source == source then 0
    else 1 + Find(resps[1..], source)
  }

  function Without<T>(s: seq<T>, i: nat): seq<T>
    requires i < |s|
  {
    s[..i] + s[i + 1..]
  }

  /** Takes the first waiting response of the source, if any. */
  function Take<D>(s: BusState<D>, source: nat): (Option<Response>, BusState<D>) {
    var i := Find(s.resps, source);
    if i < |s.resps| then (Some(s.resps[i]), s.(resps := Without(s.resps, i))) else (None, s)
  }

  /** get_response: ticks only until a response of the source is there. */
  function Serve<D>(cfg: Setting<D>, s: BusState<D>, source: nat): (Option<Response>, BusState<D>)
    decreases |s.reqs|
  {
    var taken := Take(s, source);
    if taken.0.Some? || s.reqs == [] then taken else Serve(cfg, Tick(cfg, s), source)
  }

  // ---- refinement: the queue cannot be told from carrying out each request at once ------

  /** All waiting requests carried out. */
  function Settle<D>(cfg: Setting<D>, s: BusState<D>): (r: BusState<D>)
    ensures r.reqs == []
    decreases |s.reqs|
  {
    if s.reqs == [] then s else Settle(cfg, Tick(cfg, s))
  }

  lemma {:induction false} SettleSend<D>(cfg: Setting<D>, s: BusState<D>, req: Request)
    ensures Settle(cfg, Send(s, req)) == Tick(cfg, Send(Settle(cfg, s), req))
    decreases |s.reqs|
  {
    if s.reqs != [] {
      assert Tick(cfg, Send(s, req)) == Send(Tick(cfg, s), req);
      SettleSend(cfg, Tick(cfg, s), req);
    } else {
      assert Tick(cfg, Send(s, req)).reqs == [];
    }
  }

  lemma {:induction false} FindAppend(a: seq<Response>, b: seq<Response>, source: nat)
    ensures Find(a, source) < |a| ==> Find(a + b, source) == Find(a, source)
    ensures Find(a, source) == |a| ==> Find(a + b, source) == |a| + Find(b, source)
  {
    if a == [] {
      assert a + b == b;
    } else {
      assert (a + b)[1..] == a[1..] + b;
      FindAppend(a[1..], b, source);
    }
  }

  /** Taking a response that is already there commutes with carrying out the rest. */
  lemma {:induction false} TakeSettled<D>(cfg: Setting<D>, s: BusState<D>, source: nat)
    requires Take(s, source).0.Some?
    ensures Take(Settle(cfg, s), source).0 == Take(s, source).0
    ensures Take(Settle(cfg, s), source).1 == Settle(cfg, Take(s, source).1)
    decreases |s.reqs|
  {
    hide Execute;
    if s.reqs != [] {
      var t := Tick(cfg, s);
      var resp := Execute(cfg, s.world, s.reqs[0]).0;
      FindAppend(s.resps, [resp], source);
      var i := Find(s.resps, source);
      assert Without(s.resps + [resp], i) == Without(s.resps, i) + [resp];
      assert Take(t, source).1 == Tick(cfg, Take(s, source).1);
      TakeSettled(cfg, t, source);
    }
  }

  /** A receive on the queued bus returns what it returns when every request was carried out the
      moment it was sent, and leaves the two in step. */
  lemma {:induction false} ServeRefines<D>(cfg: Setting<D>, s: BusState<D>, source: nat)
    ensures Serve(cfg, s, source).0 == Take(Settle(cfg, s), source).0
    ensures Settle(cfg, Serve(cfg, s, source).1) == Take(Settle(cfg, s), source).1
    decreases |s.reqs|
  {
    hide Execute;
    var taken := Take(s, source);
    if taken.0.Some? {
      TakeSettled(cfg, s, source);
    } else if s.reqs != [] {
      ServeRefines(cfg, Tick(cfg, s), source);
    }
  }

  /** A receive fails exactly when the source has nothing outstanding, queued or answered. */
  lemma {:induction false} ServeFailsIff<D>(cfg: Setting<D>, s: BusState<D>, source: nat)
    ensures Serve(cfg, s, source).0.None?
            <==> (&& (forall i :: 0 <= i < |s.reqs| ==> s.reqs[i].source != source)
                  && (forall i :: 0 <= i < |s.resps| ==> s.resps[i].source != source))
    decreases |s.reqs|
  {
    if Find(s.resps, source) == |s.resps| && s.reqs != [] {
      var t := Tick(cfg, s);
      assert t.resps[|s.resps|].source == s.reqs[0].source;
      assert forall i :: 0 <= i < |s.resps| ==> t.resps[i] == s.resps[i];
      assert forall i :: 0 < i < |s.reqs| ==> s.reqs[i] == t.reqs[i - 1];
      ServeFailsIff(cfg, t, source);
    }
  }

  // ---- whole runs ------------------------------------------------------------------------

  datatype Event = Sent(req: Request) | Receive(source: nat)

  /** The outcome of every receive of a run, in order, and the bus it leaves. */
  function Run<D>(cfg: Setting<D>, s: BusState<D>, events: seq<Event>): (seq<Option<Response>>, BusState<D>)
    decreases |events|
  {
    if events == [] then ([], s)
    else match events[0]
      case Sent(req) => Run(cfg, Send(s, req), events[1..])
      case Receive(source) =>
        var (got, s1) := Serve(cfg, s, source);
        var (rest, s2) := Run(cfg, s1, events[1..]);
        ([got] + rest, s2)
  }

  /** The reference: each request is carried out when it is sent. */
  function RunAtOnce<D>(cfg: Setting<D>, s: BusState<D>, events: seq<Event>): (seq<Option<Response>>, BusState<D>)
    decreases |events|
  {
    if events == [] then ([], s)
    else match events[0]
      case Sent(req) => RunAtOnce(cfg, Tick(cfg, Send(s, req)), events[1..])
      case Receive(source) =>
        var (got, s1) := Take(s, source);
        var (rest, s2) := RunAtOnce(cfg, s1, events[1..]);
        ([got] + rest, s2)
  }

  /** For any interleaving of sends and receives, the queued bus answers like the reference. */
  lemma {:induction false} RunRefines<D>(cfg: Setting<D>, s: BusState<D>, events: seq<Event>)
    ensures Run(cfg, s, events).0 == RunAtOnce(cfg, Settle(cfg, s), events).0
    ensures Settle(cfg, Run(cfg, s, events).1) == RunAtOnce(cfg, Settle(cfg, s), events).1
    decreases |events|
  {
    hide Tick, Take, Serve, Settle;
    if events != [] {
      match events[0]
      case Sent(req) =>
        SettleSend(cfg, s, req);
        RunRefines(cfg, Send(s, req), events[1..]);
      case Receive(source) =>
        ServeRefines(cfg, s, source);
        RunRefines(cfg, Serve(cfg, s, source).1, events[1..]);
    }
  }

  /** The requests of a run, in send order. */
  function AllSent(events: seq<Event>): seq<Request> {
    if events == [] then []
    else if events[0].Sent? then [events[0].req] + AllSent(events[1..])
    else AllSent(events[1..])
  }

  /** One response per request: the requests carried out one after the other. */
  function Responses<D>(cfg: Setting<D>, w: World<D>, reqs: seq<Request>): (r: seq<Response>)
    ensures |r| == |reqs|
    ensures forall i :: 0 <= i < |r| ==> r[i].source == reqs[i].source
    decreases |reqs|
  {
    if reqs == [] then []
    else
      var (resp, w1) := Execute(cfg, w, reqs[0]);
      [resp] + Responses(cfg, w1, reqs[1..])
  }

  function After<D>(cfg: Setting<D>, w: World<D>, reqs: seq<Request>): World<D>
    decreases |reqs|
  {
    if reqs == [] then w else After(cfg, Execute(cfg, w, reqs[0]).1, reqs[1..])
  }

  /** The responses that belong to one source, in order. */
  function Of(resps: seq<Response>, source: nat): seq<Response> {
    if resps == [] then []
    else if resps[0].source == source then [resps[0]] + Of(resps[1..], source)
    else Of(resps[1..], source)
  }

  /** What the receives of one source got in a run, failures left out. */
  function Received(events: seq<Event>, outcomes: seq<Option<Response>>, source: nat): seq<Response>
    decreases |events|
  {
    if events == [] || (events[0].Receive? && outcomes == []) then []
    else if events[0].Sent? then Received(events[1..], outcomes, source)
    else if events[0].source == source && outcomes[0].Some? then
      [outcomes[0].value] + Received(events[1..], outcomes[1..], source)
    else Received(events[1..], outcomes[1..], source)
  }

  lemma {:induction false} OfAppend(a: seq<Response>, b: seq<Response>, source: nat)
    ensures Of(a + b, source) == Of(a, source) + Of(b, source)
  {
    if a == [] {
      assert a + b == b;
    } else {
      assert (a + b)[1..] == a[1..] + b;
      OfAppend(a[1..], b, source);
    }
  }

  /** Removing the first response of one source: it heads that source's list, other lists stay. */
  lemma {:induction false} OfWithoutFirst(resps: seq<Response>, taker: nat, source: nat)
    requires Find(resps, taker) < |resps|
    ensures var i := Find(resps, taker);
            if taker == source then Of(resps, source) == [resps[i]] + Of(Without(resps, i), source)
            else Of(resps, source) == Of(Without(resps, i), source)
  {
    var i := Find(resps, taker);
    if i == 0 {
      assert Without(resps, 0) == resps[1..];
    } else {
      OfWithoutFirst(resps[1..], taker, source);
      var rest := Without(resps, i);
      assert rest[0] == resps[0] && rest[1..] == Without(resps[1..], i - 1);
    }
  }

  lemma {:induction false} OfNone(resps: seq<Response>, source: nat)
    ensures Of(resps, source) == [] <==> Find(resps, source) == |resps|
    ensures Of(resps, source) != [] ==> Of(resps, source)[0] == resps[Find(resps, source)]
  {
    if resps != [] {
      OfNone(resps[1..], source);
    }
  }

  /** In the reference, what a source received and what still waits for it are exactly the
      responses to its requests, in its own send order, and memory is what executing all
      requests in send order leaves. */
  lemma {:induction false} AtOnceHistory<D>(cfg: Setting<D>, s: BusState<D>, events: seq<Event>, source: nat)
    requires s.reqs == []
    ensures var (outs, s') := RunAtOnce(cfg, s, events);
            && s'.reqs == [] && s'.world == After(cfg, s.world, AllSent(events))
            && Received(events, outs, source) + Of(s'.resps, source)
               == Of(s.resps, source) + Of(Responses(cfg, s.world, AllSent(events)), source)
    decreases |events|
  {
    hide Execute;
    if events != [] {
      var rest := events[1..];
      match events[0]
      case Sent(req) =>
        var t := Tick(cfg, Send(s, req));
        var (resp, w1) := Execute(cfg, s.world, req);
        assert t == BusState(w1, [], s.resps + [resp]);
        AtOnceHistory(cfg, t, rest, source);
        OfAppend(s.resps, [resp], source);
        SentHistory(cfg, s.world, events, source);
        assert RunAtOnce(cfg, s, events) == RunAtOnce(cfg, t, rest);
      case Receive(taker) =>
        var (got, s1) := Take(s, taker);
        AtOnceHistory(cfg, s1, rest, source);
        assert AllSent(events) == AllSent(rest);
        TakeOf(s, taker, source);
        var (outs, s') := RunAtOnce(cfg, s1, rest);
        assert RunAtOnce(cfg, s, events) == ([got] + outs, s');
        assert ([got] + outs)[1..] == outs;
        var head := if got.Some? && taker == source then [got.value] else [];
        assert Received(events, [got] + outs, source) == head + Received(rest, outs, source);
        SamePrefix(head, Received(rest, outs, source), Of(s'.resps, source), Of(s1.resps, source),
                   Of(Responses(cfg, s.world, AllSent(events)), source));
    }
  }

  lemma SamePrefix<T>(x: seq<T>, a: seq<T>, b: seq<T>, c: seq<T>, d: seq<T>)
    requires a + b == c + d
    ensures (x + a) + b == (x + c) + d
  {
    assert (x + a) + b == x + (a + b) && (x + c) + d == x + (c + d);
  }

  /** A receive moves at most the head of its own source's list. */
  lemma TakeOf<D>(s: BusState<D>, taker: nat, source: nat)
    ensures var (got, s1) := Take(s, taker);
            && s1.world == s.world && s1.reqs == s.reqs
            && Of(s.resps, source)
               == (if got.Some? && taker == source then [got.value] else []) + Of(s1.resps, source)
  {
    if Find(s.resps, taker) < |s.resps| {
      OfWithoutFirst(s.resps, taker, source);
    }
  }

  lemma SentHistory<D>(cfg: Setting<D>, w: World<D>, events: seq<Event>, source: nat)
    requires events != [] && events[0].Sent?
    ensures var (resp, w1) := Execute(cfg, w, events[0].req);
            && After(cfg, w, AllSent(events)) == After(cfg, w1, AllSent(events[1..]))
            && Of(Responses(cfg, w, AllSent(events)), source)
               == Of([resp], source) + Of(Responses(cfg, w1, AllSent(events[1..])), source)
  {
    hide Execute;
    var (resp, w1) := Execute(cfg, w, events[0].req);
    var more := AllSent(events[1..]);
    assert AllSent(events)[0] == events[0].req && AllSent(events)[1..] == more;
    OfAppend([resp], Responses(cfg, w1, more), source);
  }

  /** The bus law, for any interleaving of sends and receives of any sources on an idle bus: each
      source receives the answers to its own requests in its own send order, every request has
      one answer, which is received or still to come, and answers and memory are those of
      executing all requests in send order. */
  lemma BusIsSequential<D>(cfg: Setting<D>, w: World<D>, events: seq<Event>, source: nat)
    ensures var (outs, s') := Run(cfg, BusState(w, [], []), events);
            && Settle(cfg, s').world == After(cfg, w, AllSent(events))
            && Received(events, outs, source) + Of(Settle(cfg, s').resps, source)
               == Of(Responses(cfg, w, AllSent(events)), source)
  {
    hide Execute, Tick, Serve, RunAtOnce, Run;
    var s := BusState(w, [], []);
    RunRefines(cfg, s, events);
    AtOnceHistory(cfg, s, events, source);
    assert Settle(cfg, s) == s;
    assert Of([], source) == [];
  }

  /** The next receive of a source, after any run: it fails exactly when the source has had the
      answers to all its requests, and otherwise it gets the answer to the oldest one left. */
  lemma NextReceive<D>(cfg: Setting<D>, w: World<D>, events: seq<Event>, source: nat)
    ensures var (outs, s') := Run(cfg, BusState(w, [], []), events);
            var all := Of(Responses(cfg, w, AllSent(events)), source);
            var had := Received(events, outs, source);
            var got := Serve(cfg, s', source).0;
            && (got.None? <==> had == all)
            && (got.Some? ==> |had| < |all| && had == all[..|had|] && got.value == all[|had|])
  {
    hide Execute, Tick, Serve, RunAtOnce, Run, Settle, Responses, Received;
    BusIsSequential(cfg, w, events, source);
    var (outs, s') := Run(cfg, BusState(w, [], []), events);
    ServeRefines(cfg, s', source);
    OfNone(Settle(cfg, s').resps, source);
  }

  /** A word written over the bus reads back over the bus, sign-extended from its size. */
  lemma GetAfterPut<D>(cfg: Setting<D>, w: World<D>, put: Request, get: Request)
    requires put.opcode.PutFullData? && get.opcode.Get?
    requires put.size == get.size <= 3 && put.address == get.address
    requires w.dram.Contains(put.address, TransferBytes(put.size))
    ensures var n := TransferBytes(put.size);
            var back := Responses(cfg, w, [put, get])[1];
            !back.error && back.data == Extend(put.data % Span(n), n, true)
  {
    var n := TransferBytes(put.size);
    LoadAfterStore(w.dram.bytes, put.address - w.dram.base, n, put.data);
    var w1 := Execute(cfg, w, put).1;
    assert [put, get][1..] == [get];
    assert Responses(cfg, w, [put, get])[1] == Execute(cfg, w1, get).0;
  }

  /** One request on an idle bus: the answer is the request's own and the bus is idle again. */
  lemma RoundTrip<D>(cfg: Setting<D>, w: World<D>, req: Request)
    ensures Serve(cfg, Send(BusState(w, [], []), req), req.source)
            == (Some(Execute(cfg, w, req).0), BusState(Execute(cfg, w, req).1, [], []))
  {
    hide Execute;
    var s := Send(BusState(w, [], []), req);
    var (resp, w1) := Execute(cfg, w, req);
    var t := Tick(cfg, s);
    assert t == BusState(w1, [], [resp]);
    assert Find([resp], req.source) == 0;
    assert Without([resp], 0) == [];
    assert Serve(cfg, t, req.source) == Take(t, req.source);
  }

  // ---- the bus object --------------------------------------------------------------------

  class TileLinkBus<D> {
    const cfg: Setting<D>
    const mmem: array<Byte>
    const dramBase: nat
    var device: D
    var tohost: nat
    var reqQueue: seq<Request>
    var respQueue: seq<Response>

    ghost function State(): (s: BusState<D>)
      reads this, mmem
      ensures s.world.dram.base == dramBase && |s.world.dram.bytes| == mmem.Length
    {
      BusState(World(Dram(dramBase, mmem[..]), device, tohost), reqQueue, respQueue)
    }

    constructor (cfg: Setting<D>, mmem: array<Byte>, dramBase: nat, device: D)
      ensures this.cfg == cfg && this.mmem == mmem && this.dramBase == dramBase
      ensures State() == BusState(World(Dram(dramBase, mmem[..]), device, 0), [], [])
    {
      this.cfg := cfg;
      this.mmem := mmem;
      this.dramBase := dramBase;
      this.device := device;
      tohost := 0;
      reqQueue := [];
      respQueue := [];
    }

    method SendRequest(req: Request) returns (ok: bool)
      modifies this
      ensures ok && State() == Send(old(State()), req)
    {
      reqQueue := reqQueue + [req];
      ok := true;
    }

    predicate InDram(address: nat, size: nat) {
      size != 0 && size <= mmem.Length && dramBase <= address && address - dramBase <= mmem.Length - size
    }

    /** Carries out the oldest waiting request. */
    method TickOnce()
      modifies this, mmem
      ensures State() == Tick(cfg, old(State()))
    {
      if reqQueue != [] {
        ghost var s := State();
        var req := reqQueue[0];
        reqQueue := reqQueue[1..];
        var opcode, data, error, handled := AccessAckData, 0, false, false;
        if req.size > 3 {
          error, handled := true, true;
        } else {
          var n := TransferBytes(req.size);
          match req.opcode {
            case Get =>
              if InDram(req.address, n) {
                data, handled := Extend(Load(mmem[..], req.address - dramBase, n), n, true), true;
              }
            case PutFullData | PutPartialData =>
              opcode := AccessAck;
              if IsTohost(cfg.testHost, req) {
                tohost := req.data;
              }
              if InDram(req.address, n) {
                StoreInto(mmem, req.address - dramBase, n, req.data);
                handled := true;
              }
            case ArithmeticData | LogicalData | Intent =>
              error, handled := true, true;
          }
          if !handled {
            var out := cfg.route(device, WithMask(req));
            error := out.error || !out.handled;
            if out.handled {
              device, data := out.device, out.data;
            }
          }
        }
        respQueue := respQueue + [Response(opcode, req.size, req.source, data, error)];
        assert State().world == Execute(cfg, s.world, req).1;
      }
    }

    /** Scans the response queue for the first answer to this source. */
    method FindResponse(source: nat) returns (i: nat)
      ensures i == Find(respQueue, source)
    {
      i := 0;
      while i < |respQueue| && respQueue[i].source != source
        invariant i <= |respQueue|
        invariant forall k :: 0 <= k < i ==> respQueue[k].source != source
      {
        i := i + 1;
      }
      var j := Find(respQueue, source);
    }

    method GetResponse(source: nat) returns (got: Option<Response>)
      modifies this, mmem
      ensures (got, State()) == Serve(cfg, old(State()), source)
    {
      got := None;
      while true
        invariant got == None
        invariant Serve(cfg, State(), source) == Serve(cfg, old(State()), source)
        decreases |reqQueue|
      {
        var i := FindResponse(source);
        if i < |respQueue| {
          got := Some(respQueue[i]);
          respQueue := respQueue[..i] + respQueue[i + 1..];
          return;
        }
        if reqQueue == [] {
          return;
        }
        TickOnce();
      }
    }

    /** Any interleaving of sends and receives on this object. */
    method Play(events: seq<Event>) returns (outs: seq<Option<Response>>)
      modifies this, mmem
      ensures (outs, State()) == Run(cfg, old(State()), events)
    {
      outs := [];
      ghost var s0 := State();
      for k := 0 to |events|
        invariant Run(cfg, s0, events).0 == outs + Run(cfg, State(), events[k..]).0
        invariant Run(cfg, s0, events).1 == Run(cfg, State(), events[k..]).1
      {
        assert events[k..][0] == events[k] && events[k..][1..] == events[k + 1..];
        match events[k]
        case Sent(req) =>
          var _ := SendRequest(req);
        case Receive(source) =>
          var got := GetResponse(source);
          outs := outs + [got];
      }
      assert Run(cfg, State(), events[|events|..]) == ([], State());
      assert outs + [] == outs;
    }
  }
}
