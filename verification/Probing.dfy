/** The responder's life as it is driven by packets: what it hears while probing picks
    the event of the lifecycle (lib/mdnspp/include/mdnspp/basic_service_server.h). */
module PacketRuns {
  import opened Bytes
  import opened Names
  import opened Records
  import opened Frame
  import opened Tiebreak
  import opened ResponderModel
  import ServiceServers

  /** A server with the service it announces, which an update replaces, and the id of its
      current probes. */
  datatype Prober = Prober(server: Server, info: ServiceInfo, probeId: u16)

  /** What happens to a server. Whenever probing starts over a new probe id is drawn:
      `draw`. A conflict asks the user for a new name: `newName`. */
  datatype Input =
    | Started(ready: bool, done: bool, draw: u16)
    | TimerRan(draw: u16)
    | Heard(data: seq<byte>, newName: Option<Name>, draw: u16)
    | InfoReplaced(info: ServiceInfo)
    | ReplyArmed
    | StopCalled
    | TornDown

  /** The service under the name it is currently probing for. */
  function Named(info: ServiceInfo, name: Name): ServiceInfo { info.(serviceName := name) }

  function Current(p: Prober): ServiceInfo { Named(p.info, p.server.name) }

  /** on_packet: only a probing server that is not stopped judges what it hears; packets
      never matter to the lifecycle otherwise. */
  function Reaction(p: Prober, data: seq<byte>, newName: Option<Name>): seq<Event> {
    if p.server.stopped || p.server.phase != Probing then []
    else
      match Judge(Current(p), p.probeId, data)
      case Ignore => []
      case NameConflict => [ConflictEvent(newName)]
      case Defer => [TiebreakEvent]
  }

  function EventsOf(p: Prober, input: Input): seq<Event> {
    match input
    case Started(ready, done, _) => [Start(ready, done)]
    case TimerRan(_) => [TimerEvent]
    case Heard(data, newName, _) => Reaction(p, data, newName)
    case InfoReplaced(info) => [UpdateEvent(info.serviceName)]
    case ReplyArmed => [ReplyEvent]
    case StopCalled => [StopEvent]
    case TornDown => [TeardownEvent]
  }

  function DrawOf(input: Input, id: u16): u16 {
    if input.Started? || input.TimerRan? || input.Heard? then input.draw else id
  }

  /** Probing has just begun: start_probing ran last. */
  predicate JustBegan(before: Server, after: Server) {
    |after.out| > |before.out| && after.out[|after.out| - 1].Began?
  }

  function StepOn(p: Prober, input: Input, opts: Options): Prober {
    var s' := Continue(p.server, EventsOf(p, input), opts);
    Prober(s', if input.InfoReplaced? && !p.server.stopped then input.info else p.info,
           if JustBegan(p.server, s') then DrawOf(input, p.probeId) else p.probeId)
  }

  function RunOn(info: ServiceInfo, inputs: seq<Input>, opts: Options): Prober {
    if inputs == [] then Prober(Created(info.serviceName), info, 0)
    else StepOn(RunOn(info, inputs[..|inputs| - 1], opts), inputs[|inputs| - 1], opts)
  }

  /** A new probe id is drawn exactly when an attempt begins: at the start, after a deferral,
      and under a new name. Data are replaced as long as the server is not stopped. */
  lemma IdIsRedrawn(p: Prober, input: Input, opts: Options)
    ensures var p' := StepOn(p, input, opts);
            match input
            case Started(_, _, draw) =>
              p'.info == p.info && p'.probeId == if p.server.phase == Idle then draw else p.probeId
            case TimerRan(draw) =>
              var again := p.server.timer == Some(Reprobe) && !p.server.stopped;
              p'.info == p.info && p'.probeId == if again then draw else p.probeId
            case Heard(data, newName, draw) =>
              var renamed := p.server.phase == Probing && !p.server.stopped && newName.Some?
                             && Judge(Current(p), p.probeId, data) == NameConflict;
              p'.info == p.info && p'.probeId == if renamed then draw else p.probeId
            case InfoReplaced(info) => p'.info == (if p.server.stopped then p.info else info) && p'.probeId == p.probeId
            case ReplyArmed => p'.info == p.info && p'.probeId == p.probeId
            case StopCalled => p'.info == p.info && p'.probeId == p.probeId
            case TornDown => p'.info == p.info && p'.probeId == p.probeId
  {
    hide Judge, Step, Continue, JustBegan;
    var es := EventsOf(p, input);
    AtMostOne(p.server, es, opts);
    Unbegun(p.server, p.server);
    if es != [] {
      BeginsIsExact(p.server, es[0], opts);
    }
  }

  lemma AtMostOne(s: Server, es: seq<Event>, opts: Options)
    requires |es| <= 1
    ensures Continue(s, es, opts) == if es == [] then s else Step(s, es[0], opts)
  {
    hide Step;
    assert es != [] ==> es[..|es| - 1] == [];
  }

  lemma BeginsIsExact(s: Server, e: Event, opts: Options)
    ensures JustBegan(s, Step(s, e, opts)) <==>
            || (e.Start? && s.phase == Idle)
            || (e.TimerEvent? && s.timer == Some(Reprobe) && !s.stopped)
            || (e.ConflictEvent? && s.phase == Probing && !s.stopped && e.newName.Some?)
  {
    hide TimerFires, Update, Stop, Teardown, JustBegan;
    Unbegun(s, s);
    TimerBegins(s, opts);
    OthersDoNotBegin(s, opts);
    if e.Start? {
      StartBegins(s, s.(onReady := e.ready, onDone := e.done));
    } else if e.ConflictEvent? {
      ConflictBegins(s, e.newName);
    } else if e.UpdateEvent? {
      UpdateDoesNotBegin(s, e.name, opts);
    }
  }

  lemma StartBegins(s: Server, s1: Server)
    requires s1.out == s.out
    ensures JustBegan(s, StartProbing(s1))
  {
  }

  lemma ConflictBegins(s: Server, newName: Option<Name>)
    ensures JustBegan(s, OnNameConflict(s, newName)) <==> s.phase == Probing && !s.stopped && newName.Some?
  {
  }

  lemma TimerBegins(s: Server, opts: Options)
    ensures JustBegan(s, TimerFires(s, opts)) <==> s.timer == Some(Reprobe) && !s.stopped
  {
    hide SendProbe, SendAnnounce, SendUpdate, StartProbing, JustBegan;
    var s1 := s.(timer := None);
    Unbegun(s, s);
    Unbegun(s, s1);
    StartBegins(s, s1);
    SendsDoNotBegin(s, s1, opts);
    SendsDoNotBegin(s, s1.(phase := Announcing, announces := 0), opts);
  }

  lemma Unbegun(s: Server, s1: Server)
    requires s1.out == s.out
    ensures !JustBegan(s, s1)
  {
  }

  lemma SendsDoNotBegin(s: Server, s1: Server, opts: Options)
    requires s1.out == s.out
    ensures !JustBegan(s, SendProbe(s1, opts)) && !JustBegan(s, SendAnnounce(s1, opts))
    ensures !JustBegan(s, SendUpdate(s1, opts))
  {
  }

  lemma UpdateDoesNotBegin(s: Server, name: Name, opts: Options)
    ensures !JustBegan(s, Update(s, name, opts))
  {
  }

  lemma OthersDoNotBegin(s: Server, opts: Options)
    ensures !JustBegan(s, Stop(s, opts)) && !JustBegan(s, Teardown(s))
    ensures !JustBegan(s, OnTiebreakLost(s)) && !JustBegan(s, TakeTimer(s))
  {
  }

  // ---------------------------------------------------------------- refinement

  lemma {:induction false} RunContinues(name: Name, es: seq<Event>, more: seq<Event>, opts: Options)
    ensures Run(name, es + more, opts) == Continue(Run(name, es, opts), more, opts)
  {
    hide Step;
    if more == [] {
      assert es + more == es;
    } else {
      RunContinues(name, es, more[..|more| - 1], opts);
      assert (es + more)[..|es + more| - 1] == es + more[..|more| - 1];
    }
  }

  /** Whatever packets arrive, the server goes through a run of the lifecycle. */
  lemma {:induction false} PacketsDriveRuns(info: ServiceInfo, inputs: seq<Input>, opts: Options)
    returns (es: seq<Event>)
    ensures RunOn(info, inputs, opts).server == Run(info.serviceName, es, opts)
  {
    hide Step, Judge;
    es := [];
    if inputs != [] {
      var k := |inputs| - 1;
      var first := PacketsDriveRuns(info, inputs[..k], opts);
      var more := EventsOf(RunOn(info, inputs[..k], opts), inputs[k]);
      RunContinues(info.serviceName, first, more, opts);
      es := first + more;
    }
  }

  /** So the promises of the lifecycle hold whatever anybody sends. */
  lemma PacketLifecycle(info: ServiceInfo, inputs: seq<Input>, opts: Options)
    ensures var s := RunOn(info, inputs, opts).server;
            && Orderly(s.out, AtLeastOne(opts.probeCount))
            && (s.phase == Announcing ==> AnyAnnounced(s.out) && WentLive !in s.out)
            && (s.phase == Live ==> WentLive in s.out)
            && forall l :: 0 <= l < |s.out| && s.out[l] == WentLive ==>
                 TailCount(s.out[..l]) == AtLeastOne(opts.announceCount)
  {
    hide Run, RunOn, Orderly, TailCount, AnyAnnounced;
    var es := PacketsDriveRuns(info, inputs, opts);
    Lifecycle(info.serviceName, es, opts);
  }

  // ---------------------------------------------------------------- two servers

  predicate Probes(p: Prober) { p.server.phase == Probing && !p.server.stopped }

  /** Two servers, each after any run of its own, probe for one name under different ids,
      and each hears the other's probe. Exactly one of them yields and starts over later,
      while the other goes on as if nothing had happened, if and only if their SRV data
      differ; it is the one whose data come first. If they are the same, both yield. */
  lemma ExactlyOneYields(a: ServiceInfo, runA: seq<Input>, optsA: Options, ttlA: u32, newA: Option<Name>, drawA: u16,
                         b: ServiceInfo, runB: seq<Input>, optsB: Options, ttlB: u32, newB: Option<Name>, drawB: u16)
    requires var pa, pb := RunOn(a, runA, optsA), RunOn(b, runB, optsB);
             && Probes(pa) && Probes(pb) && pa.server.name == pb.server.name && pa.probeId != pb.probeId
             && WireName(pa.server.name) && WireName(pa.info.hostname) && WireName(pb.info.hostname)
    ensures var pa, pb := RunOn(a, runA, optsA), RunOn(b, runB, optsB);
            var probeA, probeB := Probe(Current(pa), pa.probeId, ttlA), Probe(Current(pb), pb.probeId, ttlB);
            var pa' := RunOn(a, runA + [Heard(probeB, newA, drawA)], optsA);
            var pb' := RunOn(b, runB + [Heard(probeA, newB, drawB)], optsB);
            && (pa' == pa || Yields(pa, pa')) && (pb' == pb || Yields(pb, pb'))
            && ((Yields(pa, pa') && pb' == pb) || (pa' == pa && Yields(pb, pb')) <==> !SameSrv(pa.info, pb.info))
            && (SameSrv(pa.info, pb.info) ==> Yields(pa, pa') && Yields(pb, pb'))
            && (Yields(pa, pa') <==>
                  SameSrv(pa.info, pb.info) || exists k :: Precedes(SrvBytes(pa.info), SrvBytes(pb.info), k))
            && (Yields(pb, pb') <==>
                  SameSrv(pa.info, pb.info) || exists k :: Precedes(SrvBytes(pb.info), SrvBytes(pa.info), k))
  {
    hide RunOn, Judge, Probe, WireName, SrvBytes, Precedes;
    var pa, pb := RunOn(a, runA, optsA), RunOn(b, runB, optsB);
    EarlierDefers(Current(pa), Current(pb), pa.probeId, pb.probeId, ttlB);
    EarlierDefers(Current(pb), Current(pa), pb.probeId, pa.probeId, ttlA);
    SameBytes(pa.info, pb.info);
    assert SrvBytes(Current(pa)) == SrvBytes(pa.info) by { RenamedBytes(pa.info, pa.server.name); }
    assert SrvBytes(Current(pb)) == SrvBytes(pb.info) by { RenamedBytes(pb.info, pb.server.name); }
    ExactlyOneDefers(Current(pa), Current(pb), pa.probeId, pb.probeId, ttlA, ttlB);
    OneMoreHeard(a, runA, Probe(Current(pb), pb.probeId, ttlB), newA, drawA, optsA);
    OneMoreHeard(b, runB, Probe(Current(pa), pa.probeId, ttlA), newB, drawB, optsB);
  }

  lemma RenamedBytes(info: ServiceInfo, name: Name)
    ensures SrvBytes(Named(info, name)) == SrvBytes(info)
  {
  }

  lemma SameBytes(a: ServiceInfo, b: ServiceInfo)
    requires WireName(a.hostname) && WireName(b.hostname)
    ensures SrvBytes(a) == SrvBytes(b) <==> SameSrv(a, b)
  {
    hide WireName, SrvBytes, SrvRdata;
    SrvBytesAre(a);
    SrvBytesAre(b);
    if SrvBytes(a) == SrvBytes(b) {
      RdataIsInjective(a, b);
    }
  }

  predicate SameSrv(a: ServiceInfo, b: ServiceInfo) {
    a.priority == b.priority && a.weight == b.weight && a.port == b.port && a.hostname == b.hostname
  }

  /** The server gives way: it says so, forgets its probes and will begin again. */
  predicate Yields(p: Prober, p': Prober) {
    && p'.server.out == p.server.out + [Yielded] && p'.server.probes == 0
    && p'.server.timer == Some(Reprobe) && p'.server.name == p.server.name
    && p'.info == p.info && p'.probeId == p.probeId
  }

  lemma OneMoreHeard(info: ServiceInfo, inputs: seq<Input>, data: seq<byte>, newName: Option<Name>, draw: u16,
                     opts: Options)
    requires Probes(RunOn(info, inputs, opts))
    ensures var p := RunOn(info, inputs, opts);
            var p' := RunOn(info, inputs + [Heard(data, newName, draw)], opts);
            var v := Judge(Current(p), p.probeId, data);
            && (v == Ignore ==> p' == p)
            && (v == Defer ==> Yields(p, p'))
  {
    hide Judge;
    var more := inputs + [Heard(data, newName, draw)];
    assert more[..|inputs|] == inputs;
    var p := RunOn(info, inputs, opts);
    assert [TiebreakEvent][..0] == [];
    assert Continue(p.server, [TiebreakEvent], opts) == Step(Continue(p.server, [], opts), TiebreakEvent, opts);
  }

  // ---------------------------------------------------------------- the object

  /** on_packet, as far as the lifecycle is concerned. */
  method OnPacket(server: ServiceServers.ServiceServer, info: ServiceInfo, probeId: u16, data: seq<byte>,
                  newName: Option<Name>)
    requires server.Valid()
    modifies server
    ensures server.Valid()
    ensures var s := old(server.Abs());
            server.Abs() == Continue(s, Reaction(Prober(s, info, probeId), data, newName), server.opts)
  {
    hide Judge, Inv, Step;
    ghost var s := server.Abs();
    OneEvent(s, server.opts);
    if server.stopped || server.phase != Probing {
      return;
    }
    var v := JudgeProbingPacket(Named(info, server.name), probeId, data);
    match v
    case Ignore =>
    case NameConflict => server.HandleNameConflict(newName);
    case Defer => server.HandleTiebreak();
  }

  lemma OneEvent(s: Server, opts: Options)
    ensures Continue(s, [], opts) == s && forall e :: Continue(s, [e], opts) == Step(s, e, opts)
  {
    hide Step;
    forall e
      ensures Continue(s, [e], opts) == Step(s, e, opts)
    {
      assert [e][..0] == [];
    }
  }
}
