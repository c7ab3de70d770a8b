/** From one end to the other: a responder's packet, received by a monitor that
    watches its type, becomes a listed service with exactly the responder's data. */
module Discovery {
  import opened Bytes
  import opened Names
  import opened Records
  import opened TxtCodec
  import opened Frame
  import R = Response
  import opened MonitorModel
  import opened MonitorInvariant
  import opened ServiceMonitors
  import Aggregation

  // ---------------------------------------------------------------- one instance

  datatype Seen = Unknown | Part(partial: Partial) | Listed(svc: Service)

  /** What the monitor knows about one instance. */
  function Look(s: State, n: Name): Seen {
    if n in s.live then Listed(s.live[n]) else if n in s.partials then Part(s.partials[n]) else Unknown
  }

  lemma PtrSeen(s: State, t: Name, n: Name)
    requires Look(s, n) == Unknown
    ensures Look(ProcessPtr(s, t, n), n) == Part(Partial(t, false, false, Service(n, [], 0, [], [], [])))
    ensures ProcessPtr(s, t, n).hostnames == s.hostnames
  {
  }

  lemma SrvSeen(s: State, n: Name, ttl: u32, host: Name, port: u16, p: Partial)
    requires Look(s, n) == Part(p) && !p.hasAddress
    ensures var s' := ProcessSrv(s, n, ttl, host, port);
            && Look(s', n) == Part(p.(hasSrv := true, svc := p.svc.(hostname := host, port := port)))
            && s'.hostnames == s.hostnames + {host}
  {
  }

  lemma {:induction false} UnchangedMerge(dst: seq<Txt>, src: seq<Txt>)
    ensures !MergeTxt(dst, src).1 ==> MergeTxt(dst, src).0 == dst
  {
    hide MergeOne;
    if src != [] {
      UnchangedMerge(dst, src[..|src| - 1]);
    }
  }

  function WithTxt(seen: Seen, es: seq<Txt>): Seen {
    match seen
    case Unknown => Unknown
    case Part(p) => Part(p.(svc := p.svc.(txt := MergeTxt(p.svc.txt, es).0)))
    case Listed(svc) => Listed(svc.(txt := MergeTxt(svc.txt, es).0))
  }

  lemma TxtSeen(s: State, n: Name, es: seq<Txt>)
    requires s.partials.Keys !! s.live.Keys
    ensures var s' := ProcessTxt(s, n, es);
            s'.hostnames == s.hostnames && Look(s', n) == WithTxt(Look(s, n), es)
  {
    hide MergeTxt, Report;
    if n in s.live {
      UnchangedMerge(s.live[n].txt, es);
      var f := map[n := s.live[n].(txt := MergeTxt(s.live[n].txt, es).0)];
      ReportFrame(s, s.live + f, UpdatedCalls(f, true, TYPE_TXT));
    }
  }

  lemma OnHost(svc: Service, host: Name, x: Addr, v6: bool)
    requires Gains(svc, host, x, v6)
    ensures svc.hostname == host
  {
  }

  lemma AddressToPartialsSeen(s: State, host: Name, x: Addr, v6: bool, n: Name)
    requires s.partials.Keys !! s.live.Keys
    ensures var s' := AddressToPartials(s, host, x, v6);
            && s'.hostnames == s.hostnames
            && (Look(s, n).Listed? ==> Look(s', n) == Look(s, n))
            && (Look(s, n).Part? && Look(s, n).partial.hasSrv && Gains(Look(s, n).partial.svc, host, x, v6) ==>
                  Look(s', n) == Listed(Gained(Look(s, n).partial.svc, x, v6)))
  {
    hide Report, Gains, Gained;
    var s1 := s.(partials := PartialsGain(s, host, x, v6));
    var g := Complete(s1.partials, host);
    ReportFrame(s1.(partials := s1.partials - g.Keys), g + s1.live, FoundCalls(g));
    if Look(s, n).Part? && Look(s, n).partial.hasSrv && Gains(Look(s, n).partial.svc, host, x, v6) {
      assert AnyPartialGains(s, host, x, v6);
      GainedHost(Look(s, n).partial.svc, x, v6);
      assert Look(s, n).partial.svc.hostname == host by { OnHost(Look(s, n).partial.svc, host, x, v6); }
      assert n in g && g[n] == Gained(Look(s, n).partial.svc, x, v6);
    }
  }

  lemma AddressToLiveSeen(s: State, host: Name, x: Addr, v6: bool, n: Name)
    requires Look(s, n).Listed?
    ensures var s', svc := AddressToLive(s, host, x, v6), Look(s, n).svc;
            && s'.hostnames == s.hostnames
            && Look(s', n) == Listed(if Gains(svc, host, x, v6) then Gained(svc, x, v6) else svc)
  {
    hide Report, Gains, Gained;
    var f := LiveGains(s.live, host, x, v6);
    ReportFrame(s, s.live + f, UpdatedCalls(f, true, AddrType(v6)));
  }

  /** An address completes an instance that has its SRV record, and joins a listed one. */
  lemma AddressSeen(s: State, host: Name, x: Addr, v6: bool, n: Name, svc: Service)
    requires s.partials.Keys !! s.live.Keys && Gains(svc, host, x, v6)
    requires || Look(s, n) == Listed(svc)
             || (Look(s, n).Part? && Look(s, n).partial.hasSrv && Look(s, n).partial.svc == svc)
    ensures var s' := ProcessAddress(s, host, x, v6);
            Look(s', n) == Listed(Gained(svc, x, v6)) && s'.hostnames == s.hostnames
  {
    AddressToPartialsSeen(s, host, x, v6, n);
    assert !Gains(Gained(svc, x, v6), host, x, v6);
    hide AddressToPartials, AddressToLive, Gains, Gained;
    AddressToLiveSeen(AddressToPartials(s, host, x, v6), host, x, v6, n);
  }

  // ---------------------------------------------------------------- one packet

  lemma ReceiveOne(s: State, r: Record)
    ensures ReceiveAll(s, [r]) == if IsRelevant(s, r) then Process(s, r) else s
  {
    hide IsRelevant, Process;
    assert [r][..0] == [];
    assert ReceiveAll(s, []) == s;
  }

  lemma {:induction false} ReceiveConcat(s: State, a: seq<Record>, b: seq<Record>)
    ensures ReceiveAll(s, a + b) == ReceiveAll(ReceiveAll(s, a), b)
  {
    hide IsRelevant, Process;
    if b == [] {
      assert a + b == a;
    } else {
      ReceiveConcat(s, a, b[..|b| - 1]);
      assert (a + b)[..|a + b| - 1] == a + b[..|b| - 1];
    }
  }

  lemma {:induction false} ReceiveKeeps(s: State, rs: seq<Record>)
    requires Inv(s)
    ensures Inv(ReceiveAll(s, rs))
  {
    hide Inv, IsRelevant, Process;
    if rs != [] {
      var s1, r := ReceiveAll(s, rs[..|rs| - 1]), rs[|rs| - 1];
      ReceiveKeeps(s, rs[..|rs| - 1]);
      if IsRelevant(s1, r) {
        ProcessKeeps(s1, r);
      }
    }
  }

  /** The instance is known with exactly this data: listed as soon as it has an address. */
  ghost predicate Carries(s: State, t: Name, svc: Service) {
    && Inv(s) && svc.hostname in s.hostnames
    && Look(s, svc.instance) == if HasAddress(svc) then Listed(svc) else Part(Partial(t, true, false, svc))
  }

  lemma Introduced(s: State, ptr: Record, srv: Record)
    requires Inv(s) && ptr.Ptr? && ptr.hdr.name in s.watches && Look(s, ptr.target) == Unknown
    requires srv.Srv? && srv.hdr.name == ptr.target
    ensures Carries(ReceiveAll(s, [ptr] + [srv]), ptr.hdr.name, Service(ptr.target, srv.target, srv.port, [], [], []))
  {
    hide Inv, ProcessPtr, ProcessSrv, ReceiveAll;
    var s1 := Process(s, ptr);
    ReceiveConcat(s, [ptr], [srv]);
    ReceiveOne(s, ptr);
    ReceiveOne(s1, srv);
    ReceiveKeeps(s, [ptr] + [srv]);
    PtrSeen(s, ptr.hdr.name, ptr.target);
    SrvSeen(s1, srv.hdr.name, srv.hdr.ttl, srv.target, srv.port, Look(s1, ptr.target).partial);
  }

  lemma AddressCarried(s: State, t: Name, svc: Service, r: Record, v6: bool)
    requires Carries(s, t, svc) && (if v6 then r.Aaaa? else r.A?)
    requires r.hdr.name == svc.hostname && Addrs(svc, v6) == []
    ensures Carries(ReceiveAll(s, [r]), t, WithAddrs(svc, v6, [r.addr]))
  {
    ReceiveKeeps(s, [r]);
    ReceiveOne(s, r);
    assert s.partials.Keys !! s.live.Keys;
    hide Inv, ReceiveAll, ProcessAddress;
    AddressSeen(s, svc.hostname, r.addr, v6, svc.instance, svc);
    assert [] + [r.addr] == [r.addr];
  }

  lemma TxtCarried(s: State, t: Name, svc: Service, r: Record)
    requires Carries(s, t, svc) && r.Txts? && r.hdr.name == svc.instance
    ensures Carries(ReceiveAll(s, [r]), t, svc.(txt := MergeTxt(svc.txt, r.entries).0))
  {
    ReceiveKeeps(s, [r]);
    ReceiveOne(s, r);
    assert s.partials.Keys !! s.live.Keys;
    hide Inv, ReceiveAll, ProcessTxt, MergeTxt;
    TxtSeen(s, svc.instance, r.entries);
  }

  // ---------------------------------------------------------------- the announced service

  /** The TXT strings that reach a receiver: all that fit a string, unless their record
      does not fit a packet. */
  function ArrivingTxt(info: ServiceInfo): seq<Txt> {
    if |EncodedTxt(info.txt)| <= 0xFFFF then DecodedTxt(EncodedTxt(info.txt)) else []
  }

  /** The service as its responder describes it. */
  function Described(info: ServiceInfo): Service {
    Service(info.serviceName, info.hostname, info.port, MergeTxt([], ArrivingTxt(info)).0,
            if R.HasIpv4(info) then [info.ipv4.value] else [], if R.HasIpv6(info) then [info.ipv6.value] else [])
  }

  function TxtArriving(info: ServiceInfo, ttls: R.Ttls, cap: u32): seq<Record> {
    if 0 < |EncodedTxt(info.txt)| <= 0xFFFF then [Arriving(R.TxtRecord(info, ttls, cap))] else []
  }

  lemma {:induction false} FittingConcat(a: seq<Record>, b: seq<Record>)
    ensures R.Fitting(a + b) == R.Fitting(a) + R.Fitting(b)
  {
    hide Rdata;
    if a == [] {
      assert a + b == b;
    } else {
      FittingConcat(a[1..], b);
      assert (a + b)[0] == a[0] && (a + b)[1..] == a[1..] + b;
      if |Rdata(a[0])| <= 0xFFFF {
        Assoc([a[0]], R.Fitting(a[1..]), R.Fitting(b));
      }
    }
  }

  /** A PTR question is answered with everything, and so is ANY, which is also what an
      announcement sends. */
  predicate Full(qtype: u16) { qtype == TYPE_PTR || qtype == TYPE_ANY }

  /** What a receiver is delivered from such a packet. */
  lemma FullReplyDelivers(info: ServiceInfo, qtype: u16, ttls: R.Ttls, cap: u32)
    requires R.WireInfo(info) && Full(qtype)
    ensures Walk(R.ResponseBytes(info, qtype, ttls, cap))
         == [R.PtrRecord(info, ttls, cap)] + [R.SrvRecord(info, ttls, cap)] + R.ARecords(info, ttls, cap)
            + R.AaaaRecords(info, ttls, cap) + TxtArriving(info, ttls, cap)
  {
    hide Walk, WalkEnd, WalkTypes, R.ResponseBytes, R.Responds, R.Promised, R.Fitting, Arriving;
    hide EncodedTxt, R.WireInfo;
    R.ResponseRoundTrip(info, qtype, ttls, cap);
    AllFit(info, ttls, cap);
    FullReplyFits(info, qtype, ttls, cap);
    ArrivingParts(info, ttls, cap);
  }

  lemma FullReplyFits(info: ServiceInfo, qtype: u16, ttls: R.Ttls, cap: u32)
    requires R.WireInfo(info) && Full(qtype)
    ensures R.Fitting(R.Promised(info, qtype, ttls, cap))
         == [R.PtrRecord(info, ttls, cap)] + [R.SrvRecord(info, ttls, cap)] + R.ARecords(info, ttls, cap)
            + R.AaaaRecords(info, ttls, cap) + TxtFitting(info, ttls, cap)
  {
    AllFit(info, ttls, cap);
    hide EncodedTxt, R.Fitting, R.PtrRecord, R.SrvRecord, R.ARecords, R.AaaaRecords, R.TxtRecords, R.WireInfo;
    hide TxtFitting;
    var ptr, srv := R.PtrRecord(info, ttls, cap), R.SrvRecord(info, ttls, cap);
    var a, aaaa, txt := R.ARecords(info, ttls, cap), R.AaaaRecords(info, ttls, cap), R.TxtRecords(info, ttls, cap);
    var all := [ptr] + ([srv] + ((a + aaaa) + txt));
    assert R.Promised(info, qtype, ttls, cap) == all by { assert all + [] == all; }
    Regroup([ptr], [srv], a, aaaa, txt);
    FittingConcat([ptr] + [srv] + a + aaaa, txt);
    FittingConcat([ptr] + [srv] + a, aaaa);
    FittingConcat([ptr] + [srv], a);
    FittingConcat([ptr], [srv]);
  }

  lemma Regroup<T>(a: seq<T>, b: seq<T>, c: seq<T>, d: seq<T>, e: seq<T>)
    ensures a + (b + ((c + d) + e)) == a + b + c + d + e
  {
    Assoc(c, d, e);
    Assoc(b, c, d + e);
    Assoc(a, b + c, d + e);
    Assoc(a, b, c);
    Assoc(a + b + c, d, e);
  }

  function TxtFitting(info: ServiceInfo, ttls: R.Ttls, cap: u32): seq<Record> {
    if 0 < |EncodedTxt(info.txt)| <= 0xFFFF then [R.TxtRecord(info, ttls, cap)] else []
  }

  lemma ArrivingParts(info: ServiceInfo, ttls: R.Ttls, cap: u32)
    ensures var first := [R.PtrRecord(info, ttls, cap)] + [R.SrvRecord(info, ttls, cap)] + R.ARecords(info, ttls, cap)
                         + R.AaaaRecords(info, ttls, cap);
            ArrivingAll(first + TxtFitting(info, ttls, cap)) == first + TxtArriving(info, ttls, cap)
  {
    hide EncodedTxt, DecodedTxt, R.Capped;
    var first := [R.PtrRecord(info, ttls, cap)] + [R.SrvRecord(info, ttls, cap)] + R.ARecords(info, ttls, cap)
                 + R.AaaaRecords(info, ttls, cap);
    assert forall i :: 0 <= i < |first| ==> Arriving(first[i]) == first[i];
  }

  lemma AllFit(info: ServiceInfo, ttls: R.Ttls, cap: u32)
    requires R.WireInfo(info)
    ensures R.Responds(info, TYPE_PTR) && R.Responds(info, TYPE_ANY)
    ensures R.Fitting([R.PtrRecord(info, ttls, cap)]) == [R.PtrRecord(info, ttls, cap)]
    ensures R.Fitting([R.SrvRecord(info, ttls, cap)]) == [R.SrvRecord(info, ttls, cap)]
    ensures R.Fitting(R.ARecords(info, ttls, cap)) == R.ARecords(info, ttls, cap)
    ensures R.Fitting(R.AaaaRecords(info, ttls, cap)) == R.AaaaRecords(info, ttls, cap)
    ensures R.Fitting(R.TxtRecords(info, ttls, cap)) == TxtFitting(info, ttls, cap)
  {
    hide EncodedTxt, R.Capped;
  }

  /** One packet is enough: a monitor that watches the type and does not know the
      instance lists it, with exactly the responder's data, if and only if the
      responder has an address; otherwise it keeps that data and waits. */
  lemma AnnouncementIsListed(s: State, info: ServiceInfo, qtype: u16, ttls: R.Ttls, cap: u32)
    requires Inv(s) && R.WireInfo(info) && Full(qtype)
    requires info.serviceType in s.watches && Look(s, info.serviceName) == Unknown
    ensures var s' := ReceiveAll(s, Walk(R.ResponseBytes(info, qtype, ttls, cap)));
            && Inv(s')
            && Look(s', info.serviceName) == if R.HasIpv4(info) || R.HasIpv6(info) then Listed(Described(info))
                                             else Part(Partial(info.serviceType, true, false, Described(info)))
  {
    hide Walk, R.ResponseBytes, R.WireInfo, ReceiveAll, Inv, Carries, Look;
    hide R.PtrRecord, R.SrvRecord, R.ARecords, R.AaaaRecords, TxtArriving;
    FullReplyDelivers(info, qtype, ttls, cap);
    CarriedAll(s, info, ttls, cap);
    var s' := ReceiveAll(s, Walk(R.ResponseBytes(info, qtype, ttls, cap)));
    Carried(s', info.serviceType, Described(info));
  }

  lemma CarriedAll(s: State, info: ServiceInfo, ttls: R.Ttls, cap: u32)
    requires Inv(s) && info.serviceType in s.watches && Look(s, info.serviceName) == Unknown
    ensures Carries(ReceiveAll(s, [R.PtrRecord(info, ttls, cap)] + [R.SrvRecord(info, ttls, cap)]
                                  + R.ARecords(info, ttls, cap) + R.AaaaRecords(info, ttls, cap)
                                  + TxtArriving(info, ttls, cap)), info.serviceType, Described(info))
  {
    hide ReceiveAll, Inv, R.Capped, EncodedTxt, DecodedTxt, Carries, MergeTxt, Look;
    var ptr, srv := R.PtrRecord(info, ttls, cap), R.SrvRecord(info, ttls, cap);
    var a, aaaa, txt := R.ARecords(info, ttls, cap), R.AaaaRecords(info, ttls, cap), TxtArriving(info, ttls, cap);
    var t, svc := info.serviceType, Service(info.serviceName, info.hostname, info.port, [], [], []);
    ReceiveConcat(s, [ptr] + [srv] + a + aaaa, txt);
    ReceiveConcat(s, [ptr] + [srv] + a, aaaa);
    ReceiveConcat(s, [ptr] + [srv], a);
    var s2 := ReceiveAll(s, [ptr] + [srv]);
    Introduced(s, ptr, srv);
    var s3, svc3 := ReceiveAll(s2, a), svc.(v4 := Described(info).v4);
    ReceiveNothing(s2);
    if R.HasIpv4(info) {
      AddressCarried(s2, t, svc, a[0], false);
    }
    var s4, svc4 := ReceiveAll(s3, aaaa), svc3.(v6 := Described(info).v6);
    ReceiveNothing(s3);
    if R.HasIpv6(info) {
      AddressCarried(s3, t, svc3, aaaa[0], true);
    }
    ReceiveNothing(s4);
    TxtOrNothing(info);
    if txt != [] {
      TxtCarried(s4, t, svc4, txt[0]);
    }
  }

  /** A goodbye is such a packet with all TTLs zero: a monitor that does not know the
      service is told of it by its farewell. */
  lemma GoodbyeIsListed(s: State, info: ServiceInfo, cap: u32)
    requires Inv(s) && R.WireInfo(info) && info.serviceType in s.watches && Look(s, info.serviceName) == Unknown
    requires R.HasIpv4(info) || R.HasIpv6(info)
    ensures var goodbye := R.ResponseBytes(info, TYPE_ANY, R.Ttls(0, 0, 0, 0, 0), cap);
            var s' := ReceiveAll(s, Walk(goodbye));
            && (forall r :: r in Walk(goodbye) ==> r.hdr.ttl == 0)
            && Look(s', info.serviceName) == Listed(Described(info))
            && Replay(Trace(s', info.serviceName)) == Visible(Described(info))
  {
    var none := R.Ttls(0, 0, 0, 0, 0);
    hide Walk, R.ResponseBytes, R.WireInfo, ReceiveAll, Described, R.HasIpv4, R.HasIpv6, Structure, Replay;
    AnnouncementIsListed(s, info, TYPE_ANY, none, cap);
    GoodbyeTtls(info, cap);
    var s', n := ReceiveAll(s, Walk(R.ResponseBytes(info, TYPE_ANY, none, cap))), info.serviceName;
    assert Replay(Trace(s', n)) == Entry(s'.live, n);
  }

  lemma GoodbyeTtls(info: ServiceInfo, cap: u32)
    requires R.WireInfo(info)
    ensures forall r :: r in Walk(R.ResponseBytes(info, TYPE_ANY, R.Ttls(0, 0, 0, 0, 0), cap)) ==> r.hdr.ttl == 0
  {
    hide Walk, WalkEnd, WalkTypes, R.ResponseBytes, R.Responds, R.Promised, R.Fitting, WireAll, R.WireInfo;
    hide R.Shaped, Arriving, Types;
    var none := R.Ttls(0, 0, 0, 0, 0);
    var promised := R.Promised(info, TYPE_ANY, none, cap);
    AllFit(info, none, cap);
    R.ResponseRoundTrip(info, TYPE_ANY, none, cap);
    R.PromisedShape(info, TYPE_ANY, none, cap);
    R.FittingWire(promised);
    forall r | r in Walk(R.ResponseBytes(info, TYPE_ANY, none, cap))
      ensures r.hdr.ttl == 0
    {
      var i :| 0 <= i < |R.Fitting(promised)| && r == Arriving(R.Fitting(promised)[i]);
      ZeroTtl(R.Fitting(promised)[i], cap);
    }
  }

  lemma ZeroTtl(r: Record, cap: u32)
    requires R.Shaped(r, R.Ttls(0, 0, 0, 0, 0), cap)
    ensures Arriving(r).hdr.ttl == 0
  {
    hide Whole, Rdata, EncodedTxt, DecodedTxt;
  }

  lemma Carried(s: State, t: Name, svc: Service)
    requires Carries(s, t, svc)
    ensures Inv(s)
    ensures Look(s, svc.instance) == if HasAddress(svc) then Listed(svc) else Part(Partial(t, true, false, svc))
  {
  }

  lemma ReceiveNothing(s: State)
    ensures ReceiveAll(s, []) == s
  {
  }

  lemma TxtOrNothing(info: ServiceInfo)
    ensures !(0 < |EncodedTxt(info.txt)| <= 0xFFFF) ==> MergeTxt([], ArrivingTxt(info)).0 == []
  {
  }

  // ---------------------------------------------------------------- a monitor that knows nothing yet

  function Tracks(s: State): set<Name> { s.live.Keys + s.partials.Keys }

  /** Only a PTR record brings in an instance. */
  lemma NoNewNames(s: State, r: Record)
    ensures Tracks(Process(s, r)) <= Tracks(s) + if r.Ptr? then {r.target} else {}
  {
    match r
    case Ptr(_, _) =>
    case Srv(hdr, _, _, port, target) => SrvTracks(s, hdr.name, hdr.ttl, target, port);
    case A(hdr, x) => AddressTracks(s, hdr.name, x, false);
    case Aaaa(hdr, x) => AddressTracks(s, hdr.name, x, true);
    case Txts(hdr, entries) => TxtTracks(s, hdr.name, entries);
  }

  lemma PromoteTracks(s: State, g: map<Name, Service>)
    requires g.Keys <= s.partials.Keys
    ensures Tracks(Promote(s, g)) <= Tracks(s)
  {
    hide Report;
    ReportFrame(s.(partials := s.partials - g.Keys), g + s.live, FoundCalls(g));
  }

  lemma UpdateTracks(s: State, f: map<Name, Service>, added: bool, rtype: u16)
    requires f.Keys <= s.live.Keys
    ensures Tracks(Update(s, f, added, rtype)) <= Tracks(s)
  {
    hide Report;
    ReportFrame(s, s.live + f, UpdatedCalls(f, added, rtype));
  }

  lemma SrvTracks(s: State, n: Name, ttl: u32, target: Name, port: u16)
    ensures Tracks(ProcessSrv(s, n, ttl, target, port)) <= Tracks(s)
  {
    hide Promote, Update;
    var s0 := if ttl == 0 then s.(goodbyes := s.goodbyes + {n}) else s;
    if n in s.partials {
      var p := s.partials[n];
      var p' := p.(hasSrv := true, svc := p.svc.(hostname := target, port := port));
      PromoteTracks(s0.(partials := s.partials[n := p'], hostnames := s.hostnames + {target}), map[n := p'.svc]);
    } else if n in s.live {
      var svc := s.live[n].(hostname := target, port := port);
      UpdateTracks(s0.(hostnames := s.hostnames + {target}), map[n := svc], true, TYPE_SRV);
    }
  }

  lemma AddressTracks(s: State, host: Name, x: Addr, v6: bool)
    ensures Tracks(ProcessAddress(s, host, x, v6)) <= Tracks(s)
  {
    hide Promote, Update;
    var s1 := s.(partials := PartialsGain(s, host, x, v6));
    PromoteTracks(s1, Complete(s1.partials, host));
    var s2 := AddressToPartials(s, host, x, v6);
    assert Tracks(s2) <= Tracks(s1) == Tracks(s);
    UpdateTracks(s2, LiveGains(s2.live, host, x, v6), true, AddrType(v6));
  }

  lemma TxtTracks(s: State, n: Name, es: seq<Txt>)
    ensures Tracks(ProcessTxt(s, n, es)) <= Tracks(s)
  {
    hide Update, MergeTxt;
    if n !in s.partials && n in s.live {
      UpdateTracks(s, map[n := s.live[n].(txt := MergeTxt(s.live[n].txt, es).0)], true, TYPE_TXT);
    }
  }

  lemma {:induction false} ReceiveTracks(s: State, rs: seq<Record>, n: Name)
    requires PointTo(rs, n)
    ensures Tracks(ReceiveAll(s, rs)) <= Tracks(s) + {n}
  {
    hide IsRelevant, Process, Tracks;
    if rs != [] {
      var k := |rs| - 1;
      ReceiveTracks(s, rs[..k], n);
      NoNewNames(ReceiveAll(s, rs[..k]), rs[k]);
    }
  }

  /** services() of a fresh monitor after one packet: exactly the announced service,
      or nothing if it has no address. */
  lemma FreshMonitorListsExactlyIt(info: ServiceInfo, qtype: u16, ttls: R.Ttls, cap: u32)
    requires R.WireInfo(info) && Full(qtype)
    ensures var s' := ReceiveAll(Watch(INITIAL, info.serviceType), Walk(R.ResponseBytes(info, qtype, ttls, cap)));
            s'.snapshot == if R.HasIpv4(info) || R.HasIpv6(info) then map[info.serviceName := Described(info)]
                           else map[]
  {
    var s, n := Watch(INITIAL, info.serviceType), info.serviceName;
    var rs := Walk(R.ResponseBytes(info, qtype, ttls, cap));
    FreshIsGood(info.serviceType);
    OnlyOnePtr(info, qtype, ttls, cap);
    hide R.ResponseBytes, Walk, ReceiveAll, R.WireInfo, Described, Inv, R.HasIpv4, R.HasIpv6, Watch;
    AnnouncementIsListed(s, info, qtype, ttls, cap);
    ReceiveTracks(s, rs, n);
    ListedAlone(ReceiveAll(s, rs), n);
  }

  lemma FreshIsGood(t: Name)
    ensures Inv(Watch(INITIAL, t)) && Tracks(Watch(INITIAL, t)) == {} && t in Watch(INITIAL, t).watches
  {
    assert Inv(INITIAL) by { assert forall k :: Trace(INITIAL, k) == []; }
    WatchKeeps(INITIAL, t);
  }

  lemma OnlyOnePtr(info: ServiceInfo, qtype: u16, ttls: R.Ttls, cap: u32)
    requires R.WireInfo(info) && Full(qtype)
    ensures PointTo(Walk(R.ResponseBytes(info, qtype, ttls, cap)), info.serviceName)
  {
    hide R.ResponseBytes, Walk, R.WireInfo, R.PtrRecord, R.SrvRecord, R.ARecords, R.AaaaRecords, TxtArriving, PointTo;
    FullReplyDelivers(info, qtype, ttls, cap);
    var ptr, srv := R.PtrRecord(info, ttls, cap), R.SrvRecord(info, ttls, cap);
    var a, aaaa, txt := R.ARecords(info, ttls, cap), R.AaaaRecords(info, ttls, cap), TxtArriving(info, ttls, cap);
    var n := info.serviceName;
    PartsPoint(info, ttls, cap);
    PointToConcat([ptr], [srv], n);
    PointToConcat([ptr] + [srv], a, n);
    PointToConcat([ptr] + [srv] + a, aaaa, n);
    PointToConcat([ptr] + [srv] + a + aaaa, txt, n);
  }

  lemma PartsPoint(info: ServiceInfo, ttls: R.Ttls, cap: u32)
    ensures var n := info.serviceName;
            && PointTo([R.PtrRecord(info, ttls, cap)], n) && PointTo([R.SrvRecord(info, ttls, cap)], n)
            && PointTo(R.ARecords(info, ttls, cap), n) && PointTo(R.AaaaRecords(info, ttls, cap), n)
            && PointTo(TxtArriving(info, ttls, cap), n)
  {
    hide EncodedTxt, DecodedTxt, R.Capped;
  }

  /** No PTR record points at any other instance. */
  ghost predicate PointTo(rs: seq<Record>, n: Name) {
    forall r :: r in rs && r.Ptr? ==> r.target == n
  }

  lemma PointToConcat(a: seq<Record>, b: seq<Record>, n: Name)
    requires PointTo(a, n) && PointTo(b, n)
    ensures PointTo(a + b, n)
  {
  }

  lemma ListedAlone(s: State, n: Name)
    requires Inv(s) && Tracks(s) <= {n}
    ensures s.snapshot == if Look(s, n).Listed? then map[n := Look(s, n).svc] else map[]
  {
    assert s.snapshot == s.live;
    assert s.live.Keys <= {n};
  }

  // ---------------------------------------------------------------- the other way to discover

  ghost predicate Gathered(rs: seq<Record>, svc: Service) {
    && svc.instance in Aggregation.Instances(rs)
    && Aggregation.Hosts(rs, svc.instance) == {svc.hostname}
    && Aggregation.ServiceOf(rs, svc.instance) == svc
  }

  lemma GatheredFirst(ptr: Record, srv: Record)
    requires ptr.Ptr? && srv.Srv? && srv.hdr.name == ptr.target
    ensures Gathered([ptr] + [srv], Service(ptr.target, srv.target, srv.port, [], [], []))
  {
    var n, rs := ptr.target, [ptr] + [srv];
    BareFirst(ptr, srv);
    hide Aggregation.Bare, Aggregation.Hosts, Aggregation.Instances, Aggregation.Values, Aggregation.Distinct;
    NoAddressesYet(ptr, srv, Aggregation.Hosts(rs, n), false);
    NoAddressesYet(ptr, srv, Aggregation.Hosts(rs, n), true);
  }

  lemma BareFirst(ptr: Record, srv: Record)
    requires ptr.Ptr? && srv.Srv? && srv.hdr.name == ptr.target
    ensures var n, rs := ptr.target, [ptr] + [srv];
            && n in Aggregation.Instances(rs) && Aggregation.Hosts(rs, n) == {srv.target}
            && Aggregation.Bare(rs, n) == Service(n, srv.target, srv.port, [], [], [])
  {
    var n := ptr.target;
    assert n !in Aggregation.Instances([]);
    Aggregation.BlankUntilSeeded([], n);
    hide Aggregation.Bare, Aggregation.Hosts, Aggregation.Instances, MergeTxt;
    assert [] + [ptr] == [ptr];
    Aggregation.BareStep([], ptr, n);
    Aggregation.BareStep([ptr], srv, n);
  }

  lemma NoAddressesYet(ptr: Record, srv: Record, hosts: set<Name>, v6: bool)
    requires ptr.Ptr? && srv.Srv?
    ensures Aggregation.Distinct(Aggregation.Values([ptr] + [srv], hosts, v6)) == []
  {
    assert ([ptr] + [srv])[..1] == [ptr] && [ptr][..0] == [];
    assert Aggregation.Values([ptr], hosts, v6) == [];
    assert Aggregation.Values([ptr] + [srv], hosts, v6) == [];
  }

  lemma GatheredAddress(rs: seq<Record>, svc: Service, r: Record, v6: bool)
    requires Gathered(rs, svc) && (if v6 then r.Aaaa? else r.A?) && r.hdr.name == svc.hostname && Addrs(svc, v6) == []
    ensures Gathered(rs + [r], WithAddrs(svc, v6, [r.addr]))
  {
    assert [] + [r.addr] == [r.addr];
    assert Aggregation.AddOnce(svc, r.addr, r.Aaaa?) == WithAddrs(svc, v6, [r.addr]);
    hide Aggregation.ServiceOf, Aggregation.Hosts, Aggregation.Instances, Aggregation.AddOnce;
    Aggregation.ServiceStep(rs, r, svc.instance);
  }

  lemma GatheredTxt(rs: seq<Record>, svc: Service, r: Record)
    requires Gathered(rs, svc) && r.Txts? && r.hdr.name == svc.instance
    ensures Gathered(rs + [r], svc.(txt := MergeTxt(svc.txt, r.entries).0))
  {
    Aggregation.ServiceStep(rs, r, svc.instance);
    hide Aggregation.ServiceOf, Aggregation.Hosts, Aggregation.Instances, MergeTxt;
  }

  /** One-shot aggregation of the same packet finds the same service: the two ways of
      discovery agree. */
  lemma AggregateAgrees(info: ServiceInfo, qtype: u16, ttls: R.Ttls, cap: u32)
    requires R.WireInfo(info) && Full(qtype)
    ensures var rs := Walk(R.ResponseBytes(info, qtype, ttls, cap));
            && Aggregation.Instances(rs) == {info.serviceName}
            && Aggregation.ServiceOf(rs, info.serviceName) == Described(info)
  {
    hide Walk, R.ResponseBytes, R.WireInfo, Gathered, Described, PointTo;
    hide R.PtrRecord, R.SrvRecord, R.ARecords, R.AaaaRecords, TxtArriving;
    FullReplyDelivers(info, qtype, ttls, cap);
    OnlyOnePtr(info, qtype, ttls, cap);
    GatheredAll(info, ttls, cap);
    DescribedName(info);
    GatheredAlone(Walk(R.ResponseBytes(info, qtype, ttls, cap)), Described(info));
  }

  lemma DescribedName(info: ServiceInfo)
    ensures Described(info).instance == info.serviceName
  {
  }

  lemma GatheredAll(info: ServiceInfo, ttls: R.Ttls, cap: u32)
    ensures Gathered([R.PtrRecord(info, ttls, cap)] + [R.SrvRecord(info, ttls, cap)] + R.ARecords(info, ttls, cap)
                     + R.AaaaRecords(info, ttls, cap) + TxtArriving(info, ttls, cap), Described(info))
  {
    hide R.Capped, EncodedTxt, DecodedTxt, Gathered, MergeTxt;
    var ptr, srv := R.PtrRecord(info, ttls, cap), R.SrvRecord(info, ttls, cap);
    var a, aaaa, txt := R.ARecords(info, ttls, cap), R.AaaaRecords(info, ttls, cap), TxtArriving(info, ttls, cap);
    var svc := Service(info.serviceName, info.hostname, info.port, [], [], []);
    var rs2 := [ptr] + [srv];
    GatheredFirst(ptr, srv);
    var rs3, svc3 := rs2 + a, svc.(v4 := Described(info).v4);
    if R.HasIpv4(info) {
      GatheredAddress(rs2, svc, a[0], false);
    } else {
      assert rs3 == rs2;
    }
    var rs4, svc4 := rs3 + aaaa, svc3.(v6 := Described(info).v6);
    if R.HasIpv6(info) {
      GatheredAddress(rs3, svc3, aaaa[0], true);
    } else {
      assert rs4 == rs3;
    }
    TxtOrNothing(info);
    if txt != [] {
      GatheredTxt(rs4, svc4, txt[0]);
    } else {
      assert rs4 + txt == rs4;
    }
  }

  lemma GatheredAlone(rs: seq<Record>, svc: Service)
    requires Gathered(rs, svc) && PointTo(rs, svc.instance)
    ensures Aggregation.Instances(rs) == {svc.instance} && Aggregation.ServiceOf(rs, svc.instance) == svc
  {
  }
}
