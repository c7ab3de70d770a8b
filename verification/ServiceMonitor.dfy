/** The service monitor as an object over its cache object. Its containers are
    traversed in arbitrary order; every handler is proved to compute the state
    function of the same name, so the laws over runs hold of the object. */
module ServiceMonitors {
  import opened Bytes
  import opened Names
  import opened Records
  import F = Frame
  import Cache = CacheModel
  import RecordCaches
  import opened MonitorModel
  import opened MonitorInvariant
  import opened MonitorRuns

  // ---------------------------------------------------------------- one callback at a time

  lemma TracedTwice(trace: map<Name, seq<Call>>, first: map<Name, Call>, second: map<Name, Call>)
    requires first.Keys !! second.Keys
    ensures Traced(Traced(trace, first), second) == Traced(trace, first + second)
  {
    var t, u := Traced(Traced(trace, first), second), Traced(trace, first + second);
    assert t.Keys == u.Keys;
    forall n | n in t
      ensures t[n] == u[n]
    {
      assert Calls(Traced(trace, first), n) == if n in first then Calls(trace, n) + [first[n]] else Calls(trace, n);
    }
  }

  /** Reporting in two portions is reporting at once. */
  lemma ReportTwice(s: State, live1: map<Name, Service>, first: map<Name, Call>,
                    live2: map<Name, Service>, n: Name, c: Call)
    requires n !in first
    ensures Report(Report(s, live1, first), live2, map[n := c]) == Report(s, live2, first[n := c])
  {
    hide Traced;
    assert n in map[n := c] && n in first[n := c];
    assert first + map[n := c] == first[n := c];
    if first == map[] {
      assert first[n := c] == map[n := c];
    } else {
      TracedTwice(s.trace, first, map[n := c]);
    }
  }

  /** Reporting does not look at the partial instances. */
  lemma ReportPartials(s: State, p: map<Name, Partial>, live: map<Name, Service>, calls: map<Name, Call>)
    ensures Report(s, live, calls).(partials := p) == Report(s.(partials := p), live, calls)
  {
    hide Traced;
  }

  lemma PromoteOneMore(s: State, g: map<Name, Service>, n: Name, svc: Service)
    requires n !in g && n !in s.live
    ensures Promote(Promote(s, g), map[n := svc]) == Promote(s, g[n := svc])
  {
    hide Report, FoundCalls;
    var p, g', live1 := s.partials, g[n := svc], g + s.live;
    var s1 := s.(partials := p - g.Keys);
    ReportFrame(s1, live1, FoundCalls(g));
    PromotedMaps(p, g, s.live, n, svc);
    ReportPartials(s1, p - g'.Keys, live1, FoundCalls(g));
    ReportTwice(s.(partials := p - g'.Keys), live1, FoundCalls(g), g' + s.live, n, Found(svc));
  }

  lemma PromoteSingle(s: State, n: Name, svc: Service)
    ensures var live := if n in s.live then s.live else s.live[n := svc];
            Promote(s, map[n := svc]) == s.(partials := s.partials - {n}, live := live, snapshot := live,
                                            trace := Traced(s.trace, map[n := Found(svc)]))
  {
    hide Traced;
    var live := if n in s.live then s.live else s.live[n := svc];
    assert FoundCalls(map[n := svc]) == map[n := Found(svc)];
    assert map[n := svc] + s.live == live;
    assert n in map[n := Found(svc)];
    assert s.partials - map[n := svc].Keys == s.partials - {n};
  }

  lemma PromotedMaps(p: map<Name, Partial>, g: map<Name, Service>, live: map<Name, Service>, n: Name, svc: Service)
    requires n !in g && n !in live
    ensures var g' := g[n := svc];
            && p - g.Keys - map[n := svc].Keys == p - g'.Keys
            && map[n := svc] + (g + live) == g' + live
            && FoundCalls(map[n := svc]) == map[n := Found(svc)]
            && FoundCalls(g') == FoundCalls(g)[n := Found(svc)]
            && n !in FoundCalls(g)
  {
    var g' := g[n := svc];
    assert p - g.Keys - map[n := svc].Keys == p - g'.Keys;
    assert map[n := svc] + (g + live) == g' + live;
    assert FoundCalls(map[n := svc]) == map[n := Found(svc)];
    assert FoundCalls(g') == FoundCalls(g)[n := Found(svc)];
  }

  /** Updating one more of the live services. */
  lemma UpdateOneMore(s: State, f: map<Name, Service>, n: Name, svc: Service, added: bool, rtype: u16)
    requires n !in f
    ensures Update(Update(s, f, added, rtype), map[n := svc], added, rtype) == Update(s, f[n := svc], added, rtype)
  {
    hide Report;
    var f' := f[n := svc];
    ReportFrame(s, s.live + f, UpdatedCalls(f, added, rtype));
    assert s.live + f + map[n := svc] == s.live + f';
    assert UpdatedCalls(map[n := svc], added, rtype) == map[n := Updated(svc, added, rtype)];
    assert UpdatedCalls(f', added, rtype) == UpdatedCalls(f, added, rtype)[n := Updated(svc, added, rtype)];
    ReportTwice(s, s.live + f, UpdatedCalls(f, added, rtype), s.live + f', n, Updated(svc, added, rtype));
  }

  /** Handling one packet's records in turn, irrelevant ones being dropped. */
  ghost function ReceiveAll(s: State, rs: seq<Record>): State {
    if rs == [] then s else
    var s1, r := ReceiveAll(s, rs[..|rs| - 1]), rs[|rs| - 1];
    if IsRelevant(s1, r) then Process(s1, r) else s1
  }

  ghost predicate AnyRelevant(s: State, rs: seq<Record>) {
    rs != [] && (AnyRelevant(s, rs[..|rs| - 1]) || IsRelevant(ReceiveAll(s, rs[..|rs| - 1]), rs[|rs| - 1]))
  }

  /** The insertions one packet causes: its relevant records, in order. */
  ghost function Logged(s: State, rs: seq<Record>, sender: Cache.Endpoint, now: int): seq<Cache.Event> {
    if rs == [] then [] else
    var init, r := rs[..|rs| - 1], rs[|rs| - 1];
    if IsRelevant(ReceiveAll(s, init), r) then Logged(s, init, sender, now) + [Cache.Insertion(now, r, sender)]
    else Logged(s, init, sender, now)
  }

  class ServiceMonitor {
    const cache: RecordCaches.RecordCache
    var watches: set<Name>
    var partials: map<Name, Partial>
    var live: map<Name, Service>
    var types: map<Name, Name>
    var hostnames: set<Name>
    var goodbyes: set<Name>
    var snapshot: map<Name, Service>
    ghost var trace: map<Name, seq<Call>>

    ghost function Abs(): State
      reads this
    {
      State(watches, partials, live, types, hostnames, goodbyes, snapshot, trace)
    }

    ghost predicate Valid()
      reads this, cache
    {
      cache.Valid() && Good(System(Abs(), cache.log), cache.grace)
    }

    constructor (goodbyeGrace: u32)
      ensures Valid() && Abs() == INITIAL && fresh(cache) && cache.grace == goodbyeGrace && cache.log == []
    {
      cache := new RecordCaches.RecordCache(goodbyeGrace);
      watches, partials, live, types, hostnames, goodbyes, snapshot := {}, map[], map[], map[], {}, {}, map[];
      trace := map[];
      new;
      InitiallyGood(goodbyeGrace);
    }

    // -------------------------------------------------------------- handlers

    method CheckResolved(n: Name)
      modifies this
      ensures Abs() == if n in old(partials) && Resolved(old(partials)[n])
                       then Promote(old(Abs()), map[n := old(partials)[n].svc]) else old(Abs())
    {
      hide Traced, FoundCalls, Promote;
      if n !in partials || !partials[n].hasSrv || !partials[n].hasAddress {
        return;
      }
      var svc := partials[n].svc;
      PromoteSingle(Abs(), n, svc);
      partials := partials - {n};
      if n !in live {
        live := live[n := svc];
      }
      trace := Traced(trace, map[n := Found(svc)]);
      snapshot := live;
    }

    /** Replace one live entry, tell the user and renew the snapshot. */
    method UpdateLive(n: Name, svc: Service, ghost added: bool, ghost rtype: u16)
      modifies this
      ensures Abs() == Update(old(Abs()), map[n := svc], added, rtype)
    {
      assert UpdatedCalls(map[n := svc], added, rtype) == map[n := Updated(svc, added, rtype)];
      assert live + map[n := svc] == live[n := svc];
      assert n in map[n := Updated(svc, added, rtype)];
      live := live[n := svc];
      trace := Traced(trace, map[n := Updated(svc, added, rtype)]);
      snapshot := live;
    }

    method HandlePtr(serviceType: Name, inst: Name)
      modifies this
      ensures Abs() == ProcessPtr(old(Abs()), serviceType, inst)
    {
      if inst in partials || inst in live {
        return;
      }
      partials := partials[inst := Partial(serviceType, false, false, Service(inst, [], 0, [], [], []))];
      types := types[inst := serviceType];
    }

    method HandleSrv(n: Name, ttl: u32, target: Name, port: u16)
      modifies this
      ensures Abs() == ProcessSrv(old(Abs()), n, ttl, target, port)
    {
      hide Promote, Update;
      if ttl == 0 {
        goodbyes := goodbyes + {n};
      }
      if n in partials {
        var p := partials[n];
        partials := partials[n := p.(hasSrv := true, svc := p.svc.(hostname := target, port := port))];
        hostnames := hostnames + {target};
        CheckResolved(n);
      } else if n in live {
        if live[n].hostname != target || live[n].port != port {
          hostnames := hostnames + {target};
          UpdateLive(n, live[n].(hostname := target, port := port), true, TYPE_SRV);
        }
      }
    }

    method GivePartialsAddress(host: Name, x: Addr, v6: bool) returns (any: bool)
      modifies this`partials
      ensures partials == PartialsGain(old(Abs()), host, x, v6)
      ensures any <==> AnyPartialGains(old(Abs()), host, x, v6)
    {
      hide Gains, PartialGained;
      any := false;
      ghost var was := partials;
      var todo := partials.Keys;
      while todo != {}
        invariant todo <= was.Keys && partials.Keys == was.Keys
        invariant forall n :: n in was ==>
                    partials[n] == if n in todo then was[n] else PartialGained(was[n], host, x, v6)
        invariant any <==> exists n :: n in was && n !in todo && Gains(was[n].svc, host, x, v6)
        decreases todo
      {
        var n :| n in todo;
        todo := todo - {n};
        if Gains(partials[n].svc, host, x, v6) {
          any := true;
        }
        partials := partials[n := PartialGained(partials[n], host, x, v6)];
      }
    }

    method GiveLiveAddress(host: Name, x: Addr, v6: bool)
      modifies this
      ensures Abs() == AddressToLive(old(Abs()), host, x, v6)
    {
      hide Gains, Gained, Update;
      ghost var s, f := Abs(), LiveGains(live, host, x, v6);
      ghost var done: map<Name, Service> := map[];
      NoUpdate(s, true, AddrType(v6));
      var todo := live.Keys;
      while todo != {}
        invariant todo <= s.live.Keys && done.Keys !! todo && done.Keys <= s.live.Keys
        invariant forall n :: n in f && n !in todo ==> n in done && done[n] == f[n]
        invariant forall n :: n in done ==> n in f
        invariant Abs() == Update(s, done, true, AddrType(v6))
        decreases todo
      {
        var n :| n in todo;
        todo := todo - {n};
        UpdateLiveMap(s, done, true, AddrType(v6));
        assert n in live && live[n] == s.live[n];
        if Gains(live[n], host, x, v6) {
          ghost var svc := Gained(s.live[n], x, v6);
          UpdateOneMore(s, done, n, svc, true, AddrType(v6));
          UpdateLive(n, Gained(live[n], x, v6), true, AddrType(v6));
          done := done[n := svc];
        }
      }
      assert done == f;
    }

    method HandleAddress(host: Name, x: Addr, v6: bool)
      requires partials.Keys !! live.Keys
      modifies this
      ensures Abs() == ProcessAddress(old(Abs()), host, x, v6)
    {
      hide Gains, PartialsGain, Promote, AddressToLive, AnyPartialGains;
      ghost var s := Abs();
      var any := GivePartialsAddress(host, x, v6);
      ghost var s1 := Abs();
      assert partials.Keys == old(partials).Keys by { PartialsGainKeys(s, host, x, v6); }
      if any {
        PromoteComplete(host);
      }
      GiveLiveAddress(host, x, v6);
    }

    method PromoteComplete(host: Name)
      requires partials.Keys !! live.Keys
      modifies this
      ensures Abs() == Promote(old(Abs()), Complete(old(partials), host))
    {
      hide Promote;
      ghost var s := Abs();
      var toCheck := Complete(partials, host).Keys;
      ghost var g := Complete(partials, host);
      ghost var done: map<Name, Service> := map[];
      NoPromotion(s);
      while toCheck != {}
        invariant toCheck <= g.Keys && done.Keys == g.Keys - toCheck
        invariant forall n :: n in done ==> done[n] == g[n]
        invariant Abs() == Promote(s, done)
        decreases toCheck
      {
        var n :| n in toCheck;
        toCheck := toCheck - {n};
        PromotedFrame(s, done);
        PromoteOneMore(s, done, n, g[n]);
        CheckResolved(n);
        done := done[n := g[n]];
      }
      assert done == g;
    }

    method HandleTxt(n: Name, entries: seq<Txt>)
      modifies this
      ensures Abs() == ProcessTxt(old(Abs()), n, entries)
    {
      hide Update, MergeTxt;
      if n in partials {
        var txt, _ := MergeEntries(partials[n].svc.txt, entries);
        partials := partials[n := partials[n].(svc := partials[n].svc.(txt := txt))];
        return;
      }
      if n in live {
        var txt, changed := MergeEntries(live[n].txt, entries);
        if changed {
          UpdateLive(n, live[n].(txt := txt), true, TYPE_TXT);
        }
      }
    }

    method HandleRecord(r: Record)
      requires partials.Keys !! live.Keys
      modifies this
      ensures Abs() == Process(old(Abs()), r)
    {
      hide ProcessPtr, ProcessSrv, ProcessAddress, ProcessTxt;
      match r
      case Ptr(hdr, target) => HandlePtr(hdr.name, target);
      case Srv(hdr, _, _, port, target) => HandleSrv(hdr.name, hdr.ttl, target, port);
      case A(hdr, x) => HandleAddress(hdr.name, x, false);
      case Aaaa(hdr, x) => HandleAddress(hdr.name, x, true);
      case Txts(hdr, entries) => HandleTxt(hdr.name, entries);
    }

    // -------------------------------------------------------------- expiry

    method HandleExpiredSrv(n: Name)
      modifies this
      ensures Abs() == ExpireSrv(old(Abs()), n)
    {
      if n !in live {
        partials := partials - {n};
        goodbyes := goodbyes - {n};
        return;
      }
      var lastKnown := live[n];
      ghost var reason := if n in goodbyes then Goodbye else Timeout;
      assert LostCalls(map[n := lastKnown], reason) == map[n := Lost(lastKnown, reason)];
      assert n in map[n := Lost(lastKnown, reason)];
      live := live - {n};
      partials := partials - {n};
      goodbyes := goodbyes - {n};
      trace := Traced(trace, map[n := Lost(lastKnown, reason)]);
      snapshot := live;
    }

    method HandleExpiredAddress(host: Name, x: Addr, v6: bool)
      modifies this
      ensures Abs() == ExpireAddress(old(Abs()), host, x, v6)
    {
      hide Loses, Dropped, Update;
      ghost var s, f := Abs(), LiveLosses(live, host, x, v6);
      ghost var done: map<Name, Service> := map[];
      NoUpdate(s, false, AddrType(v6));
      var todo := live.Keys;
      while todo != {}
        invariant todo <= s.live.Keys && done.Keys !! todo && done.Keys <= s.live.Keys
        invariant forall n :: n in f && n !in todo ==> n in done && done[n] == f[n]
        invariant forall n :: n in done ==> n in f
        invariant Abs() == Update(s, done, false, AddrType(v6))
        decreases todo
      {
        var n :| n in todo;
        todo := todo - {n};
        UpdateLiveMap(s, done, false, AddrType(v6));
        assert n in live && live[n] == s.live[n];
        if Loses(live[n], host, x, v6) {
          ghost var svc := Dropped(s.live[n], x, v6);
          UpdateOneMore(s, done, n, svc, false, AddrType(v6));
          UpdateLive(n, Dropped(live[n], x, v6), false, AddrType(v6));
          done := done[n := svc];
        }
      }
      assert done == f;
    }

    method HandleExpiredTxt(n: Name, entries: seq<Txt>)
      modifies this
      ensures Abs() == ExpireTxt(old(Abs()), n, entries)
    {
      hide Update, RemoveKeys;
      if n !in live {
        return;
      }
      var txt, changed := RemoveEntries(live[n].txt, entries);
      if changed {
        UpdateLive(n, live[n].(txt := txt), false, TYPE_TXT);
      }
    }

    method HandleExpired(expired: seq<Record>)
      modifies this
      ensures Abs() == ExpireAll(old(Abs()), expired)
    {
      hide ExpireSrv, ExpireAddress, ExpireTxt;
      ghost var s := Abs();
      for i := 0 to |expired|
        invariant Abs() == ExpireAll(s, expired[..i])
      {
        assert expired[..i + 1][..i] == expired[..i];
        match expired[i]
        case Ptr(_, _) =>
        case Srv(hdr, _, _, _, _) => HandleExpiredSrv(hdr.name);
        case A(hdr, x) => HandleExpiredAddress(hdr.name, x, false);
        case Aaaa(hdr, x) => HandleExpiredAddress(hdr.name, x, true);
        case Txts(hdr, entries) => HandleExpiredTxt(hdr.name, entries);
      }
      assert expired[..|expired|] == expired;
    }

    // -------------------------------------------------------------- events

    method HandlePacket(data: seq<byte>, sender: Cache.Endpoint, now: int) returns (relevant: bool)
      requires Valid() && cache.Reached(now)
      modifies this, cache
      ensures Valid() && cache.Reached(now)
      ensures Abs() == ReceiveAll(old(Abs()), F.Walk(data))
      ensures cache.log == old(cache.log) + Logged(old(Abs()), F.Walk(data), sender, now)
      ensures relevant <==> AnyRelevant(old(Abs()), F.Walk(data))
    {
      hide Process, IsRelevant, F.Walk, Good, ReceiveAll, AnyRelevant, Logged;
      relevant := false;
      var records, _ := F.WalkDnsFrame(data);
      ghost var s, log := Abs(), cache.log;
      NothingReceived(s, records, sender, now);
      for i := 0 to |records|
        invariant Valid() && cache.Reached(now)
        invariant Abs() == ReceiveAll(s, records[..i]) && (relevant <==> AnyRelevant(s, records[..i]))
        invariant cache.log == log + Logged(s, records[..i], sender, now)
      {
        OneMoreReceived(s, records, i, sender, now);
        Assoc(log, Logged(s, records[..i], sender, now), [Cache.Insertion(now, records[i], sender)]);
        var wanted := ReceiveRecord(records[i], sender, now);
        relevant := relevant || wanted;
      }
      assert records[..|records|] == records;
    }

    /** One record of a packet: dropped, or cached and then processed. */
    method ReceiveRecord(r: Record, sender: Cache.Endpoint, now: int) returns (relevant: bool)
      requires Valid() && cache.Reached(now)
      modifies this, cache
      ensures Valid() && cache.Reached(now)
      ensures relevant <==> IsRelevant(old(Abs()), r)
      ensures Abs() == if relevant then Process(old(Abs()), r) else old(Abs())
      ensures cache.log == if relevant then old(cache.log) + [Cache.Insertion(now, r, sender)] else old(cache.log)
    {
      hide Process, IsRelevant, Good, Next;
      relevant := Relevant(r);
      if relevant {
        ghost var x := System(Abs(), cache.log);
        ghost var x' := System(Process(Abs(), r), cache.log + [Cache.Insertion(now, r, sender)]);
        GoodIsDisjoint(x, cache.grace);
        ReceiveIsNext(x, r, sender, now, cache.grace);
        NextKeepsGood(x, Receive(now, r, sender), x', cache.grace);
        cache.Insert(r, sender, now);
        HandleRecord(r);
      }
    }

    predicate Relevant(r: Record)
      reads this
      ensures Relevant(r) <==> IsRelevant(Abs(), r)
    {
      match r
      case Ptr(hdr, _) => hdr.name in watches
      case Srv(hdr, _, _, _, _) => hdr.name in partials || hdr.name in live
      case Txts(hdr, _) => hdr.name in partials || hdr.name in live
      case A(hdr, _) => hdr.name in hostnames
      case Aaaa(hdr, _) => hdr.name in hostnames
    }

    /** The expiry sweep of every scheduler tick. */
    method SweepCache(now: int)
      requires Valid() && cache.Reached(now)
      modifies this, cache
      ensures Valid() && cache.Reached(now)
      ensures cache.log == old(cache.log) + [Cache.Sweep(now)]
      ensures exists order :: Enumerates(order, old(RecordCaches.Contents(cache.entries)), now)
                              && Abs() == ExpireAll(old(Abs()), order)
      ensures forall n :: n in live ==> exists k ::
                && 0 <= k < |old(cache.log)| && old(cache.log)[k].Insertion?
                && IsSrv(old(cache.log)[k].record, n, live[n].hostname, live[n].port)
                && Cache.StillGood(old(cache.log), k, now, cache.grace)
    {
      hide Good, Cache.IsExpired, Cache.StillGood, Cache.Run, RecordCaches.Contents, ExpireAll, Cache.Present;
      ghost var x, es := System(Abs(), cache.log), cache.entries;
      var expired := cache.EraseExpired(now);
      var records := RecordsOf(expired);
      ghost var m := Cache.Run(x.log, cache.grace);
      assert Enumerates(records, m, now) by {
        ExpiredAreEnumerated(es, expired, records, now);
      }
      ghost var x' := System(ExpireAll(x.mon, records), x.log + [Cache.Sweep(now)]);
      assert Next(x, Expiry(now, records), x', cache.grace) by { SteadyClock(x.log, now); }
      NextKeepsGood(x, Expiry(now, records), x', cache.grace);
      HandleExpired(records);
      forall n | n in live
        ensures exists k :: 0 <= k < |x.log| && x.log[k].Insertion?
                  && IsSrv(x.log[k].record, n, live[n].hostname, live[n].port)
                  && Cache.StillGood(x.log, k, now, cache.grace)
      {
        var k := LiveIsFresh(x, now, records, x', cache.grace, n);
      }
    }

    method DoWatch(serviceType: Name)
      requires Valid()
      modifies this
      ensures Valid() && Abs() == Watch(old(Abs()), serviceType)
    {
      hide Good;
      ghost var x := System(Abs(), cache.log);
      NextKeepsGood(x, StartWatch(serviceType), x.(mon := Watch(x.mon, serviceType)), cache.grace);
      watches := watches + {serviceType};
    }

    method DoUnwatch(serviceType: Name)
      requires Valid()
      modifies this
      ensures Valid() && Abs() == Unwatch(old(Abs()), serviceType)
    {
      hide Good, Unwatch;
      ghost var x := System(Abs(), cache.log);
      NextKeepsGood(x, StopWatch(serviceType), x.(mon := Unwatch(x.mon, serviceType)), cache.grace);
      DropType(serviceType);
    }

    /** The loops of do_unwatch, one after the other. */
    method DropType(t: Name)
      modifies this
      ensures Abs() == Unwatch(old(Abs()), t)
    {
      hide Traced, LostCalls, PartialsNotOfType, TypesWithout, Hostnames;
      if t !in watches {
        return;
      }
      var gone := CollectLive(live, types, t);
      LoseAll(gone);
      partials := ErasePartials(partials, t);
      types := EraseTypes(types, t);
      hostnames := CollectHostnames(live, partials);
      watches := watches - {t};
      goodbyes := {};
      snapshot := live;
    }

    method LoseAll(gone: map<Name, Service>)
      requires forall n :: n in gone ==> n in live && live[n] == gone[n]
      modifies this`live, this`trace
      ensures live == old(live) - gone.Keys && trace == Traced(old(trace), LostCalls(gone, Unwatched))
    {
      hide Traced, LostCalls;
      ghost var done: map<Name, Service> := map[];
      var todo := gone.Keys;
      NoLoss(trace);
      while todo != {}
        invariant todo <= gone.Keys && done.Keys == gone.Keys - todo
        invariant forall n :: n in done ==> done[n] == gone[n]
        invariant live == old(live) - done.Keys && trace == Traced(old(trace), LostCalls(done, Unwatched))
        decreases todo
      {
        var n :| n in todo;
        todo := todo - {n};
        LoseOneMore(old(trace), done, n, gone[n]);
        assert n in live && live[n] == gone[n];
        trace := Traced(trace, map[n := Lost(live[n], Unwatched)]);
        live := live - {n};
        done := done[n := gone[n]];
      }
      assert done == gone;
    }
  }

  // ---------------------------------------------------------------- support

  method CollectLive(live: map<Name, Service>, types: map<Name, Name>, t: Name) returns (gone: map<Name, Service>)
    ensures gone == LiveOfType(live, types, t)
  {
    gone := map[];
    var left := live.Keys;
    while left != {}
      invariant left <= live.Keys
      invariant forall n :: n in gone <==> n in live && n !in left && n in types && types[n] == t
      invariant forall n :: n in gone ==> gone[n] == live[n]
    {
      var n :| n in left;
      left := left - {n};
      if n in types && types[n] == t {
        gone := gone[n := live[n]];
      }
    }
  }

  method ErasePartials(partials: map<Name, Partial>, t: Name) returns (kept: map<Name, Partial>)
    ensures kept == PartialsNotOfType(partials, t)
  {
    kept := partials;
    var left := partials.Keys;
    while left != {}
      invariant left <= partials.Keys
      invariant forall n :: n in kept <==> n in partials && (n in left || partials[n].serviceType != t)
      invariant forall n :: n in kept ==> kept[n] == partials[n]
    {
      var n :| n in left;
      left := left - {n};
      if partials[n].serviceType == t {
        kept := kept - {n};
      }
    }
  }

  method EraseTypes(types: map<Name, Name>, t: Name) returns (kept: map<Name, Name>)
    ensures kept == TypesWithout(types, t)
  {
    kept := types;
    var left := types.Keys;
    while left != {}
      invariant left <= types.Keys
      invariant forall n :: n in kept <==> n in types && (n in left || types[n] != t)
      invariant forall n :: n in kept ==> kept[n] == types[n]
    {
      var n :| n in left;
      left := left - {n};
      if types[n] == t {
        kept := kept - {n};
      }
    }
  }

  method CollectHostnames(live: map<Name, Service>, partials: map<Name, Partial>) returns (hosts: set<Name>)
    ensures hosts == Hostnames(live, partials)
  {
    hosts := {};
    var left := live.Keys;
    while left != {}
      invariant left <= live.Keys
      invariant hosts == set n | n in live && n !in left && live[n].hostname != [] :: live[n].hostname
    {
      var n :| n in left;
      left := left - {n};
      if live[n].hostname != [] {
        hosts := hosts + {live[n].hostname};
      }
    }
    left := partials.Keys;
    ghost var before := hosts;
    while left != {}
      invariant left <= partials.Keys
      invariant hosts == before + set n | n in partials && n !in left && partials[n].svc.hostname != []
                                   :: partials[n].svc.hostname
    {
      var n :| n in left;
      left := left - {n};
      if partials[n].svc.hostname != [] {
        hosts := hosts + {partials[n].svc.hostname};
      }
    }
  }

  method RemoveEntries(es: seq<Txt>, gone: seq<Txt>) returns (txt: seq<Txt>, changed: bool)
    ensures txt == RemoveKeys(es, gone) && (changed <==> txt != es)
  {
    hide KeyIndex;
    txt, changed := es, false;
    assert gone[..0] == [];
    for i := 0 to |gone|
      invariant txt == RemoveKeys(es, gone[..i])
      invariant |txt| <= |es| && (changed <==> |txt| < |es|) && (!changed ==> txt == es)
    {
      assert gone[..i + 1][..i] == gone[..i];
      var k := KeyIndex(txt, gone[i].key);
      if k < |txt| {
        txt := txt[..k] + txt[k + 1..];
        changed := true;
      }
    }
    assert gone[..|gone|] == gone;
  }

  method RecordsOf(es: seq<Cache.Entry>) returns (rs: seq<Record>)
    ensures |rs| == |es| && forall i :: 0 <= i < |es| ==> rs[i] == es[i].record
  {
    rs := [];
    for i := 0 to |es|
      invariant |rs| == i && forall k :: 0 <= k < i ==> rs[k] == es[k].record
    {
      rs := rs + [es[i].record];
    }
  }

  lemma ExpiredAreEnumerated(es: seq<Cache.Entry>, expired: seq<Cache.Entry>, records: seq<Record>, now: int)
    requires RecordCaches.Distinct(es)
    requires forall e :: e in expired <==> e in es && Cache.IsExpired(e, now)
    requires |records| == |expired| && forall i :: 0 <= i < |expired| ==> records[i] == expired[i].record
    ensures Enumerates(records, RecordCaches.Contents(es), now)
  {
    hide Cache.IsExpired, RecordCaches.Contents, Cache.Identity;
    var m := RecordCaches.Contents(es);
    forall r
      ensures r in records <==> exists id :: id in m && Cache.IsExpired(m[id], now) && m[id].record == r
    {
      if r in records {
        var i :| 0 <= i < |records| && records[i] == r;
        assert expired[i] in expired;
        var k :| 0 <= k < |es| && es[k] == expired[i];
        RecordCaches.FoundIn(es, k);
      }
      if id :| id in m && Cache.IsExpired(m[id], now) && m[id].record == r {
        RecordCaches.AbsentKey(es, id);
        assert m[id] in expired;
      }
    }
  }

  lemma NothingReceived(s: State, rs: seq<Record>, sender: Cache.Endpoint, now: int)
    ensures ReceiveAll(s, rs[..0]) == s && !AnyRelevant(s, rs[..0]) && Logged(s, rs[..0], sender, now) == []
  {
  }

  lemma OneMoreReceived(s: State, rs: seq<Record>, i: nat, sender: Cache.Endpoint, now: int)
    requires i < |rs|
    ensures var s1 := ReceiveAll(s, rs[..i]);
            var wanted := IsRelevant(s1, rs[i]);
            && ReceiveAll(s, rs[..i + 1]) == (if wanted then Process(s1, rs[i]) else s1)
            && (AnyRelevant(s, rs[..i + 1]) <==> AnyRelevant(s, rs[..i]) || wanted)
            && Logged(s, rs[..i + 1], sender, now) ==
               if wanted then Logged(s, rs[..i], sender, now) + [Cache.Insertion(now, rs[i], sender)]
               else Logged(s, rs[..i], sender, now)
  {
    hide IsRelevant, Process;
    assert rs[..i + 1][..i] == rs[..i];
  }

  lemma ReceiveIsNext(x: System, r: Record, sender: Cache.Endpoint, now: int, grace: u32)
    requires IsRelevant(x.mon, r) && forall i :: 0 <= i < |x.log| ==> x.log[i].time <= now
    ensures Next(x, Receive(now, r, sender),
                 System(Process(x.mon, r), x.log + [Cache.Insertion(now, r, sender)]), grace)
  {
    hide IsRelevant, Process;
  }

  lemma SteadyClock(log: seq<Cache.Event>, now: int)
    requires forall i :: 0 <= i < |log| ==> log[i].time <= now
    ensures Reached(log, now)
  {
  }

  lemma GoodIsDisjoint(x: System, grace: u32)
    requires Good(x, grace)
    ensures x.mon.partials.Keys !! x.mon.live.Keys
  {
  }

  lemma NoLoss(trace: map<Name, seq<Call>>)
    ensures Traced(trace, LostCalls(map[], Unwatched)) == trace
  {
  }

  lemma NoUpdate(s: State, added: bool, rtype: u16)
    ensures Update(s, map[], added, rtype) == s
  {
    assert s.live + map[] == s.live;
  }

  lemma NoPromotion(s: State)
    ensures Promote(s, map[]) == s
  {
    var none: map<Name, Service> := map[];
    assert none + s.live == s.live && s.partials - none.Keys == s.partials;
  }

  lemma UpdateLiveMap(s: State, f: map<Name, Service>, added: bool, rtype: u16)
    ensures Update(s, f, added, rtype).live == s.live + f
  {
    hide Report;
    ReportFrame(s, s.live + f, UpdatedCalls(f, added, rtype));
  }

  lemma PromotedFrame(s: State, g: map<Name, Service>)
    ensures Promote(s, g).live == g + s.live && Promote(s, g).partials == s.partials - g.Keys
  {
    hide Report;
    ReportFrame(s.(partials := s.partials - g.Keys), g + s.live, FoundCalls(g));
  }

  lemma PartialsGainKeys(s: State, host: Name, x: Addr, v6: bool)
    ensures PartialsGain(s, host, x, v6).Keys == s.partials.Keys
  {
  }

  lemma LoseOneMore(trace: map<Name, seq<Call>>, done: map<Name, Service>, n: Name, svc: Service)
    requires n !in done
    ensures Traced(Traced(trace, LostCalls(done, Unwatched)), map[n := Lost(svc, Unwatched)])
         == Traced(trace, LostCalls(done[n := svc], Unwatched))
  {
    hide Traced;
    assert LostCalls(done, Unwatched) + map[n := Lost(svc, Unwatched)] == LostCalls(done[n := svc], Unwatched);
    TracedTwice(trace, LostCalls(done, Unwatched), map[n := Lost(svc, Unwatched)]);
  }
}
