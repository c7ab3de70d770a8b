/** A promise the monitor does not keep, shown by a run of it: a service is
    reported lost although the SRV record it rests on is good for an hour more. */
module MonitorCounterexample {
  import opened Bytes
  import opened Names
  import opened Records
  import Cache = CacheModel
  import opened MonitorModel
  import opened MonitorInvariant
  import opened MonitorRuns

  function Head(name: Name, ttl: u32): Header { Header(name, ttl, CLASS_IN, false) }

  function OldSrv(n: Name, host: Name): Record { Srv(Head(n, 10), 0, 0, 80, host) }

  function NewSrv(n: Name, host: Name): Record { Srv(Head(n, 4500), 0, 0, 80, host) }

  /** The six events: watch, PTR, SRV for 10 s, address, SRV to another host for
      4500 s, and a sweep after 10 s. */
  function Log(t: Name, n: Name, h1: Name, h2: Name, x: Addr, o: Cache.Endpoint): seq<Cache.Event> {
    [Cache.Insertion(0, Ptr(Head(t, 4500), n), o), Cache.Insertion(0, OldSrv(n, h1), o),
     Cache.Insertion(0, A(Head(h1, 4500), x), o), Cache.Insertion(0, NewSrv(n, h2), o)]
  }

  function State1(t: Name, n: Name): State { ProcessPtr(Watch(INITIAL, t), t, n) }

  function State2(t: Name, n: Name, h1: Name): State { ProcessSrv(State1(t, n), n, 10, h1, 80) }

  ghost function State3(t: Name, n: Name, h1: Name, x: Addr): State { ProcessAddress(State2(t, n, h1), h1, x, false) }

  ghost function State4(t: Name, n: Name, h1: Name, h2: Name, x: Addr): State {
    ProcessSrv(State3(t, n, h1, x), n, 4500, h2, 80)
  }

  lemma Resolving(t: Name, n: Name, h1: Name, x: Addr)
    ensures var s := State2(t, n, h1);
            && s.partials == map[n := Partial(t, true, false, Service(n, h1, 80, [], [], []))]
            && s.live == map[] && h1 in s.hostnames
  {
  }

  lemma Promoted(t: Name, n: Name, h1: Name, x: Addr)
    ensures var s := State3(t, n, h1, x);
            n in s.live && s.live[n].hostname == h1 && n !in s.partials
  {
    hide ProcessSrv, Report;
    Resolving(t, n, h1, x);
    var s := State2(t, n, h1);
    var s1 := s.(partials := PartialsGain(s, h1, x, false));
    assert Gains(s.partials[n].svc, h1, x, false);
    assert AnyPartialGains(s, h1, x, false);
    var g := Complete(s1.partials, h1);
    assert n in g && g[n].hostname == h1;
    ReportFrame(s1.(partials := s1.partials - g.Keys), g + s1.live, FoundCalls(g));
    var s2 := AddressToPartials(s, h1, x, false);
    assert n in s2.live && s2.live[n].hostname == h1 && n !in s2.partials;
    var f := LiveGains(s2.live, h1, x, false);
    ReportFrame(s2, s2.live + f, UpdatedCalls(f, true, AddrType(false)));
  }

  lemma Moved(t: Name, n: Name, h1: Name, h2: Name, x: Addr)
    requires h1 != h2
    ensures var s := State4(t, n, h1, h2, x); n in s.live && s.live[n].hostname == h2
  {
    hide State3, Report;
    Promoted(t, n, h1, x);
    var s := State3(t, n, h1, x);
    var svc := s.live[n].(hostname := h2, port := 80);
    var calls := UpdatedCalls(map[n := svc], true, TYPE_SRV);
    ReportFrame(s.(hostnames := s.hostnames + {h2}), s.live + map[n := svc], calls);
  }

  lemma PlainInsertion(log: seq<Cache.Event>, r: Record, o: Cache.Endpoint, id: Record, grace: u32)
    requires !r.hdr.flush
    ensures Cache.LeaseOf(log + [Cache.Insertion(0, r, o)], id, grace) ==
              if Cache.Identity(r) == id then Some(Cache.Lease(o, Cache.EffectiveTtl(r, grace) * Cache.SECOND))
              else Cache.LeaseOf(log, id, grace)
  {
    var log' := log + [Cache.Insertion(0, r, o)];
    assert log'[..|log'| - 1] == log;
  }

  lemma Leases(t: Name, n: Name, h1: Name, h2: Name, x: Addr, o: Cache.Endpoint, grace: u32, id: Record)
    requires h1 != h2
    ensures var lease := Cache.LeaseOf(Log(t, n, h1, h2, x, o), id, grace);
            if id == Cache.Identity(OldSrv(n, h1)) then lease == Some(Cache.Lease(o, 10 * Cache.SECOND))
            else lease.Some? ==> lease.value.expiry == 4500 * Cache.SECOND
  {
    hide Cache.LeaseOf;
    var log := Log(t, n, h1, h2, x, o);
    LogParts(t, n, h1, h2, x, o);
    PlainInsertion([], log[0].record, o, id, grace);
    PlainInsertion(log[..1], log[1].record, o, id, grace);
    PlainInsertion(log[..2], log[2].record, o, id, grace);
    PlainInsertion(log[..3], log[3].record, o, id, grace);
    assert Cache.LeaseOf([], id, grace) == None by { NoLease(id, grace); }
  }

  lemma NoLease(id: Record, grace: u32)
    ensures Cache.LeaseOf([], id, grace) == None
  {
  }

  lemma LogParts(t: Name, n: Name, h1: Name, h2: Name, x: Addr, o: Cache.Endpoint)
    ensures var log := Log(t, n, h1, h2, x, o);
            && [] + [log[0]] == log[..1] && log[..1] + [log[1]] == log[..2]
            && log[..2] + [log[2]] == log[..3] && log[..3] + [log[3]] == log
            && forall i :: 0 <= i < 4 ==> log[i].time == 0
  {
  }

  /** Receiving a relevant record at time 0. */
  lemma Received(s: State, log: seq<Cache.Event>, r: Record, o: Cache.Endpoint, grace: u32)
    requires IsRelevant(s, r) && forall i :: 0 <= i < |log| ==> log[i].time == 0
    requires Reachable(System(s, log), grace)
    ensures Reachable(System(Process(s, r), log + [Cache.Insertion(0, r, o)]), grace)
  {
    hide IsRelevant, Process, Reachable;
    var x' := System(Process(s, r), log + [Cache.Insertion(0, r, o)]);
    ReachableStep(System(s, log), Receive(0, r, o), x', grace);
  }

  lemma FirstSteps(t: Name, n: Name, h1: Name, h2: Name, x: Addr, o: Cache.Endpoint, grace: u32)
    requires h1 != h2
    ensures Reachable(System(State3(t, n, h1, x), Log(t, n, h1, h2, x, o)[..3]), grace)
    ensures Reachable(System(State4(t, n, h1, h2, x), Log(t, n, h1, h2, x, o)), grace)
  {
    hide Next, Reachable, ProcessSrv, ProcessAddress, Watch, ProcessPtr;
    var log := Log(t, n, h1, h2, x, o);
    LogParts(t, n, h1, h2, x, o);
    ReachableStart(grace);
    Watched(t, grace);
    ReachableStep(System(INITIAL, []), StartWatch(t), System(Watch(INITIAL, t), []), grace);
    Seeded(t, n);
    Received(Watch(INITIAL, t), [], log[0].record, o, grace);
    Received(State1(t, n), log[..1], log[1].record, o, grace);
    Resolving(t, n, h1, x);
    Received(State2(t, n, h1), log[..2], log[2].record, o, grace);
    Promoted(t, n, h1, x);
    Received(State3(t, n, h1, x), log[..3], log[3].record, o, grace);
  }

  lemma Seeded(t: Name, n: Name)
    ensures t in Watch(INITIAL, t).watches && n in State1(t, n).partials
  {
  }

  /** Not a promise the monitor keeps: "a service stays listed while its SRV record is good". */
  lemma SupersededSrvEndsService(t: Name, n: Name, h1: Name, h2: Name, x: Addr, o: Cache.Endpoint, grace: u32)
    returns (before: System, order: seq<Record>, after: System)
    requires h1 != h2
    ensures Reachable(before, grace) && Next(before, Expiry(10 * Cache.SECOND, order), after, grace)
    ensures n in before.mon.live && before.mon.live[n].hostname == h2
    ensures Cache.Present(before.log, Cache.Identity(NewSrv(n, h2)), 10 * Cache.SECOND, grace)
    ensures n !in after.mon.live
  {
    hide State1, State2, State3, State4, Cache.Run, ExpireAll, Enumerates, Next, Reachable, Log;
    var log, s4 := Log(t, n, h1, h2, x, o), State4(t, n, h1, h2, x);
    order := ExpiredOrder(t, n, h1, h2, x, o, grace);
    before, after := System(s4, log), System(ExpireAll(s4, order), log + [Cache.Sweep(10 * Cache.SECOND)]);
    FirstSteps(t, n, h1, h2, x, o, grace);
    LastStep(t, n, h1, h2, x, o, grace, order);
    Moved(t, n, h1, h2, x);
    LiveAfterExpiry(s4, order, n);
    StillThere(t, n, h1, h2, x, o, grace);
  }

  lemma Watched(t: Name, grace: u32)
    ensures Next(System(INITIAL, []), StartWatch(t), System(Watch(INITIAL, t), []), grace)
  {
  }

  lemma LastStep(t: Name, n: Name, h1: Name, h2: Name, x: Addr, o: Cache.Endpoint, grace: u32, order: seq<Record>)
    requires Enumerates(order, Cache.Run(Log(t, n, h1, h2, x, o), grace), 10 * Cache.SECOND)
    ensures var log, s := Log(t, n, h1, h2, x, o), State4(t, n, h1, h2, x);
            Next(System(s, log), Expiry(10 * Cache.SECOND, order),
                 System(ExpireAll(s, order), log + [Cache.Sweep(10 * Cache.SECOND)]), grace)
  {
    hide State4, Cache.Run, ExpireAll, Enumerates;
    LogParts(t, n, h1, h2, x, o);
  }

  lemma StillThere(t: Name, n: Name, h1: Name, h2: Name, x: Addr, o: Cache.Endpoint, grace: u32)
    ensures Cache.Present(Log(t, n, h1, h2, x, o), Cache.Identity(NewSrv(n, h2)), 10 * Cache.SECOND, grace)
  {
    var log := Log(t, n, h1, h2, x, o);
    assert Cache.LastInsertion(log, Cache.Identity(NewSrv(n, h2)), 3);
    assert Cache.StillGood(log, 3, 10 * Cache.SECOND, grace);
  }

  lemma ExpiredOrder(t: Name, n: Name, h1: Name, h2: Name, x: Addr, o: Cache.Endpoint, grace: u32)
    returns (order: seq<Record>)
    requires h1 != h2
    ensures Enumerates(order, Cache.Run(Log(t, n, h1, h2, x, o), grace), 10 * Cache.SECOND)
    ensures |order| == 1 && order[0].Srv? && order[0].hdr.name == n
  {
    hide Cache.Run, Cache.LeaseOf, Cache.IsExpired;
    var log, end := Log(t, n, h1, h2, x, o), 10 * Cache.SECOND;
    var m, id := Cache.Run(log, grace), Cache.Identity(OldSrv(n, h1));
    Cache.RunTracks(log, grace);
    Leases(t, n, h1, h2, x, o, grace, id);
    assert id in m && Cache.EntryTracks(m[id], id, Cache.LeaseOf(log, id, grace));
    order := [m[id].record];
    forall k | k in m
      ensures Cache.IsExpired(m[k], end) <==> k == id
    {
      assert Cache.EntryTracks(m[k], k, Cache.LeaseOf(log, k, grace));
      Leases(t, n, h1, h2, x, o, grace, k);
    }
  }
}
