/** Unwatching a type leaves the cache alone, and what that means for a service that
    is found again (lib/mdnspp/include/mdnspp/basic_service_monitor.h). */
module UnwatchLeftovers {
  import opened Bytes
  import opened Names
  import opened Records
  import Cache = CacheModel
  import opened MonitorModel
  import opened MonitorInvariant
  import opened MonitorRuns
  import opened Discovery
  import opened MonitorCounterexample

  lemma ReachableIsGood(x: System, grace: u32)
    requires Reachable(x, grace)
    ensures Good(x, grace)
  {
    hide Good;
    var xs, inputs :| Behavior(xs, inputs, grace) && xs[|xs| - 1] == x;
    RunsAreGood(xs, inputs, grace, |xs| - 1);
  }

  // ---------------------------------------------------------------- the purge

  /** Nothing is cached any more under an instance that has just been dropped. */
  ghost predicate Purged(x: System, x': System, grace: u32) {
    forall n :: n in Tracks(x.mon) && n !in Tracks(x'.mon) ==> NothingUnder(n, Cache.Run(x'.log, grace))
  }

  ghost predicate NothingUnder(n: Name, m: Cache.Store) {
    forall id :: id in m ==> id.hdr.name != n
  }

  /** "Their cache entries are purged" holds exactly if there was nothing to purge; and
      there always is if a service of the type was listed. */
  lemma PurgeIsExact(x: System, t: Name, x': System, grace: u32)
    requires Good(x, grace) && Next(x, StopWatch(t), x', grace) && t in x.mon.watches
    ensures Purged(x, x', grace) <==>
            forall n :: n in Tracks(x.mon) && x.mon.types[n] == t ==> NothingUnder(n, Cache.Run(x.log, grace))
    ensures Purged(x, x', grace) ==> forall n :: n in x.mon.live ==> x.mon.types[n] != t
  {
    hide Cache.Run;
    forall n | n in Tracks(x.mon)
      ensures n in x.mon.types && (n !in Tracks(x'.mon) <==> x.mon.types[n] == t)
    {
      DroppedByType(x.mon, t, n);
    }
    forall n | n in x.mon.live && x.mon.types[n] == t
      ensures !Purged(x, x', grace)
    {
      assert HasTarget(x.mon, n, x.mon.live[n].hostname, x.mon.live[n].port);
      var id :| id in Cache.Run(x.log, grace) && IsSrv(id, n, x.mon.live[n].hostname, x.mon.live[n].port);
      assert n in Tracks(x.mon) && n !in Tracks(x'.mon) && !NothingUnder(n, Cache.Run(x'.log, grace));
    }
  }

  lemma DroppedByType(s: State, t: Name, n: Name)
    requires Inv(s) && t in s.watches && n in Tracks(s)
    ensures n in s.types && (n !in Tracks(Unwatch(s, t)) <==> s.types[n] == t)
  {
    if n in s.live {
      assert Tracked(s, n, s.live[n]);
    } else {
      assert PartialOk(s, n, s.partials[n]);
    }
  }

  // ---------------------------------------------------------------- the leftover

  /** Some order in which the expired entries can be handed over. */
  lemma {:induction false} SomeOrder(m: Cache.Store, time: int, ids: set<Record>) returns (order: seq<Record>)
    requires ids <= m.Keys
    ensures forall r :: r in order <==> exists id :: id in ids && Cache.IsExpired(m[id], time) && m[id].record == r
    decreases ids
  {
    hide Cache.IsExpired;
    order := [];
    if ids != {} {
      var id :| id in ids;
      var rest := SomeOrder(m, time, ids - {id});
      order := if Cache.IsExpired(m[id], time) then rest + [m[id].record] else rest;
    }
  }

  /** One more record in the log. */
  function Grown(log: seq<Cache.Event>, r: Record, o: Cache.Endpoint, now: int): seq<Cache.Event> {
    log + [Cache.Insertion(now, r, o)]
  }

  lemma ReceiveAt(s: State, log: seq<Cache.Event>, r: Record, o: Cache.Endpoint, now: int, grace: u32)
    requires IsRelevant(s, r) && Reached(log, now) && Reachable(System(s, log), grace)
    ensures Reachable(System(Process(s, r), Grown(log, r, o, now)), grace) && Reached(Grown(log, r, o, now), now)
  {
    hide IsRelevant, Process, Reachable;
    ReachableStep(System(s, log), Receive(now, r, o), System(Process(s, r), Grown(log, r, o, now)), grace);
  }

  /** A record of another identity never prolongs an entry; with the flush bit, from
      another origin and for the same name and type, it leaves it the grace period. */
  lemma EntryStays(log: seq<Cache.Event>, r: Record, o: Cache.Endpoint, now: int, grace: u32, id: Record)
    requires id in Cache.Run(log, grace) && Cache.Identity(r) != id
    requires Cache.Identity(Cache.Run(log, grace)[id].record) == id
    ensures var m, m' := Cache.Run(log, grace), Cache.Run(Grown(log, r, o, now), grace);
            && id in m' && m'[id].origin == m[id].origin && Cache.Identity(m'[id].record) == id
            && (forall t :: Cache.IsExpired(m[id], t) ==> Cache.IsExpired(m'[id], t))
            && (r.hdr.flush && Cache.SameKey(id, r) && m[id].origin != o ==>
                  forall t :: t >= now + grace * Cache.SECOND ==> Cache.IsExpired(m'[id], t))
  {
    hide Cache.Fresh;
    var log' := Grown(log, r, o, now);
    assert log'[..|log'| - 1] == log;
    hide Cache.Identity;
    assert Cache.SameKey(Cache.Run(log, grace)[id].record, r) == Cache.SameKey(id, r) by {
      SameKeyAsIdentity(Cache.Run(log, grace)[id].record, r);
    }
  }

  lemma SameKeyAsIdentity(e: Record, r: Record)
    ensures Cache.SameKey(e, r) <==> Cache.SameKey(Cache.Identity(e), r)
  {
  }

  /** The SRV record that a later search brings, and its host's address. */
  ghost predicate NewData(n: Name, srv: Record, a: Record) {
    && srv.Srv? && srv.hdr.name == n
    && (a.A? || a.Aaaa?) && a.hdr.name == srv.target
  }

  lemma FoundAgain(x: System, t: Name, n: Name, srv: Record, a: Record, o: Cache.Endpoint, now: int, grace: u32)
    returns (s: State)
    requires Reachable(x, grace) && Reached(x.log, now) && NewData(n, srv, a)
    requires n in x.mon.live && n in x.mon.types && x.mon.types[n] == t
    ensures var log := Grown(Grown(Grown(x.log, Ptr(Head(t, 4500), n), o, now), srv, o, now), a, o, now);
            Reachable(System(s, log), grace) && Reached(log, now)
    ensures n in s.live && s.live[n].hostname == srv.target && s.live[n].port == srv.port
  {
    hide Reachable, Good, Inv, Unwatch, Watch, ProcessPtr, ProcessSrv, ProcessAddress, Reached, Next, Look;
    var ptr := Ptr(Head(t, 4500), n);
    var s2 := Watch(Unwatch(x.mon, t), t);
    WatchedAnew(x, t, n, grace);
    ReceiveAt(s2, x.log, ptr, o, now, grace);
    PtrSeen(s2, t, n);
    var s3, log1 := Process(s2, ptr), Grown(x.log, ptr, o, now);
    PartIsRelevant(s3, n, srv);
    ReceiveAt(s3, log1, srv, o, now, grace);
    SrvSeen(s3, n, srv.hdr.ttl, srv.target, srv.port, Look(s3, n).partial);
    var s4, log2 := Process(s3, srv), Grown(log1, srv, o, now);
    ReceiveAt(s4, log2, a, o, now, grace);
    ReachableDisjoint(System(s4, log2), grace);
    var svc := Look(s4, n).partial.svc;
    AddressSeen(s4, srv.target, a.addr, a.Aaaa?, n, svc);
    s := Process(s4, a);
    GainedHost(svc, a.addr, a.Aaaa?);
    ListedIsLive(s, n);
  }

  lemma PartIsRelevant(s: State, n: Name, srv: Record)
    requires Look(s, n).Part? && srv.Srv? && srv.hdr.name == n
    ensures IsRelevant(s, srv)
  {
  }

  lemma ListedIsLive(s: State, n: Name)
    requires Look(s, n).Listed?
    ensures n in s.live && s.live[n] == Look(s, n).svc
  {
  }

  /** Unwatched and watched again, the type's instances are unknown. */
  lemma WatchedAnew(x: System, t: Name, n: Name, grace: u32)
    requires Reachable(x, grace) && n in x.mon.live && n in x.mon.types && x.mon.types[n] == t
    ensures var s2 := Watch(Unwatch(x.mon, t), t);
            && Reachable(System(s2, x.log), grace) && t in s2.watches && Look(s2, n) == Unknown
  {
    hide Reachable, Next, Coupled, Told;
    ReachableIsGood(x, grace);
    assert t in x.mon.watches by { assert Tracked(x.mon, n, x.mon.live[n]); }
    DroppedByType(x.mon, t, n);
    NextWatch(x, t, grace);
    ReachableStep(x, StopWatch(t), System(Unwatch(x.mon, t), x.log), grace);
    ReachableStep(System(Unwatch(x.mon, t), x.log), StartWatch(t), System(Watch(Unwatch(x.mon, t), t), x.log), grace);
  }

  lemma NextWatch(x: System, t: Name, grace: u32)
    ensures Next(x, StopWatch(t), System(Unwatch(x.mon, t), x.log), grace)
    ensures Next(System(Unwatch(x.mon, t), x.log), StartWatch(t), System(Watch(Unwatch(x.mon, t), t), x.log), grace)
  {
    hide Unwatch, Watch;
  }

  lemma ReachableDisjoint(x: System, grace: u32)
    requires Reachable(x, grace)
    ensures x.mon.partials.Keys !! x.mon.live.Keys
  {
    ReachableIsGood(x, grace);
  }

  /** The leftover entry has expired by `end`: its time is up, or the new SRV record has
      flushed it from another origin. */
  ghost predicate LeftoverGone(e: Cache.Entry, srv: Record, o: Cache.Endpoint, now: int, end: int, grace: u32) {
    Cache.IsExpired(e, end) || (srv.hdr.flush && e.origin != o && end >= now + grace * Cache.SECOND)
  }

  /** What unwatching leaves in the cache comes back: a listed service is unwatched,
      watched again and found again with a new SRV record, with or without the flush bit
      and over either address family. The moment its old SRV record expires, or is flushed
      by the new one, it is reported lost, although the new one is good. */
  lemma LeftoverEndsRediscovered(x: System, t: Name, n: Name, old': Record, srv: Record, a: Record,
                                 o: Cache.Endpoint, now: int, end: int, grace: u32) returns (before: System)
    requires Reachable(x, grace) && Reached(x.log, now)
    requires now <= end < now + Cache.EffectiveTtl(srv, grace) * Cache.SECOND
    requires n in x.mon.live && n in x.mon.types && x.mon.types[n] == t && NewData(n, srv, a)
    requires old' in Cache.Run(x.log, grace) && old'.Srv? && old'.hdr.name == n && old' != Cache.Identity(srv)
    requires LeftoverGone(Cache.Run(x.log, grace)[old'], srv, o, now, end, grace)
    ensures Reachable(before, grace) && n in before.mon.live
    ensures before.mon.live[n].hostname == srv.target && before.mon.live[n].port == srv.port
    ensures Cache.Present(before.log, Cache.Identity(srv), end, grace)
    ensures exists order, after :: Next(before, Expiry(end, order), after, grace)
    ensures forall order, after :: Next(before, Expiry(end, order), after, grace) ==> n !in after.mon.live
  {
    hide Reachable, Cache.Run, Cache.IsExpired, ExpireAll, Good;
    var ptr := Ptr(Head(t, 4500), n);
    LogIsFiled(x, grace);
    var s := FoundAgain(x, t, n, srv, a, o, now, grace);
    var log1 := Grown(x.log, ptr, o, now);
    var log2 := Grown(log1, srv, o, now);
    var log3 := Grown(log2, a, o, now);
    before := System(s, log3);
    EntryStays(x.log, ptr, o, now, grace, old');
    EntryStays(log1, srv, o, now, grace, old');
    EntryStays(log2, a, o, now, grace, old');
    ReachableIsGood(before, grace);
    NewIsPresent(x.log, ptr, srv, a, o, now, end, grace);
    var m := Cache.Run(log3, grace);
    var order := SomeOrder(m, end, m.Keys);
    assert Next(before, Expiry(end, order), System(ExpireAll(s, order), log3 + [Cache.Sweep(end)]), grace);
    forall order, after | Next(before, Expiry(end, order), after, grace)
      ensures n !in after.mon.live
    {
      LossIsExact(before, end, order, after, grace, n);
    }
  }

  lemma LogIsFiled(x: System, grace: u32)
    requires Reachable(x, grace)
    ensures Filed(Cache.Run(x.log, grace))
  {
    hide Cache.Run, Reachable, Inv, Coupled;
    ReachableIsGood(x, grace);
    RunIsFiled(x.log, grace);
  }

  lemma NewIsPresent(log: seq<Cache.Event>, ptr: Record, srv: Record, a: Record, o: Cache.Endpoint,
                     now: int, end: int, grace: u32)
    requires srv.Srv? && !a.Srv? && end < now + Cache.EffectiveTtl(srv, grace) * Cache.SECOND
    ensures Cache.Present(Grown(Grown(Grown(log, ptr, o, now), srv, o, now), a, o, now),
                          Cache.Identity(srv), end, grace)
  {
    var log3 := Grown(Grown(Grown(log, ptr, o, now), srv, o, now), a, o, now);
    var k := |log| + 1;
    assert log3[k] == Cache.Insertion(now, srv, o) && log3[k + 1] == Cache.Insertion(now, a, o);
    assert Cache.LastInsertion(log3, Cache.Identity(srv), k);
    assert Cache.StillGood(log3, k, end, grace);
  }

  /** Such a run exists for any type, instance, hosts and address. */
  lemma LeftoverRun(t: Name, n: Name, h1: Name, h2: Name, x: Addr, o: Cache.Endpoint, grace: u32)
    returns (before: System)
    requires h1 != h2
    ensures Reachable(before, grace) && n in before.mon.live && before.mon.live[n].hostname == h2
    ensures Cache.Present(before.log, Cache.Identity(NewSrv(n, h2)), 10 * Cache.SECOND, grace)
    ensures exists order, after :: Next(before, Expiry(10 * Cache.SECOND, order), after, grace)
    ensures forall order, after :: Next(before, Expiry(10 * Cache.SECOND, order), after, grace) ==> n !in after.mon.live
  {
    hide Reachable, Cache.Run, Cache.IsExpired, Next, State3, Cache.Present;
    var log := Log(t, n, h1, h2, x, o)[..3];
    var start := System(State3(t, n, h1, x), log);
    FirstSteps(t, n, h1, h2, x, o, grace);
    Promoted(t, n, h1, x);
    TypeOfListed(start, t, n, h1, x, grace);
    OldSrvCached(t, n, h1, h2, x, o, grace);
    var id := Cache.Identity(OldSrv(n, h1));
    assert Reached(log, 0);
    var a := A(Head(h2, 4500), x);
    before := LeftoverEndsRediscovered(start, t, n, id, NewSrv(n, h2), a, o, 0, 10 * Cache.SECOND, grace);
  }

  lemma TypeOfListed(x: System, t: Name, n: Name, h1: Name, a: Addr, grace: u32)
    requires Reachable(x, grace) && x.mon == State3(t, n, h1, a) && n in x.mon.live
    ensures n in x.mon.types && x.mon.types[n] == t
  {
    ReachableIsGood(x, grace);
    assert Tracked(x.mon, n, x.mon.live[n]);
    OnlyWatched(t, n, h1, a);
  }

  lemma OnlyWatched(t: Name, n: Name, h1: Name, a: Addr)
    ensures State3(t, n, h1, a).watches == {t}
  {
    hide Report;
    var s := State2(t, n, h1);
    assert State1(t, n).watches == {t};
    assert s.watches == {t};
    hide ProcessSrv;
    var s1 := s.(partials := PartialsGain(s, h1, a, false));
    var g := Complete(s1.partials, h1);
    ReportFrame(s1.(partials := s1.partials - g.Keys), g + s1.live, FoundCalls(g));
    var s2 := AddressToPartials(s, h1, a, false);
    var f := LiveGains(s2.live, h1, a, false);
    ReportFrame(s2, s2.live + f, UpdatedCalls(f, true, AddrType(false)));
  }

  lemma OldSrvCached(t: Name, n: Name, h1: Name, h2: Name, x: Addr, o: Cache.Endpoint, grace: u32)
    ensures var m, id := Cache.Run(Log(t, n, h1, h2, x, o)[..3], grace), Cache.Identity(OldSrv(n, h1));
            id in m && Cache.IsExpired(m[id], 10 * Cache.SECOND)
  {
    hide Cache.LeaseOf, Cache.Run;
    var log, id := Log(t, n, h1, h2, x, o), Cache.Identity(OldSrv(n, h1));
    LogParts(t, n, h1, h2, x, o);
    NoLease(id, grace);
    PlainInsertion([], log[0].record, o, id, grace);
    PlainInsertion(log[..1], log[1].record, o, id, grace);
    PlainInsertion(log[..2], log[2].record, o, id, grace);
    assert Cache.LeaseOf(log[..3], id, grace) == Some(Cache.Lease(o, 10 * Cache.SECOND));
    Cache.RunTracks(log[..3], grace);
    var m := Cache.Run(log[..3], grace);
    assert log[..3][2].time == 0;
    assert id in m;
    assert Cache.EntryTracks(m[id], id, Cache.LeaseOf(log[..3], id, grace));
  }
}
