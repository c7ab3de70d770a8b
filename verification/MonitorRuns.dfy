/** The monitor on top of its cache, over whole runs: what is live against what
    was received, flushed and swept. */
module MonitorRuns {
  import opened Bytes
  import opened Names
  import opened Records
  import Cache = CacheModel
  import opened MonitorModel
  import opened MonitorInvariant

  // ---------------------------------------------------------------- coupling

  /** The instance is resolved to this host and port, live or still partial. */
  ghost predicate HasTarget(s: State, n: Name, host: Name, port: u16) {
    || (n in s.live && s.live[n].hostname == host && s.live[n].port == port)
    || (n in s.partials && s.partials[n].hasSrv && s.partials[n].svc.hostname == host && s.partials[n].svc.port == port)
  }

  predicate IsSrv(r: Record, n: Name, host: Name, port: u16) {
    r.Srv? && r.hdr.name == n && r.target == host && r.port == port
  }

  ghost predicate SrvCached(m: Cache.Store, n: Name, host: Name, port: u16) {
    exists id :: id in m && IsSrv(id, n, host, port)
  }

  /** Every target the monitor believes in has its SRV record in the cache. */
  ghost predicate Coupled(s: State, m: Cache.Store) {
    forall n, host, port :: HasTarget(s, n, host, port) ==> SrvCached(m, n, host, port)
  }

  lemma ReportTargets(s: State, live: map<Name, Service>, calls: map<Name, Call>, n: Name, host: Name, port: u16)
    ensures HasTarget(Report(s, live, calls), n, host, port) <==> HasTarget(s.(live := live), n, host, port)
  {
    hide Report;
    ReportFrame(s, live, calls);
  }

  lemma PromoteTargets(s: State, g: map<Name, Service>, n: Name, host: Name, port: u16)
    requires forall k :: k in g ==> k in s.partials && s.partials[k].hasSrv && g[k] == s.partials[k].svc
    requires HasTarget(Promote(s, g), n, host, port)
    ensures HasTarget(s, n, host, port)
  {
    hide Report;
    ReportTargets(s.(partials := s.partials - g.Keys), g + s.live, FoundCalls(g), n, host, port);
  }

  /** An update in which no service moves. */
  lemma UpdateTargets(s: State, f: map<Name, Service>, added: bool, rtype: u16, n: Name, host: Name, port: u16)
    requires forall k :: k in f ==> k in s.live && f[k].hostname == s.live[k].hostname && f[k].port == s.live[k].port
    requires HasTarget(Update(s, f, added, rtype), n, host, port)
    ensures HasTarget(s, n, host, port)
  {
    hide Report;
    ReportTargets(s, s.live + f, UpdatedCalls(f, added, rtype), n, host, port);
  }

  lemma AddressToPartialsTargets(s: State, h: Name, x: Addr, v6: bool, n: Name, host: Name, port: u16)
    requires HasTarget(AddressToPartials(s, h, x, v6), n, host, port)
    ensures HasTarget(s, n, host, port)
  {
    hide Promote;
    var s1 := s.(partials := PartialsGain(s, h, x, v6));
    if AnyPartialGains(s, h, x, v6) {
      PromoteTargets(s1, Complete(s1.partials, h), n, host, port);
    }
    assert HasTarget(s1, n, host, port);
  }

  lemma SrvTargets(s: State, k: Name, ttl: u32, target: Name, p: u16, n: Name, host: Name, port: u16)
    requires HasTarget(ProcessSrv(s, k, ttl, target, p), n, host, port)
    ensures HasTarget(s, n, host, port) || (n == k && host == target && port == p)
  {
    hide Promote, Report;
    var s0 := if ttl == 0 then s.(goodbyes := s.goodbyes + {k}) else s;
    if k in s.partials {
      var q := s.partials[k];
      var q' := q.(hasSrv := true, svc := q.svc.(hostname := target, port := p));
      var s1 := s0.(partials := s.partials[k := q'], hostnames := s.hostnames + {target});
      if Resolved(q') {
        PromoteTargets(s1, map[k := q'.svc], n, host, port);
      }
      assert HasTarget(s1, n, host, port);
    } else if k in s.live && (s.live[k].hostname != target || s.live[k].port != p) {
      var svc := s.live[k].(hostname := target, port := p);
      ReportTargets(s0.(hostnames := s.hostnames + {target}), s.live + map[k := svc],
                    UpdatedCalls(map[k := svc], true, TYPE_SRV), n, host, port);
    }
  }

  lemma PtrTargets(s: State, serviceType: Name, inst: Name, n: Name, host: Name, port: u16)
    requires HasTarget(ProcessPtr(s, serviceType, inst), n, host, port)
    ensures HasTarget(s, n, host, port)
  {
  }

  lemma TxtTargets(s: State, k: Name, entries: seq<Txt>, n: Name, host: Name, port: u16)
    requires HasTarget(ProcessTxt(s, k, entries), n, host, port)
    ensures HasTarget(s, n, host, port)
  {
    hide Update, MergeTxt;
    if k !in s.partials && k in s.live && MergeTxt(s.live[k].txt, entries).1 {
      var svc := s.live[k].(txt := MergeTxt(s.live[k].txt, entries).0);
      UpdateTargets(s, map[k := svc], true, TYPE_TXT, n, host, port);
    }
  }

  /** Only an SRV record can give an instance a new target. */
  lemma ProcessTargets(s: State, r: Record, n: Name, host: Name, port: u16)
    requires HasTarget(Process(s, r), n, host, port)
    ensures HasTarget(s, n, host, port) || IsSrv(r, n, host, port)
  {
    hide Update, AddressToPartials, ProcessSrv, ProcessTxt, HasTarget;
    match r
    case Ptr(hdr, target) => PtrTargets(s, hdr.name, target, n, host, port);
    case Srv(hdr, _, _, p, target) => SrvTargets(s, hdr.name, hdr.ttl, target, p, n, host, port);
    case A(hdr, x) =>
      var s1 := AddressToPartials(s, hdr.name, x, false);
      UpdateTargets(s1, LiveGains(s1.live, hdr.name, x, false), true, AddrType(false), n, host, port);
      AddressToPartialsTargets(s, hdr.name, x, false, n, host, port);
    case Aaaa(hdr, x) =>
      var s1 := AddressToPartials(s, hdr.name, x, true);
      UpdateTargets(s1, LiveGains(s1.live, hdr.name, x, true), true, AddrType(true), n, host, port);
      AddressToPartialsTargets(s, hdr.name, x, true, n, host, port);
    case Txts(hdr, entries) => TxtTargets(s, hdr.name, entries, n, host, port);
  }

  lemma ExpireSrvTargets(s: State, k: Name, n: Name, host: Name, port: u16)
    requires HasTarget(ExpireSrv(s, k), n, host, port)
    ensures HasTarget(s, n, host, port) && k != n
  {
    hide Report;
    if k in s.live {
      var s1 := s.(partials := s.partials - {k}, goodbyes := s.goodbyes - {k});
      ReportTargets(s1, s.live - {k}, LostCalls(map[k := s.live[k]], if k in s.goodbyes then Goodbye else Timeout),
                    n, host, port);
    }
  }

  lemma ExpireTxtTargets(s: State, k: Name, entries: seq<Txt>, n: Name, host: Name, port: u16)
    requires HasTarget(ExpireTxt(s, k, entries), n, host, port)
    ensures HasTarget(s, n, host, port)
  {
    hide Update, RemoveKeys;
    if k in s.live && RemoveKeys(s.live[k].txt, entries) != s.live[k].txt {
      var svc := s.live[k].(txt := RemoveKeys(s.live[k].txt, entries));
      UpdateTargets(s, map[k := svc], false, TYPE_TXT, n, host, port);
    }
  }

  /** Expiry gives no instance a target, and an expired SRV ends its instance. */
  lemma ExpireTargets(s: State, r: Record, n: Name, host: Name, port: u16)
    requires HasTarget(Expire(s, r), n, host, port)
    ensures HasTarget(s, n, host, port) && !(r.Srv? && r.hdr.name == n)
  {
    hide ExpireSrv, Update, ExpireTxt, HasTarget, Loses;
    match r
    case Ptr(_, _) =>
    case Srv(hdr, _, _, _, _) => ExpireSrvTargets(s, hdr.name, n, host, port);
    case A(hdr, x) => UpdateTargets(s, LiveLosses(s.live, hdr.name, x, false), false, AddrType(false), n, host, port);
    case Aaaa(hdr, x) => UpdateTargets(s, LiveLosses(s.live, hdr.name, x, true), false, AddrType(true), n, host, port);
    case Txts(hdr, entries) => ExpireTxtTargets(s, hdr.name, entries, n, host, port);
  }

  lemma {:induction false} ExpireAllTargets(s: State, rs: seq<Record>, n: Name, host: Name, port: u16)
    requires HasTarget(ExpireAll(s, rs), n, host, port)
    ensures HasTarget(s, n, host, port)
    ensures forall i :: 0 <= i < |rs| ==> !(rs[i].Srv? && rs[i].hdr.name == n)
  {
    hide Expire, HasTarget;
    if rs != [] {
      var k := |rs| - 1;
      ExpireTargets(ExpireAll(s, rs[..k]), rs[k], n, host, port);
      ExpireAllTargets(s, rs[..k], n, host, port);
      assert forall i :: 0 <= i < k ==> rs[i] == rs[..k][i];
    }
  }

  lemma UnwatchTargets(s: State, t: Name, n: Name, host: Name, port: u16)
    requires HasTarget(Unwatch(s, t), n, host, port)
    ensures HasTarget(s, n, host, port)
  {
  }

  // ---------------------------------------------------------------- runs

  datatype System = System(mon: State, log: seq<Cache.Event>)

  datatype Input =
    | Receive(time: int, record: Record, origin: Cache.Endpoint)
    | Expiry(time: int, order: seq<Record>)
    | StartWatch(serviceType: Name)
    | StopWatch(serviceType: Name)

  ghost predicate Reached(log: seq<Cache.Event>, time: int) {
    forall i :: 0 <= i < |log| ==> log[i].time <= time
  }

  /** `order` lists the expired entries' records, in any order. */
  ghost predicate Enumerates(order: seq<Record>, m: Cache.Store, t: int) {
    forall r :: r in order <==> exists id :: id in m && Cache.IsExpired(m[id], t) && m[id].record == r
  }

  ghost predicate Next(x: System, input: Input, x': System, grace: u32) {
    match input
    case Receive(time, r, origin) =>
      && Reached(x.log, time)
      && x' == if IsRelevant(x.mon, r) then System(Process(x.mon, r), x.log + [Cache.Insertion(time, r, origin)]) else x
    case Expiry(time, order) =>
      && Reached(x.log, time)
      && Enumerates(order, Cache.Run(x.log, grace), time)
      && x' == System(ExpireAll(x.mon, order), x.log + [Cache.Sweep(time)])
    case StartWatch(t) => x' == x.(mon := Watch(x.mon, t))
    case StopWatch(t) => x' == x.(mon := Unwatch(x.mon, t))
  }

  ghost predicate Good(x: System, grace: u32) {
    Inv(x.mon) && Coupled(x.mon, Cache.Run(x.log, grace)) && Cache.Monotone(x.log)
  }

  lemma LogGrows(log: seq<Cache.Event>, e: Cache.Event)
    requires Cache.Monotone(log) && Reached(log, e.time)
    ensures Cache.Monotone(log + [e]) && (log + [e])[..|log|] == log
  {
    var log' := log + [e];
    assert log'[|log|] == e && forall i :: 0 <= i < |log| ==> log'[i] == log[i];
  }

  lemma ReceiveCouples(s: State, m: Cache.Store, r: Record, origin: Cache.Endpoint, time: int, grace: u32)
    requires Coupled(s, m)
    ensures Coupled(Process(s, r), Cache.Inserted(m, r, origin, time, grace))
  {
    var m' := Cache.Inserted(m, r, origin, time, grace);
    assert m.Keys <= m'.Keys && Cache.Identity(r) in m';
    hide Cache.Inserted, Process, HasTarget;
    forall n, host, port | HasTarget(Process(s, r), n, host, port)
      ensures SrvCached(m', n, host, port)
    {
      ProcessTargets(s, r, n, host, port);
      if HasTarget(s, n, host, port) {
        var id :| id in m && IsSrv(id, n, host, port);
        assert id in m';
      } else {
        assert IsSrv(Cache.Identity(r), n, host, port);
      }
    }
  }

  /** Cached entries are filed under the identity of their record. */
  ghost predicate Filed(m: Cache.Store) {
    forall id :: id in m ==> Cache.Identity(m[id].record) == id
  }

  lemma RunIsFiled(log: seq<Cache.Event>, grace: u32)
    requires Cache.Monotone(log)
    ensures Filed(Cache.Run(log, grace))
  {
    hide Cache.LeaseOf, Cache.Run;
    Cache.RunTracks(log, grace);
  }

  lemma ExpiryCouples(s: State, m: Cache.Store, time: int, order: seq<Record>)
    requires Coupled(s, m) && Filed(m) && Enumerates(order, m, time)
    ensures Coupled(ExpireAll(s, order), Cache.Swept(m, time))
  {
    hide ExpireAll, HasTarget, Cache.IsExpired;
    forall n, host, port | HasTarget(ExpireAll(s, order), n, host, port)
      ensures SrvCached(Cache.Swept(m, time), n, host, port)
    {
      ExpireAllTargets(s, order, n, host, port);
      var id :| id in m && IsSrv(id, n, host, port);
      var e := m[id];
      assert !Cache.IsExpired(e, time) || e.record in order;
      assert e.record.Srv? && e.record.hdr.name == n;
      assert id in Cache.Swept(m, time);
    }
  }

  /** Every event keeps the structure, the books and the coupling. */
  lemma NextKeepsGood(x: System, input: Input, x': System, grace: u32)
    requires Good(x, grace) && Next(x, input, x', grace)
    ensures Good(x', grace)
  {
    hide Inv, Process, ExpireAll, Unwatch, HasTarget, IsRelevant, Cache.Swept, Cache.Inserted, Filed, Enumerates;
    match input
    case Receive(time, r, origin) =>
      if IsRelevant(x.mon, r) {
        LogGrows(x.log, Cache.Insertion(time, r, origin));
        ProcessKeeps(x.mon, r);
        ReceiveCouples(x.mon, Cache.Run(x.log, grace), r, origin, time, grace);
      }
    case Expiry(time, order) =>
      LogGrows(x.log, Cache.Sweep(time));
      ExpireAllKeeps(x.mon, order);
      RunIsFiled(x.log, grace);
      ExpiryCouples(x.mon, Cache.Run(x.log, grace), time, order);
    case StartWatch(t) =>
      WatchKeeps(x.mon, t);
      forall n, host, port | HasTarget(Watch(x.mon, t), n, host, port)
        ensures HasTarget(x.mon, n, host, port)
      {
        WatchTargets(x.mon, t, n, host, port);
      }
    case StopWatch(t) =>
      UnwatchKeeps(x.mon, t);
      forall n, host, port | HasTarget(Unwatch(x.mon, t), n, host, port)
        ensures HasTarget(x.mon, n, host, port)
      {
        UnwatchTargets(x.mon, t, n, host, port);
      }
  }

  lemma WatchTargets(s: State, t: Name, n: Name, host: Name, port: u16)
    ensures HasTarget(Watch(s, t), n, host, port) <==> HasTarget(s, n, host, port)
  {
  }

  ghost predicate Behavior(xs: seq<System>, inputs: seq<Input>, grace: u32) {
    && |xs| == |inputs| + 1
    && xs[0] == System(INITIAL, [])
    && forall i :: 0 <= i < |inputs| ==> Next(xs[i], inputs[i], xs[i + 1], grace)
  }

  lemma InitiallyGood(grace: u32)
    ensures Good(System(INITIAL, []), grace)
  {
    assert forall n :: Trace(INITIAL, n) == [];
  }

  /** Safety over whole runs. */
  lemma {:induction false} RunsAreGood(xs: seq<System>, inputs: seq<Input>, grace: u32, i: nat)
    requires Behavior(xs, inputs, grace) && i < |xs|
    ensures Good(xs[i], grace)
  {
    hide Good, Next;
    if i == 0 {
      InitiallyGood(grace);
    } else {
      RunsAreGood(xs, inputs, grace, i - 1);
      NextKeepsGood(xs[i - 1], inputs[i - 1], xs[i], grace);
    }
  }

  ghost predicate Reachable(x: System, grace: u32) {
    exists xs, inputs :: Behavior(xs, inputs, grace) && xs[|xs| - 1] == x
  }

  lemma ReachableStart(grace: u32)
    ensures Reachable(System(INITIAL, []), grace)
  {
    assert Behavior([System(INITIAL, [])], [], grace);
  }

  lemma ReachableStep(x: System, input: Input, x': System, grace: u32)
    requires Reachable(x, grace) && Next(x, input, x', grace)
    ensures Reachable(x', grace)
  {
    hide Next;
    var xs, inputs :| Behavior(xs, inputs, grace) && xs[|xs| - 1] == x;
    var ys, js := xs + [x'], inputs + [input];
    forall i | 0 <= i < |js|
      ensures Next(ys[i], js[i], ys[i + 1], grace)
    {
      if i < |inputs| {
        assert ys[i] == xs[i] && ys[i + 1] == xs[i + 1] && js[i] == inputs[i];
      }
    }
    assert Behavior(ys, js, grace);
  }

  // ---------------------------------------------------------------- what users may rely on

  /** The callbacks received so far for an instance are well bracketed, and tell
      exactly whether it is in services() and what is listed there. */
  lemma CallbacksTellTheTruth(xs: seq<System>, inputs: seq<Input>, grace: u32, i: nat, n: Name, k: nat)
    requires Behavior(xs, inputs, grace) && i < |xs| && k < |Trace(xs[i].mon, n)|
    ensures var calls, s := Trace(xs[i].mon, n), xs[i].mon;
            && (calls[k].Found? <==> k == 0 || calls[k - 1].Lost?)
            && (calls[k].Found? ==> HasAddress(calls[k].svc))
            && (calls[k].Lost? ==> k > 0 && calls[k - 1].svc == calls[k].svc)
            && (n in s.snapshot <==> !calls[|calls| - 1].Lost?)
            && (n in s.snapshot ==> s.snapshot[n] == calls[|calls| - 1].svc)
  {
    hide Behavior, Structure, Coupled;
    RunsAreGood(xs, inputs, grace, i);
    var calls, s := Trace(xs[i].mon, n), xs[i].mon;
    assert Replay(calls) == Entry(s.live, n);
    ReplayIsBracketed(calls, k);
    ReplayEnds(calls);
  }

  lemma ReplayEnds(calls: seq<Call>)
    requires calls != [] && Replay(calls) != Broken
    ensures var c := calls[|calls| - 1]; Replay(calls) == if c.Lost? then Hidden else Visible(c.svc)
  {
  }

  /** An instance without callbacks is not listed. */
  lemma SilentMeansUnlisted(xs: seq<System>, inputs: seq<Input>, grace: u32, i: nat, n: Name)
    requires Behavior(xs, inputs, grace) && i < |xs| && Trace(xs[i].mon, n) == []
    ensures n !in xs[i].mon.snapshot
  {
    hide Behavior, Structure, Coupled;
    RunsAreGood(xs, inputs, grace, i);
    assert Replay(Trace(xs[i].mon, n)) == Entry(xs[i].mon.live, n);
  }

  /** Live means fresh: right after a sweep every live service rests on an SRV
      record that was received for exactly its host and port and is still good. */
  lemma LiveIsFresh(x: System, time: int, order: seq<Record>, x': System, grace: u32, n: Name) returns (k: nat)
    requires Good(x, grace) && Next(x, Expiry(time, order), x', grace) && n in x'.mon.live
    ensures k < |x.log| && x.log[k].Insertion?
    ensures IsSrv(x.log[k].record, n, x'.mon.live[n].hostname, x'.mon.live[n].port)
    ensures Cache.LastInsertion(x.log, Cache.Identity(x.log[k].record), k) && Cache.StillGood(x.log, k, time, grace)
  {
    hide Inv, ExpireAll, Cache.Run, Cache.StillGood, Enumerates, Cache.Monotone;
    NextKeepsGood(x, Expiry(time, order), x', grace);
    var svc := x'.mon.live[n];
    assert HasTarget(x'.mon, n, svc.hostname, svc.port);
    var id :| id in Cache.Run(x'.log, grace) && IsSrv(id, n, svc.hostname, svc.port);
    Cache.SweepKeepsExactlyPresent(x.log, time, grace, id);
    k :| Cache.LastInsertion(x.log, id, k) && Cache.StillGood(x.log, k, time, grace);
  }

  /** Loss is exact: a sweep ends a live service if and only if some SRV record
      cached under its name has expired by then. */
  lemma LossIsExact(x: System, time: int, order: seq<Record>, x': System, grace: u32, n: Name)
    requires Good(x, grace) && Next(x, Expiry(time, order), x', grace) && n in x.mon.live
    ensures var m := Cache.Run(x.log, grace);
            n !in x'.mon.live <==> exists id :: id in m && id.Srv? && id.hdr.name == n && Cache.IsExpired(m[id], time)
  {
    hide Inv, Cache.Run, Cache.IsExpired, Cache.Monotone, ExpireAll;
    var m := Cache.Run(x.log, grace);
    RunIsFiled(x.log, grace);
    LiveAfterExpiry(x.mon, order, n);
    if id :| id in m && id.Srv? && id.hdr.name == n && Cache.IsExpired(m[id], time) {
      assert m[id].record in order && m[id].record.Srv? && m[id].record.hdr.name == n;
    }
    if i :| 0 <= i < |order| && order[i].Srv? && order[i].hdr.name == n {
      assert order[i] in order;
      var id :| id in m && Cache.IsExpired(m[id], time) && m[id].record == order[i];
      assert Cache.Identity(m[id].record) == id;
    }
  }

  lemma {:induction false} LiveAfterExpiry(s: State, rs: seq<Record>, n: Name)
    ensures n in ExpireAll(s, rs).live <==>
              n in s.live && forall i :: 0 <= i < |rs| ==> !(rs[i].Srv? && rs[i].hdr.name == n)
  {
    if rs != [] {
      var k := |rs| - 1;
      LiveAfterExpiry(s, rs[..k], n);
      assert forall i :: 0 <= i < k ==> rs[i] == rs[..k][i];
      LiveAfterOne(ExpireAll(s, rs[..k]), rs[k], n);
    }
  }

  lemma LiveAfterOne(s: State, r: Record, n: Name)
    ensures n in Expire(s, r).live <==> n in s.live && !(r.Srv? && r.hdr.name == n)
  {
    hide RemoveKeys, Loses, Dropped, Report;
    match r
    case Ptr(_, _) =>
    case Srv(hdr, _, _, _, _) =>
      var k := hdr.name;
      if k in s.live {
        ReportFrame(s.(partials := s.partials - {k}, goodbyes := s.goodbyes - {k}), s.live - {k},
                    LostCalls(map[k := s.live[k]], if k in s.goodbyes then Goodbye else Timeout));
      }
    case A(hdr, x) => LiveAfterUpdate(s, LiveLosses(s.live, hdr.name, x, false), AddrType(false));
    case Aaaa(hdr, x) => LiveAfterUpdate(s, LiveLosses(s.live, hdr.name, x, true), AddrType(true));
    case Txts(hdr, entries) =>
      var k := hdr.name;
      if k in s.live {
        LiveAfterUpdate(s, map[k := s.live[k].(txt := RemoveKeys(s.live[k].txt, entries))], TYPE_TXT);
      }
  }

  lemma LiveAfterUpdate(s: State, f: map<Name, Service>, rtype: u16)
    requires f.Keys <= s.live.Keys
    ensures Update(s, f, false, rtype).live.Keys == s.live.Keys
  {
    hide Report;
    ReportFrame(s, s.live + f, UpdatedCalls(f, false, rtype));
  }
}
