/** The monitor's scheduler as an object over the monitor
    (lib/mdnspp/include/mdnspp/basic_service_monitor.h): each tick sweeps the cache,
    queries, refreshes and arms the timer again. */
module Schedulers {
  import opened Bytes
  import opened Names
  import opened Schedules
  import Records
  import MonitorModel
  import MonitorRuns
  import RecordCaches
  import Discovery
  import Cache = CacheModel
  import ServiceMonitors

  /** Expiry never changes what is watched. */
  lemma {:induction false} ExpiryKeepsWatches(s: MonitorModel.State, order: seq<Records.Record>)
    ensures MonitorModel.ExpireAll(s, order).watches == s.watches
  {
    hide MonitorModel.Expire;
    if order != [] {
      var k := |order| - 1;
      ExpiryKeepsWatches(s, order[..k]);
      OneExpiryKeepsWatches(MonitorModel.ExpireAll(s, order[..k]), order[k]);
    }
  }

  /** Expiry brings in no instance. */
  lemma {:induction false} ExpiryAddsNothing(s: MonitorModel.State, order: seq<Records.Record>)
    ensures Discovery.Tracks(MonitorModel.ExpireAll(s, order)) <= Discovery.Tracks(s)
  {
    hide MonitorModel.Expire, Discovery.Tracks;
    if order != [] {
      var k := |order| - 1;
      ExpiryAddsNothing(s, order[..k]);
      OneExpiryAddsNothing(MonitorModel.ExpireAll(s, order[..k]), order[k]);
    }
  }

  lemma OneExpiryAddsNothing(s: MonitorModel.State, r: Records.Record)
    ensures Discovery.Tracks(MonitorModel.Expire(s, r)) <= Discovery.Tracks(s)
  {
    hide MonitorModel.Update, MonitorModel.Traced, MonitorModel.RemoveKeys;
    match r
    case Ptr(_, _) =>
    case Srv(_, _, _, _, _) =>
    case A(hdr, x) => AddressLossAddsNothing(s, hdr.name, x, false);
    case Aaaa(hdr, x) => AddressLossAddsNothing(s, hdr.name, x, true);
    case Txts(hdr, entries) =>
      var n := hdr.name;
      if n in s.live {
        var svc := s.live[n].(txt := MonitorModel.RemoveKeys(s.live[n].txt, entries));
        Discovery.UpdateTracks(s, map[n := svc], false, Records.TYPE_TXT);
      }
  }

  lemma AddressLossAddsNothing(s: MonitorModel.State, host: Name, x: MonitorModel.Addr, v6: bool)
    ensures Discovery.Tracks(MonitorModel.ExpireAddress(s, host, x, v6)) <= Discovery.Tracks(s)
  {
    hide MonitorModel.Update, Discovery.Tracks;
    var losses := MonitorModel.LiveLosses(s.live, host, x, v6);
    Discovery.UpdateTracks(s, losses, false, MonitorModel.AddrType(v6));
  }

  lemma OneExpiryKeepsWatches(s: MonitorModel.State, r: Records.Record)
    ensures MonitorModel.Expire(s, r).watches == s.watches
  {
    hide MonitorModel.Traced, MonitorModel.LiveLosses, MonitorModel.RemoveKeys;
  }

  /** The refresh schedule of an instance is filed under its name and ":srv". */
  function KeyOf(n: Name): Key { n + [58, 115, 114, 118] }

  /** The name is what stands before the last colon. */
  function InstanceOf(key: Key): Option<Name> {
    if key == [] then None
    else if key[|key| - 1] == 58 then Some(key[..|key| - 1])
    else InstanceOf(key[..|key| - 1])
  }

  /** A tick sends its queries for the right instance. */
  lemma KeyNamesInstance(n: Name)
    ensures InstanceOf(KeyOf(n)) == Some(n)
  {
    var key := KeyOf(n);
    assert key[..|n| + 3] == n + [58, 115, 114] && key[|n| + 3] == 118;
    assert key[..|n| + 3][..|n| + 2] == n + [58, 115];
    assert (n + [58, 115])[..|n| + 1] == n + [58] && (n + [58])[..|n|] == n;
    assert InstanceOf(n + [58]) == Some(n);
    assert InstanceOf(n + [58, 115]) == Some(n);
    assert InstanceOf(n + [58, 115, 114]) == Some(n);
  }

  /** The monitor has gone through exactly the expiry of what the log says has expired,
      and every service it still lists rests on a good SRV record. */
  ghost predicate ExpiredAt(s: MonitorModel.State, log: seq<Cache.Event>, s': MonitorModel.State,
                            now: int, grace: u32)
  {
    && (exists order :: MonitorRuns.Enumerates(order, Cache.Run(log, grace), now)
                        && s' == MonitorModel.ExpireAll(s, order))
    && forall n :: n in s'.live ==> exists k ::
         && 0 <= k < |log| && log[k].Insertion?
         && MonitorRuns.IsSrv(log[k].record, n, s'.live[n].hostname, s'.live[n].port)
         && Cache.StillGood(log, k, now, grace)
  }

  class Scheduler {
    const mode: Mode
    const options: Options
    const perMs: nat
    const monitor: ServiceMonitors.ServiceMonitor
    var running: bool
    var stopped: bool
    var watches: Watches
    var refreshes: Refreshes
    /** How many refresh queries each schedule has caused, and how many PTR queries each type. */
    var refreshed: map<Key, nat>
    var queried: map<Name, nat>

    ghost predicate Counted()
      reads this
    {
      && refreshed.Keys == refreshes.Keys && queried.Keys == watches.Keys
      && forall k :: k in refreshes ==> refreshed[k] == refreshes[k].next
    }

    ghost predicate Valid()
      reads this, monitor, monitor.cache
    {
      perMs > 0 && Counted() && monitor.Valid() && watches.Keys == monitor.watches
    }

    /** What the armed timer promises for the state it was armed in. */
    ghost predicate Armed(delay: nat, now: int)
      requires perMs > 0
      reads this
    {
      ArmedFor(delay, Deadlines(mode, watches, refreshes, options, now, perMs), now, perMs)
    }

    constructor (mode: Mode, options: Options, perMs: nat, monitor: ServiceMonitors.ServiceMonitor,
                 watches: Watches, refreshes: Refreshes)
      requires perMs > 0 && monitor.Valid() && watches.Keys == monitor.watches
      requires forall k :: k in refreshes ==> refreshes[k].next == 0
      ensures Valid() && !running && !stopped && this.mode == mode && this.options == options && this.perMs == perMs
      ensures this.monitor == monitor && this.watches == watches && this.refreshes == refreshes
      ensures queried == map t | t in watches :: 0
    {
      this.mode, this.options, this.perMs, this.monitor := mode, options, perMs, monitor;
      this.watches, this.refreshes, running, stopped := watches, refreshes, false, false;
      refreshed := map k | k in refreshes :: 0;
      queried := map t | t in watches :: 0;
    }

    method AsyncStart(now: int) returns (delay: nat)
      requires Valid()
      modifies this`running
      ensures Valid() && running && Armed(delay, now)
    {
      hide Deadlines, ArmedFor;
      running := true;
      delay := ArmScheduler(mode, watches, refreshes, options, now, perMs);
    }

    /** do_watch: a new type starts with a fresh back-off, and a running scheduler is armed anew. */
    method DoWatch(t: Name, now: int) returns (delay: Option<nat>)
      requires Valid()
      modifies this`watches, this`queried, monitor
      ensures Valid() && monitor.Abs() == MonitorModel.Watch(old(monitor.Abs()), t)
      ensures watches == if t in old(watches) then old(watches) else old(watches)[t := Backoff(true, 0)]
      ensures (delay.Some? <==> running) && (running ==> Armed(delay.value, now))
    {
      hide Deadlines, ArmedFor;
      monitor.DoWatch(t);
      if t !in watches {
        watches, queried := watches[t := Backoff(true, 0)], queried[t := 0];
      }
      delay := None;
      if running {
        var next := ArmScheduler(mode, watches, refreshes, options, now, perMs);
        delay := Some(next);
      }
    }

    /** rebuild_refresh_schedule: an SRV record of the instance has come in. */
    method RebuildRefresh(n: Name, ttl: u32, thresholds: seq<real>, pct: real, now: int, draws: seq<real>)
      requires Valid() && pct >= 0.0 && InRange(draws, |thresholds|, 1.0)
      modifies this`refreshes, this`refreshed
      ensures Valid()
      ensures if mode == Observe || thresholds == [] then refreshes == old(refreshes)
              else exists jitters :: InRange(jitters, |thresholds|, pct)
                     && refreshes == old(refreshes)[KeyOf(n) :=
                          Schedule(FirePoints(ttl, perMs, now, thresholds, jitters), 0)]
    {
      hide FirePoints, InRange, MonitorRuns.Good;
      if mode == Observe || thresholds == [] {
        return;
      }
      var sched := MakeRefreshSchedule(ttl, perMs, thresholds, pct, now, draws);
      refreshes, refreshed := refreshes[KeyOf(n) := sched], refreshed[KeyOf(n) := 0];
    }

    /** do_unwatch: the type's back-off goes with it, but not its instances' refresh schedules. */
    method DoUnwatch(t: Name)
      requires Valid()
      modifies this`watches, this`queried, monitor
      ensures Valid() && monitor.Abs() == MonitorModel.Unwatch(old(monitor.Abs()), t)
      ensures watches == old(watches) - {t} && refreshes == old(refreshes) && refreshed == old(refreshed)
    {
      monitor.DoUnwatch(t);
      watches, queried := watches - {t}, queried - {t};
    }

    /** on_scheduler_tick: sweep the cache, send what is due, and arm for the next deadline. */
    method OnSchedulerTick(now: int) returns (delay: Option<nat>)
      requires Valid() && monitor.cache.Reached(now)
      modifies this, monitor, monitor.cache
      ensures Valid() && stopped == old(stopped)
      ensures stopped ==>
                && delay == None && watches == old(watches) && refreshes == old(refreshes) && queried == old(queried)
                && monitor.Abs() == old(monitor.Abs()) && monitor.cache.log == old(monitor.cache.log)
      ensures !stopped ==> monitor.cache.log == old(monitor.cache.log) + [Cache.Sweep(now)]
      ensures !stopped ==>
                ExpiredAt(old(monitor.Abs()), old(monitor.cache.log), monitor.Abs(), now, monitor.cache.grace)
      ensures !stopped ==> watches == if mode == Discover then AllAdvanced(old(watches), options) else old(watches)
      ensures !stopped ==> refreshes == if mode == Observe then old(refreshes) else AllConsumed(old(refreshes), now)
      ensures !stopped ==> forall t :: t in old(queried) ==>
                t in queried && queried[t] == old(queried)[t] + if mode == Discover then 1 else 0
      ensures !stopped ==>
                delay.Some? && Armed(delay.value, now)
    {
      hide AllAdvanced, AllConsumed, Deadlines, ArmedFor;
      if stopped {
        return None;
      }
      Sweep(now);
      SendDue(now);
      var next := ArmScheduler(mode, watches, refreshes, options, now, perMs);
      delay := Some(next);
    }

    /** The queries of a tick, as the mode says. */
    method SendDue(now: int)
      requires Counted()
      modifies this`watches, this`queried, this`refreshes, this`refreshed
      ensures Counted() && watches.Keys == old(watches.Keys)
      ensures watches == if mode == Discover then AllAdvanced(old(watches), options) else old(watches)
      ensures refreshes == if mode == Observe then old(refreshes) else AllConsumed(old(refreshes), now)
      ensures forall t :: t in old(queried) ==>
                t in queried && queried[t] == old(queried)[t] + if mode == Discover then 1 else 0
    {
      hide AllAdvanced, AllConsumed;
      if mode == Discover {
        AdvanceAll();
      }
      if mode == Discover || mode == TtlRefresh {
        ConsumeAll(now);
      }
    }

    method Sweep(now: int)
      requires Valid() && monitor.cache.Reached(now)
      modifies monitor, monitor.cache
      ensures Valid() && monitor.cache.log == old(monitor.cache.log) + [Cache.Sweep(now)]
      ensures ExpiredAt(old(monitor.Abs()), old(monitor.cache.log), monitor.Abs(), now, monitor.cache.grace)
    {
      hide MonitorRuns.Good, MonitorRuns.Enumerates, MonitorModel.ExpireAll, Cache.Run, RecordCaches.Contents;
      ghost var s := monitor.Abs();
      monitor.SweepCache(now);
      ghost var order :| MonitorRuns.Enumerates(order, old(RecordCaches.Contents(monitor.cache.entries)), now)
                         && monitor.Abs() == MonitorModel.ExpireAll(s, order);
      ExpiryKeepsWatches(s, order);
    }

    method AdvanceAll()
      requires Counted()
      modifies this`watches, this`queried
      ensures Counted() && watches == AllAdvanced(old(watches), options) && watches.Keys == old(watches.Keys)
      ensures forall t :: t in old(queried) ==> t in queried && queried[t] == old(queried)[t] + 1
    {
      var left := watches.Keys;
      while left != {}
        invariant left <= watches.Keys == old(watches).Keys && queried.Keys == watches.Keys
        invariant forall t :: t in watches ==>
                    && watches[t] == (if t in left then old(watches)[t] else Advance(old(watches)[t], options))
                    && queried[t] == old(queried)[t] + (if t in left then 0 else 1)
      {
        var t :| t in left;
        left := left - {t};
        var b, interval := AdvanceBackoff(watches[t], options);
        watches, queried := watches[t := b], queried[t := queried[t] + 1];
      }
    }

    method ConsumeAll(now: int)
      requires Counted()
      modifies this`refreshes, this`refreshed
      ensures Counted() && refreshes == AllConsumed(old(refreshes), now)
    {
      var left := refreshes.Keys;
      while left != {}
        invariant left <= refreshes.Keys == old(refreshes).Keys && refreshed.Keys == refreshes.Keys
        invariant forall k :: k in refreshes ==>
                    refreshes[k] == if k in left then old(refreshes)[k] else Consume(old(refreshes)[k], now)
        invariant forall k :: k in refreshes ==> refreshed[k] == refreshes[k].next
      {
        var k :| k in left;
        left := left - {k};
        var s, sent := ConsumeDue(refreshes[k], now);
        refreshes, refreshed := refreshes[k := s], refreshed[k := refreshed[k] + sent];
      }
    }
  }

  /** A listed service is unwatched, and the next tick comes: it is queried for although it
      is not tracked any more, if and only if a point of its refresh schedule is due. */
  method UnwatchedIsQueried(sch: Scheduler, t: Name, n: Name, now: int) returns (delay: Option<nat>)
    requires sch.Valid() && !sch.stopped && sch.mode != Observe && sch.monitor.cache.Reached(now)
    requires t in sch.monitor.watches && n in sch.monitor.live && n in sch.monitor.types && sch.monitor.types[n] == t
    requires KeyOf(n) in sch.refreshes
    modifies sch, sch.monitor, sch.monitor.cache
    ensures sch.Valid() && n !in Discovery.Tracks(sch.monitor.Abs())
    ensures KeyOf(n) in sch.refreshed && KeyOf(n) in old(sch.refreshed)
    ensures sch.refreshed[KeyOf(n)] > old(sch.refreshed)[KeyOf(n)] <==>
            Pending(old(sch.refreshes)[KeyOf(n)]) && NextPoint(old(sch.refreshes)[KeyOf(n)]) <= now
  {
    hide Deadlines, ArmedFor, Consume, Pending, MonitorModel.ExpireAll, MonitorRuns.Enumerates;
    ghost var s, was := sch.monitor.Abs(), sch.refreshes[KeyOf(n)];
    UnwatchDrops(sch, t, n);
    sch.DoUnwatch(t);
    ghost var s1, log1 := sch.monitor.Abs(), sch.monitor.cache.log;
    delay := sch.OnSchedulerTick(now);
    ghost var order :| MonitorRuns.Enumerates(order, Cache.Run(log1, sch.monitor.cache.grace), now)
                       && sch.monitor.Abs() == MonitorModel.ExpireAll(s1, order);
    ExpiryAddsNothing(s1, order);
    SendsIffDue(was, now);
  }

  lemma UnwatchDrops(sch: Scheduler, t: Name, n: Name)
    requires sch.Valid() && t in sch.monitor.watches
    requires n in sch.monitor.live && n in sch.monitor.types && sch.monitor.types[n] == t
    ensures n !in Discovery.Tracks(MonitorModel.Unwatch(sch.monitor.Abs(), t))
  {
  }
}
