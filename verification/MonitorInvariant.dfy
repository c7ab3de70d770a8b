/** What every event keeps about the monitor: its structure, and that the
    callbacks of each instance, replayed, give exactly its live entry. */
module MonitorInvariant {
  import opened Bytes
  import opened Names
  import opened Records
  import opened MonitorModel

  // ---------------------------------------------------------------- replaying callbacks

  datatype Shown = Hidden | Visible(svc: Service) | Broken

  predicate HasAddress(svc: Service) { svc.v4 != [] || svc.v6 != [] }

  /** What the user has been told after one more callback; anything out of order breaks it. */
  function Tell(was: Shown, c: Call): Shown {
    match c
    case Found(svc) => if was.Hidden? && HasAddress(svc) then Visible(svc) else Broken
    case Updated(svc, _, _) => if was.Visible? then Visible(svc) else Broken
    case Lost(svc, _) => if was == Visible(svc) then Hidden else Broken
  }

  function Replay(calls: seq<Call>): Shown {
    if calls == [] then Hidden else Tell(Replay(calls[..|calls| - 1]), calls[|calls| - 1])
  }

  function Entry(live: map<Name, Service>, n: Name): Shown {
    if n in live then Visible(live[n]) else Hidden
  }

  /** An unbroken replay is well bracketed: a service is found exactly at the start
      and after each loss, and a loss repeats what was last reported. */
  lemma {:induction false} ReplayIsBracketed(calls: seq<Call>, i: nat)
    requires Replay(calls) != Broken && i < |calls|
    ensures calls[i].Found? <==> i == 0 || calls[i - 1].Lost?
    ensures calls[i].Found? ==> HasAddress(calls[i].svc)
    ensures calls[i].Lost? ==> i > 0 && calls[i - 1].svc == calls[i].svc
    decreases |calls|
  {
    var n := |calls| - 1;
    if i < n {
      ReplayIsBracketed(calls[..n], i);
    } else if n > 0 {
      assert calls[..n][..n - 1] == calls[..n - 1];
      assert Replay(calls[..n]) == Tell(Replay(calls[..n - 1]), calls[n - 1]);
    }
  }

  // ---------------------------------------------------------------- the invariant

  ghost predicate NoDuplicates<T>(s: seq<T>) {
    forall i, j :: 0 <= i < j < |s| ==> s[i] != s[j]
  }

  ghost predicate UniqueKeys(es: seq<Txt>) {
    forall i, j :: 0 <= i < j < |es| ==> es[i].key != es[j].key
  }

  ghost predicate Tidy(svc: Service) {
    NoDuplicates(svc.v4) && NoDuplicates(svc.v6) && UniqueKeys(svc.txt)
  }

  /** The instance belongs to a watched type, and its host is one we listen for. */
  ghost predicate Tracked(s: State, n: Name, svc: Service) {
    && svc.instance == n
    && n in s.types && s.types[n] in s.watches
    && (svc.hostname != [] ==> svc.hostname in s.hostnames)
    && Tidy(svc)
  }

  ghost predicate PartialOk(s: State, n: Name, p: Partial) {
    && Tracked(s, n, p.svc)
    && s.types[n] == p.serviceType
    && (p.hasAddress <==> HasAddress(p.svc))
    && !Resolved(p)
  }

  ghost predicate Structure(s: State) {
    && s.partials.Keys !! s.live.Keys
    && (forall n :: n in s.partials ==> PartialOk(s, n, s.partials[n]))
    && (forall n :: n in s.live ==> Tracked(s, n, s.live[n]))
  }

  ghost predicate Told(s: State) {
    && s.snapshot == s.live
    && forall n :: Replay(Trace(s, n)) == Entry(s.live, n)
  }

  ghost predicate Inv(s: State) {
    Structure(s) && Told(s)
  }

  // ---------------------------------------------------------------- reporting keeps the books

  /** The callbacks say exactly what changes in the live map. */
  ghost predicate Faithful(before: map<Name, Service>, after: map<Name, Service>, calls: map<Name, Call>) {
    forall n :: if n in calls then Tell(Entry(before, n), calls[n]) == Entry(after, n)
                else Entry(before, n) == Entry(after, n)
  }

  lemma TracedTells(trace: map<Name, seq<Call>>, calls: map<Name, Call>, n: Name)
    ensures Replay(Calls(Traced(trace, calls), n))
         == if n in calls then Tell(Replay(Calls(trace, n)), calls[n]) else Replay(Calls(trace, n))
  {
    if n in calls {
      var t := Calls(trace, n) + [calls[n]];
      assert t[..|t| - 1] == Calls(trace, n);
    }
  }

  lemma ReportKeepsTold(s: State, live: map<Name, Service>, calls: map<Name, Call>)
    requires Told(s) && Faithful(s.live, live, calls)
    ensures Told(Report(s, live, calls))
  {
    hide Tell, Replay;
    var s' := Report(s, live, calls);
    if calls == map[] {
      forall n
        ensures n in live <==> n in s.live
        ensures n in live ==> live[n] == s.live[n]
      {
        assert Entry(s.live, n) == Entry(live, n);
      }
      assert live == s.live;
    } else {
      forall n
        ensures Replay(Trace(s', n)) == Entry(s'.live, n)
      {
        TracedTells(s.trace, calls, n);
        assert Replay(Trace(s, n)) == Entry(s.live, n);
      }
    }
  }

  // ---------------------------------------------------------------- small facts

  lemma AppendTidy<T>(s: seq<T>, x: T)
    requires NoDuplicates(s) && x !in s
    ensures NoDuplicates(s + [x])
  {
  }

  lemma RemoveTidy(addrs: seq<Addr>, x: Addr)
    requires NoDuplicates(addrs)
    ensures NoDuplicates(RemoveAddr(addrs, x))
  {
    hide IndexOf;
    var i := IndexOf(addrs, x);
    if i < |addrs| {
      var r := RemoveAddr(addrs, x);
      assert forall k :: 0 <= k < |r| ==> r[k] == addrs[if k < i then k else k + 1];
    }
  }

  lemma MergeOneTidy(dst: seq<Txt>, e: Txt)
    requires UniqueKeys(dst)
    ensures UniqueKeys(MergeOne(dst, e))
  {
    hide KeyIndex;
  }

  lemma {:induction false} MergeTidy(dst: seq<Txt>, src: seq<Txt>)
    requires UniqueKeys(dst)
    ensures UniqueKeys(MergeTxt(dst, src).0)
  {
    hide MergeOne, UniqueKeys;
    if src != [] {
      MergeTidy(dst, src[..|src| - 1]);
      MergeOneTidy(MergeTxt(dst, src[..|src| - 1]).0, src[|src| - 1]);
    }
  }

  lemma RemoveKeyTidy(es: seq<Txt>, key: seq<byte>)
    requires UniqueKeys(es)
    ensures UniqueKeys(RemoveKey(es, key))
  {
    var i := KeyIndex(es, key);
    if i < |es| {
      var r := es[..i] + es[i + 1..];
      assert RemoveKey(es, key) == r;
      hide RemoveKey, KeyIndex;
      forall a, b | 0 <= a < b < |r|
        ensures r[a].key != r[b].key
      {
        KeysStayApart(es, i, a, b);
      }
    }
  }

  lemma KeysStayApart(es: seq<Txt>, i: nat, a: nat, b: nat)
    requires UniqueKeys(es) && i < |es| && a < b < |es| - 1
    ensures (es[..i] + es[i + 1..])[a].key != (es[..i] + es[i + 1..])[b].key
  {
    var a', b' := if a < i then a else a + 1, if b < i then b else b + 1;
    assert es[a'].key != es[b'].key;
  }

  lemma {:induction false} RemoveKeysTidy(es: seq<Txt>, gone: seq<Txt>)
    requires UniqueKeys(es)
    ensures UniqueKeys(RemoveKeys(es, gone))
  {
    hide RemoveKey, UniqueKeys;
    if gone != [] {
      RemoveKeysTidy(es, gone[..|gone| - 1]);
      RemoveKeyTidy(RemoveKeys(es, gone[..|gone| - 1]), gone[|gone| - 1].key);
    }
  }

  lemma GainedTracked(s: State, n: Name, svc: Service, x: Addr, v6: bool)
    requires Tracked(s, n, svc) && x !in Addrs(svc, v6)
    ensures Tracked(s, n, Gained(svc, x, v6)) && HasAddress(Gained(svc, x, v6))
  {
    AppendTidy(Addrs(svc, v6), x);
  }

  lemma DroppedTracked(s: State, n: Name, svc: Service, x: Addr, v6: bool)
    requires Tracked(s, n, svc)
    ensures Tracked(s, n, Dropped(svc, x, v6))
  {
    hide RemoveAddr;
    RemoveTidy(Addrs(svc, v6), x);
  }

  // ---------------------------------------------------------------- every handler keeps the invariant

  /** As `Structure`, but instances in `open` may be complete and waiting to be promoted. */
  ghost predicate StructureExcept(s: State, open: set<Name>) {
    && s.partials.Keys !! s.live.Keys && open <= s.partials.Keys
    && (forall n :: n in s.partials ==>
          if n in open then Tracked(s, n, s.partials[n].svc) && HasAddress(s.partials[n].svc)
          else PartialOk(s, n, s.partials[n]))
    && (forall n :: n in s.live ==> Tracked(s, n, s.live[n]))
  }

  /** Tracking looks only at types, watches and hostnames. */
  lemma TrackedFrame(s: State, s': State)
    requires s'.types == s.types && s.watches <= s'.watches && s.hostnames <= s'.hostnames
    ensures forall n, svc {:trigger Tracked(s', n, svc)} :: Tracked(s, n, svc) ==> Tracked(s', n, svc)
    ensures forall n, p {:trigger PartialOk(s', n, p)} :: PartialOk(s, n, p) ==> PartialOk(s', n, p)
  {
    hide Tidy, Resolved, HasAddress;
  }

  lemma InvFrame(s: State, s': State)
    requires Inv(s) && s'.types == s.types && s.watches <= s'.watches && s.hostnames <= s'.hostnames
    requires s'.partials == s.partials && s'.live == s.live && s'.snapshot == s.snapshot && s'.trace == s.trace
    ensures Inv(s')
  {
    hide Replay, Tracked, PartialOk;
    TrackedFrame(s, s');
    assert forall n :: Trace(s', n) == Trace(s, n);
  }

  lemma ReportKeeps(s: State, live: map<Name, Service>, calls: map<Name, Call>)
    requires Told(s) && Faithful(s.live, live, calls)
    requires s.partials.Keys !! live.Keys
    requires forall n :: n in s.partials ==> PartialOk(s, n, s.partials[n])
    requires forall n :: n in live ==> Tracked(s, n, live[n])
    ensures Inv(Report(s, live, calls))
  {
    hide Told, Tracked, PartialOk, Faithful, Report;
    ReportKeepsTold(s, live, calls);
    ReportFrame(s, live, calls);
    TrackedFrame(s, Report(s, live, calls));
  }

  lemma ReportFrame(s: State, live: map<Name, Service>, calls: map<Name, Call>)
    ensures var s' := Report(s, live, calls);
            && s'.live == live && s'.partials == s.partials && s'.types == s.types
            && s'.watches == s.watches && s'.hostnames == s.hostnames && s'.goodbyes == s.goodbyes
  {
  }

  lemma UpdateKeeps(s: State, f: map<Name, Service>, added: bool, rtype: u16)
    requires Inv(s) && f.Keys <= s.live.Keys
    requires forall n :: n in f ==> Tracked(s, n, f[n])
    ensures Inv(Update(s, f, added, rtype))
  {
    hide Tracked, PartialOk, Report, Replay;
    var live := s.live + f;
    assert live.Keys == s.live.Keys;
    assert Faithful(s.live, live, UpdatedCalls(f, added, rtype));
    ReportKeeps(s, live, UpdatedCalls(f, added, rtype));
  }

  lemma PromoteKeeps(s: State, g: map<Name, Service>)
    requires StructureExcept(s, g.Keys) && Told(s)
    requires forall n :: n in g ==> g[n] == s.partials[n].svc
    ensures Inv(Promote(s, g))
  {
    hide Tracked, PartialOk, Replay, Report, HasAddress;
    var s1 := s.(partials := s.partials - g.Keys);
    TrackedFrame(s, s1);
    assert forall n :: Trace(s1, n) == Trace(s, n);
    assert Faithful(s.live, g + s.live, FoundCalls(g));
    ReportKeeps(s1, g + s.live, FoundCalls(g));
  }

  lemma PtrKeeps(s: State, serviceType: Name, inst: Name)
    requires Inv(s) && serviceType in s.watches
    ensures Inv(ProcessPtr(s, serviceType, inst))
  {
    hide Replay;
    var s' := ProcessPtr(s, serviceType, inst);
    assert forall n :: Trace(s', n) == Trace(s, n);
  }

  lemma Retargeted(s: State, s': State, n: Name, svc: Service, target: Name, port: u16)
    requires Tracked(s, n, svc) && s'.types == s.types && s'.watches == s.watches && target in s'.hostnames
    ensures Tracked(s', n, svc.(hostname := target, port := port))
  {
  }

  lemma SrvKeeps(s: State, n: Name, ttl: u32, target: Name, port: u16)
    requires Inv(s)
    ensures Inv(ProcessSrv(s, n, ttl, target, port))
  {
    var s0 := if ttl == 0 then s.(goodbyes := s.goodbyes + {n}) else s;
    InvFrame(s, s0);
    var grown := s0.(hostnames := s.hostnames + {target});
    InvFrame(s, grown);
    if n in s.partials {
      SrvOfPartialKeeps(s, grown, n, target, port);
    } else if n in s.live && (s.live[n].hostname != target || s.live[n].port != port) {
      hide Tracked, Update;
      assert Tracked(s, n, s.live[n]);
      Retargeted(s, grown, n, s.live[n], target, port);
      UpdateKeeps(grown, map[n := s.live[n].(hostname := target, port := port)], true, TYPE_SRV);
    }
  }

  lemma SrvOfPartialKeeps(s: State, grown: State, n: Name, target: Name, port: u16)
    requires Inv(s) && Inv(grown) && n in s.partials
    requires grown.partials == s.partials && grown.types == s.types && grown.watches == s.watches
    requires target in grown.hostnames
    ensures var p := s.partials[n];
            var p' := p.(hasSrv := true, svc := p.svc.(hostname := target, port := port));
            var s1 := grown.(partials := s.partials[n := p']);
            Inv(if Resolved(p') then Promote(s1, map[n := p'.svc]) else s1)
  {
    hide Replay, Tracked, Promote;
    var p := s.partials[n];
    var p' := p.(hasSrv := true, svc := p.svc.(hostname := target, port := port));
    var s1 := grown.(partials := s.partials[n := p']);
    assert forall k :: Trace(s1, k) == Trace(grown, k);
    assert PartialOk(s, n, p);
    Retargeted(s, s1, n, p.svc, target, port);
    TrackedFrame(grown, s1);
    if Resolved(p') {
      PromoteKeeps(s1, map[n := p'.svc]);
    }
  }

  lemma AddressToPartialsKeeps(s: State, host: Name, x: Addr, v6: bool)
    requires Inv(s)
    ensures Inv(AddressToPartials(s, host, x, v6))
  {
    hide Replay, Tidy, Gained;
    var s1 := s.(partials := PartialsGain(s, host, x, v6));
    assert forall n :: Trace(s1, n) == Trace(s, n);
    TrackedFrame(s, s1);
    var g := Complete(s1.partials, host);
    var open := g.Keys;
    forall n | n in s1.partials
      ensures if n in open then Tracked(s1, n, s1.partials[n].svc) && HasAddress(s1.partials[n].svc)
              else PartialOk(s1, n, s1.partials[n])
      ensures !AnyPartialGains(s, host, x, v6) ==> PartialOk(s1, n, s1.partials[n])
    {
      var p := s.partials[n];
      assert PartialOk(s, n, p);
      if Gains(p.svc, host, x, v6) {
        GainedTracked(s, n, p.svc, x, v6);
        assert Gained(p.svc, x, v6).hostname == host by { GainedHost(p.svc, x, v6); }
      }
    }
    if AnyPartialGains(s, host, x, v6) {
      PromoteKeeps(s1, g);
    }
  }

  lemma GainedHost(svc: Service, x: Addr, v6: bool)
    ensures Gained(svc, x, v6).hostname == svc.hostname && Gained(svc, x, v6).port == svc.port
  {
  }

  lemma AddressToLiveKeeps(s: State, host: Name, x: Addr, v6: bool)
    requires Inv(s)
    ensures Inv(AddressToLive(s, host, x, v6))
  {
    hide Tracked, Gained, Update;
    var f := LiveGains(s.live, host, x, v6);
    forall n | n in f
      ensures Tracked(s, n, f[n])
    {
      GainedTracked(s, n, s.live[n], x, v6);
    }
    UpdateKeeps(s, f, true, AddrType(v6));
  }

  lemma TxtTracked(s: State, n: Name, svc: Service, txt: seq<Txt>)
    requires Tracked(s, n, svc) && UniqueKeys(txt)
    ensures Tracked(s, n, svc.(txt := txt))
  {
  }

  lemma TxtKeeps(s: State, n: Name, entries: seq<Txt>)
    requires Inv(s)
    ensures Inv(ProcessTxt(s, n, entries))
  {
    hide Replay, MergeTxt, UniqueKeys, Tracked, Update;
    if n in s.partials {
      var s' := ProcessTxt(s, n, entries);
      assert forall k :: Trace(s', k) == Trace(s, k);
      assert PartialOk(s, n, s.partials[n]) && UniqueKeys(s.partials[n].svc.txt) by {
        TxtOfTracked(s, n, s.partials[n].svc);
      }
      MergeTidy(s.partials[n].svc.txt, entries);
      TxtTracked(s, n, s.partials[n].svc, MergeTxt(s.partials[n].svc.txt, entries).0);
      TrackedFrame(s, s');
    } else if n in s.live && MergeTxt(s.live[n].txt, entries).1 {
      TxtOfTracked(s, n, s.live[n]);
      MergeTidy(s.live[n].txt, entries);
      TxtTracked(s, n, s.live[n], MergeTxt(s.live[n].txt, entries).0);
      UpdateKeeps(s, map[n := s.live[n].(txt := MergeTxt(s.live[n].txt, entries).0)], true, TYPE_TXT);
    }
  }

  lemma TxtOfTracked(s: State, n: Name, svc: Service)
    ensures Tracked(s, n, svc) ==> UniqueKeys(svc.txt)
  {
  }

  /** A relevant record, whatever its type, keeps the invariant. */
  lemma ProcessKeeps(s: State, r: Record)
    requires Inv(s) && IsRelevant(s, r)
    ensures Inv(Process(s, r))
  {
    hide Inv, ProcessPtr, ProcessSrv, ProcessTxt, AddressToPartials, AddressToLive;
    match r
    case Ptr(hdr, target) => PtrKeeps(s, hdr.name, target);
    case Srv(hdr, _, _, port, target) => SrvKeeps(s, hdr.name, hdr.ttl, target, port);
    case A(hdr, x) =>
      AddressToPartialsKeeps(s, hdr.name, x, false);
      AddressToLiveKeeps(AddressToPartials(s, hdr.name, x, false), hdr.name, x, false);
    case Aaaa(hdr, x) =>
      AddressToPartialsKeeps(s, hdr.name, x, true);
      AddressToLiveKeeps(AddressToPartials(s, hdr.name, x, true), hdr.name, x, true);
    case Txts(hdr, entries) => TxtKeeps(s, hdr.name, entries);
  }

  lemma ExpireSrvKeeps(s: State, n: Name)
    requires Inv(s)
    ensures Inv(ExpireSrv(s, n))
  {
    hide Replay, Tracked, PartialOk, Report;
    var s1 := s.(partials := s.partials - {n}, goodbyes := s.goodbyes - {n});
    assert forall k :: Trace(s1, k) == Trace(s, k);
    TrackedFrame(s, s1);
    if n in s.live {
      ReportKeeps(s1, s.live - {n}, LostCalls(map[n := s.live[n]], if n in s.goodbyes then Goodbye else Timeout));
    }
  }

  lemma ExpireAddressKeeps(s: State, host: Name, x: Addr, v6: bool)
    requires Inv(s)
    ensures Inv(ExpireAddress(s, host, x, v6))
  {
    hide Tracked, Dropped, Update;
    var f := LiveLosses(s.live, host, x, v6);
    forall n | n in f
      ensures Tracked(s, n, f[n])
    {
      DroppedTracked(s, n, s.live[n], x, v6);
    }
    UpdateKeeps(s, f, false, AddrType(v6));
  }

  lemma ExpireTxtKeeps(s: State, n: Name, entries: seq<Txt>)
    requires Inv(s)
    ensures Inv(ExpireTxt(s, n, entries))
  {
    hide RemoveKeys, Update, Tracked;
    if n in s.live && RemoveKeys(s.live[n].txt, entries) != s.live[n].txt {
      TxtOfTracked(s, n, s.live[n]);
      RemoveKeysTidy(s.live[n].txt, entries);
      TxtTracked(s, n, s.live[n], RemoveKeys(s.live[n].txt, entries));
      UpdateKeeps(s, map[n := s.live[n].(txt := RemoveKeys(s.live[n].txt, entries))], false, TYPE_TXT);
    }
  }

  lemma ExpireKeeps(s: State, r: Record)
    requires Inv(s)
    ensures Inv(Expire(s, r))
  {
    hide Inv, ExpireSrv, ExpireAddress, ExpireTxt;
    match r
    case Ptr(_, _) =>
    case Srv(hdr, _, _, _, _) => ExpireSrvKeeps(s, hdr.name);
    case A(hdr, x) => ExpireAddressKeeps(s, hdr.name, x, false);
    case Aaaa(hdr, x) => ExpireAddressKeeps(s, hdr.name, x, true);
    case Txts(hdr, entries) => ExpireTxtKeeps(s, hdr.name, entries);
  }

  lemma {:induction false} ExpireAllKeeps(s: State, rs: seq<Record>)
    requires Inv(s)
    ensures Inv(ExpireAll(s, rs))
  {
    hide Inv, Expire;
    if rs != [] {
      ExpireAllKeeps(s, rs[..|rs| - 1]);
      ExpireKeeps(ExpireAll(s, rs[..|rs| - 1]), rs[|rs| - 1]);
    }
  }

  lemma WatchKeeps(s: State, t: Name)
    requires Inv(s)
    ensures Inv(Watch(s, t))
  {
    InvFrame(s, Watch(s, t));
  }

  /** Unwatching a type ends exactly its services, keeps the invariant, and leaves
      exactly the hostnames still in use. */
  lemma UnwatchKeeps(s: State, t: Name)
    requires Inv(s)
    ensures Inv(Unwatch(s, t))
    ensures t in s.watches ==> Unwatch(s, t).hostnames == Hostnames(Unwatch(s, t).live, Unwatch(s, t).partials)
    ensures t in s.watches ==> forall n :: n in s.live ==> (n !in Unwatch(s, t).live <==> s.types[n] == t)
  {
    if t in s.watches {
      UnwatchStructure(s, t);
      UnwatchTold(s, t);
    }
  }

  lemma UnwatchStructure(s: State, t: Name)
    requires Inv(s) && t in s.watches
    ensures Structure(Unwatch(s, t))
    ensures forall n :: n in s.live ==> n in s.types && (n !in Unwatch(s, t).live <==> s.types[n] == t)
  {
    hide Tidy, Traced;
    var s' := Unwatch(s, t);
    forall n | n in s.live
      ensures n in s.types && (n in s'.live <==> s.types[n] != t) && (n in s'.live ==> Tracked(s', n, s'.live[n]))
    {
      assert Tracked(s, n, s.live[n]);
    }
    forall n | n in s'.partials
      ensures PartialOk(s', n, s'.partials[n])
    {
      assert PartialOk(s, n, s.partials[n]);
    }
  }

  lemma UnwatchTold(s: State, t: Name)
    requires Inv(s) && t in s.watches
    ensures Told(Unwatch(s, t))
  {
    hide Replay, Tracked, PartialOk;
    var s' := Unwatch(s, t);
    var calls := LostCalls(LiveOfType(s.live, s.types, t), Unwatched);
    forall n
      ensures Replay(Trace(s', n)) == Entry(s'.live, n)
    {
      TracedTells(s.trace, calls, n);
      assert Replay(Trace(s, n)) == Entry(s.live, n);
    }
  }
}
