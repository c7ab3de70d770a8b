/** What each event does to each instance and its callbacks, said without the handlers
    (lib/mdnspp/include/mdnspp/basic_service_monitor.h). */
module MonitorEffects {
  import opened Bytes
  import opened Names
  import opened Records
  import opened MonitorModel
  import opened MonitorInvariant
  import opened Discovery
  import Aggregation

  /** Nothing has happened to instance `m`, and its user has been told nothing. */
  ghost predicate Untouched(s: State, s': State, m: Name) {
    Look(s', m) == Look(s, m) && Trace(s', m) == Trace(s, m)
  }

  ghost predicate UntouchedBut(s: State, s': State, n: Name) {
    forall m :: m != n ==> Untouched(s, s', m)
  }

  /** Instance `n` has become `seen`, and its user has been told `calls`. */
  ghost predicate Became(s: State, s': State, n: Name, seen: Seen, calls: seq<Call>) {
    Look(s', n) == seen && Trace(s', n) == Trace(s, n) + calls
  }

  lemma ReportTrace(s: State, live: map<Name, Service>, calls: map<Name, Call>, m: Name)
    ensures Trace(Report(s, live, calls), m) == Trace(s, m) + if m in calls then [calls[m]] else []
  {
  }

  lemma NoCalls(s: State, m: Name)
    ensures Trace(s, m) + [] == Trace(s, m)
  {
  }

  lemma PromoteEffect(s: State, g: map<Name, Service>, m: Name)
    requires m in g ==> m !in s.live
    ensures var s' := Promote(s, g);
            && (m in g ==> Became(s, s', m, Listed(g[m]), [Found(g[m])]))
            && (m !in g ==> Untouched(s, s', m))
            && s'.hostnames == s.hostnames && s'.goodbyes == s.goodbyes
            && s'.watches == s.watches && s'.types == s.types
  {
    hide Report, Trace;
    var calls := FoundCalls(g);
    var s1 := s.(partials := s.partials - g.Keys);
    ReportFrame(s1, g + s.live, calls);
    ReportTrace(s1, g + s.live, calls, m);
    SameTrace(s, s1, m);
    NoCalls(s, m);
  }

  lemma SameTrace(s: State, s1: State, m: Name)
    requires s1.trace == s.trace
    ensures Trace(s1, m) == Trace(s, m)
  {
  }

  lemma UpdateEffect(s: State, f: map<Name, Service>, added: bool, rtype: u16, m: Name)
    ensures var s' := Update(s, f, added, rtype);
            && (m in f ==> Became(s, s', m, Listed(f[m]), [Updated(f[m], added, rtype)]))
            && (m !in f ==> Untouched(s, s', m))
            && s'.hostnames == s.hostnames && s'.goodbyes == s.goodbyes
            && s'.watches == s.watches && s'.types == s.types
            && s'.partials == s.partials
  {
    hide Report, Trace;
    var calls := UpdatedCalls(f, added, rtype);
    ReportFrame(s, s.live + f, calls);
    ReportTrace(s, s.live + f, calls, m);
    NoCalls(s, m);
  }

  // ---------------------------------------------------------------- PTR

  /** A PTR record makes an unknown instance a blank partial one of that type, and does
      nothing else. */
  lemma PtrTakesEffect(s: State, r: Record)
    requires Inv(s) && r.Ptr?
    ensures var s', n := Process(s, r), r.target;
            && UntouchedBut(s, s', n)
            && (Look(s, n) != Unknown ==> Untouched(s, s', n))
            && (Look(s, n) == Unknown ==>
                  && Became(s, s', n, Part(Partial(r.hdr.name, false, false, Service(n, [], 0, [], [], []))), [])
                  && n in s'.types && s'.types[n] == r.hdr.name)
            && s'.watches == s.watches && s'.hostnames == s.hostnames && s'.goodbyes == s.goodbyes
  {
    NoCalls(s, r.target);
  }

  // ---------------------------------------------------------------- SRV

  /** What is heard: PTR records of watched types, SRV and TXT records of known instances,
      addresses of hosts that were named. */
  lemma HeardIsExact(s: State, r: Record)
    ensures r.Ptr? ==> (IsRelevant(s, r) <==> r.hdr.name in s.watches)
    ensures r.Srv? || r.Txts? ==> (IsRelevant(s, r) <==> Look(s, r.hdr.name) != Unknown)
    ensures r.A? || r.Aaaa? ==> (IsRelevant(s, r) <==> r.hdr.name in s.hostnames)
  {
  }

  /** An SRV record of a known instance takes effect: the instance has its host and port. A
      partial one with an address is found; a listed one is updated, once, if host or port
      differ, and else left alone. */
  lemma SrvTakesEffect(s: State, r: Record)
    requires Inv(s) && r.Srv? && Look(s, r.hdr.name) != Unknown
    ensures var s', n := Process(s, r), r.hdr.name;
            && UntouchedBut(s, s', n) && s'.watches == s.watches
            && s'.goodbyes == (if r.hdr.ttl == 0 then s.goodbyes + {n} else s.goodbyes)
            && match Look(s, n)
               case Unknown => false
               case Part(p) =>
                 var svc := p.svc.(hostname := r.target, port := r.port);
                 && s'.hostnames == s.hostnames + {r.target}
                 && (if p.svc.v4 != [] || p.svc.v6 != [] then Became(s, s', n, Listed(svc), [Found(svc)])
                     else Became(s, s', n, Part(Partial(p.serviceType, true, false, svc)), []))
               case Listed(old') =>
                 var svc := old'.(hostname := r.target, port := r.port);
                 if svc == old' then Untouched(s, s', n) && s'.hostnames == s.hostnames
                 else
                   && Became(s, s', n, Listed(svc), [Updated(svc, true, 33)])
                   && s'.hostnames == s.hostnames + {r.target}
  {
    hide Process, Inv, Became, Untouched;
    if r.hdr.name in s.partials {
      SrvOfPartial(s, r);
    } else {
      SrvOfListed(s, r);
    }
  }

  lemma SrvOfPartial(s: State, r: Record)
    requires Inv(s) && r.Srv? && r.hdr.name in s.partials
    ensures var s', n, p := Process(s, r), r.hdr.name, s.partials[r.hdr.name];
            var svc := p.svc.(hostname := r.target, port := r.port);
            && UntouchedBut(s, s', n) && s'.watches == s.watches && n !in s.live
            && s'.goodbyes == (if r.hdr.ttl == 0 then s.goodbyes + {n} else s.goodbyes)
            && s'.hostnames == s.hostnames + {r.target}
            && (if p.svc.v4 != [] || p.svc.v6 != [] then Became(s, s', n, Listed(svc), [Found(svc)])
                else Became(s, s', n, Part(Partial(p.serviceType, true, false, svc)), []))
  {
    hide Promote, Told, Tidy, Trace;
    var n := r.hdr.name;
    var p := s.partials[n];
    assert PartialOk(s, n, p);
    var s0 := if r.hdr.ttl == 0 then s.(goodbyes := s.goodbyes + {n}) else s;
    var p' := p.(hasSrv := true, svc := p.svc.(hostname := r.target, port := r.port));
    var s1 := s0.(partials := s.partials[n := p'], hostnames := s.hostnames + {r.target});
    NoCalls(s, n);
    SameTrace(s, s1, n);
    PromoteEffect(s1, map[n := p'.svc], n);
    ButForTheFirst(s, s1, n, p'.svc);
  }

  lemma ButForTheFirst(s: State, s1: State, n: Name, svc: Service)
    requires n !in s1.live && s1.live == s.live && s1.partials - {n} == s.partials - {n} && s1.trace == s.trace
    ensures UntouchedBut(s, s1, n) && UntouchedBut(s, Promote(s1, map[n := svc]), n)
  {
    hide Promote, Trace;
    forall m | m != n
      ensures Untouched(s, s1, m) && Untouched(s, Promote(s1, map[n := svc]), m)
    {
      SameTrace(s, s1, m);
      PromoteEffect(s1, map[n := svc], m);
      assert m in s.partials <==> m in s.partials - {n};
      assert m in s1.partials <==> m in s1.partials - {n};
      assert m in s.partials ==> (s.partials - {n})[m] == s.partials[m];
      assert m in s1.partials ==> (s1.partials - {n})[m] == s1.partials[m];
    }
  }

  lemma SrvOfListed(s: State, r: Record)
    requires Inv(s) && r.Srv? && r.hdr.name in s.live
    ensures var s', n, was := Process(s, r), r.hdr.name, s.live[r.hdr.name];
            var svc := was.(hostname := r.target, port := r.port);
            && UntouchedBut(s, s', n) && s'.watches == s.watches
            && s'.goodbyes == (if r.hdr.ttl == 0 then s.goodbyes + {n} else s.goodbyes)
            && if svc == was then Untouched(s, s', n) && s'.hostnames == s.hostnames
               else
                 && Became(s, s', n, Listed(svc), [Updated(svc, true, 33)])
                 && s'.hostnames == s.hostnames + {r.target}
  {
    hide Update, Told, Tracked, Trace;
    var n := r.hdr.name;
    var s0 := if r.hdr.ttl == 0 then s.(goodbyes := s.goodbyes + {n}) else s;
    var s1 := s0.(hostnames := s.hostnames + {r.target});
    var f := map[n := s.live[n].(hostname := r.target, port := r.port)];
    SameTrace(s, s0, n);
    SameTrace(s, s1, n);
    UpdateEffect(s1, f, true, TYPE_SRV, n);
    forall m | m != n
      ensures Untouched(s, Process(s, r), m)
    {
      SameTrace(s, s0, m);
      SameTrace(s, s1, m);
      UpdateEffect(s1, f, true, TYPE_SRV, m);
    }
  }

  // ---------------------------------------------------------------- addresses

  /** The service with one address more. */
  function Plus(svc: Service, x: Addr, v6: bool): Service {
    if v6 then svc.(v6 := svc.v6 + [x]) else svc.(v4 := svc.v4 + [x])
  }

  function Family(svc: Service, v6: bool): seq<Addr> { if v6 then svc.v6 else svc.v4 }

  /** An address takes effect exactly at the instances on its host that do not have it yet: a
      listed one is updated, a partial one that has its SRV record is found, any other
      partial one keeps it. */
  lemma AddressTakesEffect(s: State, r: Record, m: Name)
    requires Inv(s) && (r.A? || r.Aaaa?)
    ensures var s', v6 := Process(s, r), r.Aaaa?;
            && s'.hostnames == s.hostnames && s'.goodbyes == s.goodbyes && s'.watches == s.watches
            && match Look(s, m)
               case Unknown => Untouched(s, s', m)
               case Listed(svc) =>
                 if svc.hostname == r.hdr.name && r.addr !in Family(svc, v6)
                 then
                   var more := Plus(svc, r.addr, v6);
                   Became(s, s', m, Listed(more), [Updated(more, true, if v6 then 28 else 1)])
                 else Untouched(s, s', m)
               case Part(p) =>
                 if p.svc.hostname == r.hdr.name && r.addr !in Family(p.svc, v6)
                 then
                   if p.hasSrv then Became(s, s', m, Listed(Plus(p.svc, r.addr, v6)), [Found(Plus(p.svc, r.addr, v6))])
                   else Became(s, s', m, Part(p.(hasAddress := true, svc := Plus(p.svc, r.addr, v6))), [])
                 else Untouched(s, s', m)
  {
    hide Promote, Update, Told, Tracked, AddressToPartials, AddressToLive;
    var host, x, v6 := r.hdr.name, r.addr, r.Aaaa?;
    AddressOfPartial(s, host, x, v6, m);
    AddressOfListed(AddressToPartials(s, host, x, v6), host, x, v6, m);
    NoCalls(s, m);
  }

  lemma AddressOfPartial(s: State, host: Name, x: Addr, v6: bool, m: Name)
    requires Inv(s)
    ensures var s' := AddressToPartials(s, host, x, v6);
            && s'.hostnames == s.hostnames && s'.goodbyes == s.goodbyes && s'.watches == s.watches
            && match Look(s, m)
               case Unknown => Untouched(s, s', m)
               case Listed(svc) => Untouched(s, s', m)
               case Part(p) =>
                 if p.svc.hostname == host && x !in Family(p.svc, v6)
                 then
                   if p.hasSrv then Became(s, s', m, Listed(Plus(p.svc, x, v6)), [Found(Plus(p.svc, x, v6))])
                   else Became(s, s', m, Part(p.(hasAddress := true, svc := Plus(p.svc, x, v6))), [])
                 else Untouched(s, s', m)
  {
    hide Promote, Told, Tidy, Trace;
    var s1 := s.(partials := PartialsGain(s, host, x, v6));
    var g := Complete(s1.partials, host);
    SameTrace(s, s1, m);
    NoCalls(s, m);
    if m in s.partials {
      assert PartialOk(s, m, s.partials[m]);
    }
    if AnyPartialGains(s, host, x, v6) {
      PromoteEffect(s1, g, m);
    }
  }

  lemma AddressOfListed(s: State, host: Name, x: Addr, v6: bool, m: Name)
    ensures var s' := AddressToLive(s, host, x, v6);
            && s'.hostnames == s.hostnames && s'.goodbyes == s.goodbyes && s'.watches == s.watches
            && (Look(s, m).Listed? && Look(s, m).svc.hostname == host && x !in Family(Look(s, m).svc, v6) ==>
                  var svc := Plus(Look(s, m).svc, x, v6);
                  Became(s, s', m, Listed(svc), [Updated(svc, true, if v6 then 28 else 1)]))
            && (!(Look(s, m).Listed? && Look(s, m).svc.hostname == host && x !in Family(Look(s, m).svc, v6)) ==>
                  Untouched(s, s', m))
  {
    hide Update, Trace;
    UpdateEffect(s, LiveGains(s.live, host, x, v6), true, AddrType(v6), m);
  }

  // ---------------------------------------------------------------- TXT

  /** Merging changes something exactly if it brings a string that is not there already. */
  lemma {:induction false} MergeChanges(dst: seq<Txt>, src: seq<Txt>)
    requires UniqueKeys(dst)
    ensures MergeTxt(dst, src).1 <==> exists e :: e in src && e !in dst
    ensures !MergeTxt(dst, src).1 ==> MergeTxt(dst, src).0 == dst
  {
    if src != [] {
      var k := |src| - 1;
      MergeChanges(dst, src[..k]);
      assert src == src[..k] + [src[k]];
      if !MergeTxt(dst, src[..k]).1 {
        MergeOneChanges(dst, src[k]);
      }
      hide MergeOne, UniqueKeys;
    }
  }

  lemma MergeOneChanges(dst: seq<Txt>, e: Txt)
    requires UniqueKeys(dst)
    ensures MergeOne(dst, e) == dst <==> e in dst
  {
    var i := KeyIndex(dst, e.key);
    if i < |dst| {
      assert MergeOne(dst, e)[i] == e;
    }
  }

  /** What is there after a merge: the last new string of every new key and the old strings
      of all other keys, the old keys in their old places. */
  ghost predicate Merged(dst: seq<Txt>, src: seq<Txt>, txt: seq<Txt>) {
    && (forall e :: e in txt <==> Aggregation.Latest(src, e) || (e in dst && forall f :: f in src ==> f.key != e.key))
    && |dst| <= |txt| && forall i :: 0 <= i < |dst| ==> txt[i].key == dst[i].key
  }

  lemma {:induction false} MergeIsExact(dst: seq<Txt>, src: seq<Txt>)
    requires UniqueKeys(dst)
    ensures Merged(dst, src, MergeTxt(dst, src).0)
  {
    hide UniqueKeys, Aggregation.Latest, MergeOne;
    if src != [] {
      var k := |src| - 1;
      var d := MergeTxt(dst, src[..k]).0;
      MergeIsExact(dst, src[..k]);
      MergeTidy(dst, src[..k]);
      assert src == src[..k] + [src[k]];
      MergedOneMore(dst, src[..k], d, src[k]);
    } else {
      Aggregation.LatestPerKey([]);
    }
  }

  lemma MergedOneMore(dst: seq<Txt>, src: seq<Txt>, d: seq<Txt>, x: Txt)
    requires UniqueKeys(d) && Merged(dst, src, d)
    ensures Merged(dst, src + [x], MergeOne(d, x))
  {
    hide UniqueKeys, Aggregation.Latest, MergeOne;
    MergeOneIsExact(d, x);
    forall e
      ensures e in MergeOne(d, x)
         <==> Aggregation.Latest(src + [x], e) || (e in dst && forall f :: f in src + [x] ==> f.key != e.key)
    {
      Aggregation.LatestGrows(src + [x], e);
      assert (src + [x])[..|src|] == src;
      assert (forall f :: f in src + [x] ==> f.key != e.key)
        <==> x.key != e.key && forall f :: f in src ==> f.key != e.key by {
        assert x in src + [x];
        assert forall f :: f in src ==> f in src + [x];
      }
    }
  }

  lemma MergeOneIsExact(dst: seq<Txt>, e: Txt)
    requires UniqueKeys(dst)
    ensures forall f :: f in MergeOne(dst, e) <==> f == e || (f in dst && f.key != e.key)
    ensures |dst| <= |MergeOne(dst, e)| && forall i :: 0 <= i < |dst| ==> MergeOne(dst, e)[i].key == dst[i].key
  {
    var i := KeyIndex(dst, e.key);
    if i < |dst| {
      assert dst[i := e] == dst[..i] + [e] + dst[i + 1..];
      assert dst == dst[..i] + [dst[i]] + dst[i + 1..];
    }
  }

  /** TXT strings are merged, the last value of a key winning; a listed instance is updated,
      once, if one of them is new. */
  lemma TxtTakesEffect(s: State, r: Record)
    requires Inv(s) && r.Txts? && Look(s, r.hdr.name) != Unknown
    ensures var s', n := Process(s, r), r.hdr.name;
            && UntouchedBut(s, s', n)
            && s'.hostnames == s.hostnames && s'.goodbyes == s.goodbyes && s'.watches == s.watches
            && match Look(s, n)
               case Unknown => false
               case Part(p) =>
                 var txt := MergeTxt(p.svc.txt, r.entries).0;
                 && Merged(p.svc.txt, r.entries, txt)
                 && Became(s, s', n, Part(p.(svc := p.svc.(txt := txt))), [])
               case Listed(old') =>
                 var svc := old'.(txt := MergeTxt(old'.txt, r.entries).0);
                 && Merged(old'.txt, r.entries, svc.txt)
                 && if exists e :: e in r.entries && e !in old'.txt
                    then Became(s, s', n, Listed(svc), [Updated(svc, true, 16)])
                    else Untouched(s, s', n) && svc == old'
  {
    hide Update, Told, MergeTxt, Merged, Trace;
    var n := r.hdr.name;
    NoCalls(s, n);
    if n in s.partials {
      assert PartialOk(s, n, s.partials[n]);
      MergeIsExact(s.partials[n].svc.txt, r.entries);
      forall m { SameTrace(s, Process(s, r), m); }
    } else {
      assert Tracked(s, n, s.live[n]);
      MergeChanges(s.live[n].txt, r.entries);
      MergeIsExact(s.live[n].txt, r.entries);
      var f := map[n := s.live[n].(txt := MergeTxt(s.live[n].txt, r.entries).0)];
      UpdateEffect(s, f, true, TYPE_TXT, n);
      forall m | m != n
        ensures Untouched(s, Process(s, r), m)
      {
        UpdateEffect(s, f, true, TYPE_TXT, m);
      }
    }
  }

  // ---------------------------------------------------------------- expiry

  /** An expired SRV record ends its instance: a listed one is lost, by goodbye exactly if it
      was so marked, and a partial one is forgotten. */
  lemma SrvExpiryTakesEffect(s: State, r: Record)
    requires Inv(s) && r.Srv?
    ensures var s', n := Expire(s, r), r.hdr.name;
            && UntouchedBut(s, s', n) && s'.goodbyes == s.goodbyes - {n}
            && s'.hostnames == s.hostnames && s'.watches == s.watches
            && Became(s, s', n, Unknown,
                      if !Look(s, n).Listed? then []
                      else [Lost(Look(s, n).svc, if n in s.goodbyes then Goodbye else Timeout)])
  {
    hide Report, Told, Tracked, Trace;
    var n := r.hdr.name;
    var s1 := s.(partials := s.partials - {n}, goodbyes := s.goodbyes - {n});
    NoCalls(s, n);
    forall m { SameTrace(s, s1, m); }
    if n in s.live {
      var calls := LostCalls(map[n := s.live[n]], if n in s.goodbyes then Goodbye else Timeout);
      ReportFrame(s1, s.live - {n}, calls);
      ReportTrace(s1, s.live - {n}, calls, n);
      forall m | m != n
        ensures Untouched(s, Expire(s, r), m)
      {
        ReportTrace(s1, s.live - {n}, calls, m);
        NoCalls(s1, m);
      }
    }
  }

  /** The service without one address. */
  ghost predicate Minus(svc: Service, svc': Service, x: Addr, v6: bool) {
    && svc' == (if v6 then svc.(v6 := svc'.v6) else svc.(v4 := svc'.v4))
    && forall y :: y in Family(svc', v6) <==> y in Family(svc, v6) && y != x
  }

  lemma DroppedIsMinus(svc: Service, x: Addr, v6: bool)
    requires NoDuplicates(Family(svc, v6)) && x in Family(svc, v6)
    ensures Minus(svc, Dropped(svc, x, v6), x, v6)
  {
    var addrs := Family(svc, v6);
    var i := IndexOf(addrs, x);
    var rest := addrs[..i] + addrs[i + 1..];
    assert RemoveAddr(addrs, x) == rest;
    assert addrs == addrs[..i] + [x] + addrs[i + 1..];
    assert forall y :: y in rest <==> y in addrs && y != x;
  }

  /** An expired address goes from every listed service on its host that has it, each of
      which is updated; all others, and all other addresses, stay. */
  lemma AddressExpiryTakesEffect(s: State, r: Record, m: Name)
    requires Inv(s) && (r.A? || r.Aaaa?)
    ensures var s', v6 := Expire(s, r), r.Aaaa?;
            && s'.hostnames == s.hostnames && s'.goodbyes == s.goodbyes && s'.watches == s.watches
            && if Look(s, m).Listed? && Look(s, m).svc.hostname == r.hdr.name && r.addr in Family(Look(s, m).svc, v6)
               then
                 && Look(s', m).Listed? && Minus(Look(s, m).svc, Look(s', m).svc, r.addr, v6)
                 && Trace(s', m) == Trace(s, m) + [Updated(Look(s', m).svc, false, if v6 then 28 else 1)]
               else Untouched(s, s', m)
  {
    hide Update, Told, Minus, Trace, Dropped;
    var v6 := r.Aaaa?;
    UpdateEffect(s, LiveLosses(s.live, r.hdr.name, r.addr, v6), false, AddrType(v6), m);
    if m in s.live {
      assert Tracked(s, m, s.live[m]);
      if r.addr in Family(s.live[m], v6) {
        DroppedIsMinus(s.live[m], r.addr, v6);
      }
    }
  }

  ghost predicate WithoutKeys(es: seq<Txt>, es': seq<Txt>, gone: seq<Txt>) {
    forall e :: e in es' <==> e in es && forall g :: g in gone ==> g.key != e.key
  }

  lemma RemoveKeyIsExact(es: seq<Txt>, key: seq<byte>)
    requires UniqueKeys(es)
    ensures forall e :: e in RemoveKey(es, key) <==> e in es && e.key != key
  {
    var i := KeyIndex(es, key);
    if i < |es| {
      var r := es[..i] + es[i + 1..];
      assert es == es[..i] + [es[i]] + es[i + 1..];
      assert forall e :: e in r <==> e in es && e.key != key;
    }
  }

  lemma {:induction false} RemoveKeysIsExact(es: seq<Txt>, gone: seq<Txt>)
    requires UniqueKeys(es)
    ensures WithoutKeys(es, RemoveKeys(es, gone), gone)
  {
    hide RemoveKey, UniqueKeys;
    if gone != [] {
      var k := |gone| - 1;
      RemoveKeysIsExact(es, gone[..k]);
      RemoveKeysTidy(es, gone[..k]);
      RemoveKeyIsExact(RemoveKeys(es, gone[..k]), gone[k].key);
      assert gone == gone[..k] + [gone[k]];
    }
  }

  /** The keys of an expired TXT record go from its listed instance, which is updated, once,
      if it had one of them. */
  lemma TxtExpiryTakesEffect(s: State, r: Record)
    requires Inv(s) && r.Txts?
    ensures var s', n := Expire(s, r), r.hdr.name;
            && UntouchedBut(s, s', n)
            && s'.hostnames == s.hostnames && s'.goodbyes == s.goodbyes && s'.watches == s.watches
            && if Look(s, n).Listed? && exists e, g :: e in Look(s, n).svc.txt && g in r.entries && g.key == e.key
               then
                 && Look(s', n).Listed? && Look(s', n).svc == Look(s, n).svc.(txt := Look(s', n).svc.txt)
                 && WithoutKeys(Look(s, n).svc.txt, Look(s', n).svc.txt, r.entries)
                 && Trace(s', n) == Trace(s, n) + [Updated(Look(s', n).svc, false, 16)]
               else Untouched(s, s', n)
  {
    hide Update, Told, Trace, RemoveKeys;
    var n := r.hdr.name;
    if n in s.live {
      assert Tracked(s, n, s.live[n]);
      var txt := s.live[n].txt;
      RemoveKeysIsExact(txt, r.entries);
      NothingRemoved(txt, r.entries);
      var f := map[n := s.live[n].(txt := RemoveKeys(txt, r.entries))];
      UpdateEffect(s, f, false, TYPE_TXT, n);
      forall m | m != n
        ensures Untouched(s, Expire(s, r), m)
      {
        UpdateEffect(s, f, false, TYPE_TXT, m);
      }
    }
  }

  lemma {:induction false} NothingRemoved(es: seq<Txt>, gone: seq<Txt>)
    requires UniqueKeys(es)
    ensures RemoveKeys(es, gone) == es <==> forall e, g :: e in es && g in gone ==> g.key != e.key
  {
    RemoveKeysIsExact(es, gone);
    if forall e, g :: e in es && g in gone ==> g.key != e.key {
      KeysAbsent(es, gone);
    }
  }

  lemma {:induction false} KeysAbsent(es: seq<Txt>, gone: seq<Txt>)
    requires forall e, g :: e in es && g in gone ==> g.key != e.key
    ensures RemoveKeys(es, gone) == es
  {
    if gone != [] {
      var k := |gone| - 1;
      KeysAbsent(es, gone[..k]);
      assert gone[k] in gone;
      assert forall i :: 0 <= i < |es| ==> es[i] in es;
      assert KeyIndex(es, gone[k].key) == |es|;
    }
  }

  /** An expired PTR record does nothing. */
  lemma PtrExpiryTakesNoEffect(s: State, r: Record)
    requires r.Ptr?
    ensures Expire(s, r) == s
  {
  }

  // ---------------------------------------------------------------- watching

  lemma WatchTakesEffect(s: State, t: Name)
    ensures var s' := Watch(s, t);
            && s'.watches == s.watches + {t} && s'.hostnames == s.hostnames && s'.goodbyes == s.goodbyes
            && forall m :: Untouched(s, s', m)
  {
  }

  predicate OnHostSeen(seen: Seen, h: Name) {
    match seen
    case Unknown => false
    case Part(p) => p.svc.hostname == h
    case Listed(svc) => svc.hostname == h
  }

  /** Unwatching a type that is not watched does nothing. */
  lemma UnwatchOfOther(s: State, t: Name)
    requires t !in s.watches
    ensures Unwatch(s, t) == s
  {
  }

  lemma HostnamesAreExact(s: State)
    requires s.live.Keys !! s.partials.Keys
    ensures forall h :: h in Hostnames(s.live, s.partials) <==> h != [] && exists n :: OnHostSeen(Look(s, n), h)
  {
    forall h | h in Hostnames(s.live, s.partials)
      ensures h != [] && exists n :: OnHostSeen(Look(s, n), h)
    {
      if n :| n in s.live && s.live[n].hostname == h {
        assert OnHostSeen(Look(s, n), h);
      } else {
        var n :| n in s.partials && s.partials[n].svc.hostname == h;
        assert OnHostSeen(Look(s, n), h);
      }
    }
  }

  /** Unwatching forgets every instance of the type; a listed one is lost, as unwatched. All
      goodbye marks are cleared. */
  lemma UnwatchTakesEffect(s: State, t: Name, m: Name)
    requires Inv(s) && t in s.watches
    ensures var s' := Unwatch(s, t);
            && s'.watches == s.watches - {t} && s'.goodbyes == {}
            && (forall h :: h in s'.hostnames <==> h != [] && exists n :: OnHostSeen(Look(s', n), h))
            && if m in s.types && s.types[m] == t && Look(s, m) != Unknown
               then Became(s, s', m, Unknown, if Look(s, m).Listed? then [Lost(Look(s, m).svc, Unwatched)] else [])
               else Untouched(s, s', m)
  {
    hide Told, Hostnames, OnHostSeen, Tidy, Trace, Traced;
    var gone, s' := LiveOfType(s.live, s.types, t), Unwatch(s, t);
    HostnamesAreExact(s');
    if m in s.live {
      assert Tracked(s, m, s.live[m]);
    } else if m in s.partials {
      assert PartialOk(s, m, s.partials[m]);
    }
    UnwatchTrace(s, gone, s', m);
    NoCalls(s, m);
  }

  lemma UnwatchTrace(s: State, gone: map<Name, Service>, s': State, m: Name)
    requires s'.trace == Traced(s.trace, LostCalls(gone, Unwatched))
    ensures Trace(s', m) == Trace(s, m) + if m in gone then [Lost(gone[m], Unwatched)] else []
  {
  }
}
