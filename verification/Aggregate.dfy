/** One-shot correlation of a list of records into services
    (lib/mdnspp/include/mdnspp/resolved_service.h). */
module Aggregation {
  import opened Bytes
  import opened Names
  import opened Records
  import opened MonitorModel

  // ---------------------------------------------------------------- what the result means

  predicate PtrTo(r: Record, n: Name) { r.Ptr? && r.target == n }

  predicate IsAddress(r: Record) { r.A? || r.Aaaa? }

  /** Some PTR record points at `n`. */
  ghost predicate Seeded(rs: seq<Record>, n: Name) {
    exists r :: r in rs && PtrTo(r, n)
  }

  ghost function Instances(rs: seq<Record>): set<Name> {
    set r | r in rs && r.Ptr? :: r.target
  }

  /** A record about `n` that some earlier PTR record has introduced. */
  ghost predicate Accepted(rs: seq<Record>, n: Name, i: int) {
    0 <= i < |rs| && rs[i].hdr.name == n && Seeded(rs[..i], n)
  }

  /** The SRV records accepted for `n`, in order. */
  ghost function Srvs(rs: seq<Record>, n: Name): seq<Record> {
    if rs == [] then []
    else
      var k := |rs| - 1;
      Srvs(rs[..k], n) + if Accepted(rs, n, k) && rs[k].Srv? then [rs[k]] else []
  }

  /** The strings of the TXT records accepted for `n`, in order. */
  ghost function TxtEntries(rs: seq<Record>, n: Name): seq<Txt> {
    if rs == [] then []
    else
      var k := |rs| - 1;
      TxtEntries(rs[..k], n) + if Accepted(rs, n, k) && rs[k].Txts? then rs[k].entries else []
  }

  ghost function Hosts(rs: seq<Record>, n: Name): set<Name> {
    set r | r in Srvs(rs, n) && r.Srv? :: r.target
  }

  /** The address values owned by one of `hosts`, with repetitions. */
  function Values(rs: seq<Record>, hosts: set<Name>, v6: bool): seq<Addr> {
    if rs == [] then []
    else
      var k := |rs| - 1;
      Values(rs[..k], hosts, v6) + if Answers(rs[k], v6) && rs[k].hdr.name in hosts then [rs[k].addr] else []
  }

  predicate Answers(r: Record, v6: bool) { if v6 then r.Aaaa? else r.A? }

  /** First occurrences, in order. */
  function Distinct<T(==,!new)>(xs: seq<T>): (d: seq<T>)
    ensures forall x :: x in d <==> x in xs
    ensures forall i, j :: 0 <= i < j < |d| ==> d[i] != d[j]
  {
    if xs == [] then []
    else
      var d := Distinct(xs[..|xs| - 1]);
      if xs[|xs| - 1] in d then d else d + [xs[|xs| - 1]]
  }

  /** Everything but the addresses. */
  ghost function Bare(rs: seq<Record>, n: Name): Service {
    Described(n, Srvs(rs, n), TxtEntries(rs, n))
  }

  function Described(n: Name, srvs: seq<Record>, entries: seq<Txt>): Service {
    var txt := MergeTxt([], entries).0;
    if srvs != [] && srvs[|srvs| - 1].Srv? then
      Service(n, srvs[|srvs| - 1].target, srvs[|srvs| - 1].port, txt, [], [])
    else Service(n, [], 0, txt, [], [])
  }

  ghost function ServiceOf(rs: seq<Record>, n: Name): Service {
    var hosts := Hosts(rs, n);
    Bare(rs, n).(v4 := Distinct(Values(rs, hosts, false)), v6 := Distinct(Values(rs, hosts, true)))
  }

  lemma {:induction false} DistinctInOrder<T(!new)>(xs: seq<T>, i: nat, j: nat)
    requires i < j < |Distinct(xs)|
    ensures exists p :: 0 <= p < |xs| && xs[p] == Distinct(xs)[i] && Distinct(xs)[j] !in xs[..p + 1]
  {
    var k := |xs| - 1;
    var init := xs[..k];
    var d := Distinct(init);
    if j < |d| {
      DistinctInOrder(init, i, j);
      var p :| 0 <= p < k && init[p] == d[i] && d[j] !in init[..p + 1];
      assert init[..p + 1] == xs[..p + 1];
    } else {
      assert d[i] in init;
      var p :| 0 <= p < k && init[p] == d[i];
      assert forall y :: y in xs[..p + 1] ==> y in init by {
        assert xs[..p + 1] == init[..p + 1];
      }
    }
  }

  // ---------------------------------------------------------------- the meaning, by position

  /** A record about `n` counts exactly if it stands behind a PTR record that points at `n`. */
  lemma AcceptedIsExact(rs: seq<Record>, n: Name, j: int)
    ensures Accepted(rs, n, j) <==>
            && 0 <= j < |rs| && rs[j].hdr.name == n
            && exists i :: 0 <= i < j && rs[i].Ptr? && rs[i].target == n
  {
    if 0 <= j < |rs| {
      if Seeded(rs[..j], n) {
        var r :| r in rs[..j] && PtrTo(r, n);
        var i :| 0 <= i < j && rs[..j][i] == r;
        assert rs[i].Ptr? && rs[i].target == n;
      }
      if i :| 0 <= i < j && rs[i].Ptr? && rs[i].target == n {
        assert rs[..j][i] == rs[i];
        assert PtrTo(rs[i], n);
      }
    }
  }

  /** Hostname and port are those of the last SRV record that follows the first PTR
      record for the instance. */
  lemma LastAcceptedSrvWins(rs: seq<Record>, n: Name, j: nat)
    requires Accepted(rs, n, j) && rs[j].Srv?
    requires forall i :: j < i < |rs| && rs[i].Srv? ==> !Accepted(rs, n, i)
    ensures ServiceOf(rs, n).hostname == rs[j].target && ServiceOf(rs, n).port == rs[j].port
  {
    LastSrv(rs, n, j);
  }

  lemma {:induction false} LastSrv(rs: seq<Record>, n: Name, j: nat)
    requires Accepted(rs, n, j) && rs[j].Srv?
    requires forall i :: j < i < |rs| && rs[i].Srv? ==> !Accepted(rs, n, i)
    ensures Srvs(rs, n) != [] && Srvs(rs, n)[|Srvs(rs, n)| - 1] == rs[j]
  {
    var k := |rs| - 1;
    SrvsStep(rs, n);
    assert j < |rs|;
    if j < k {
      var init := rs[..k];
      AcceptedPrefix(rs, n, k);
      hide Accepted, Srvs;
      assert forall i :: j < i < |init| ==> init[i] == rs[i];
      LastSrv(init, n, j);
    }
  }

  lemma SrvsStep(rs: seq<Record>, n: Name)
    requires rs != []
    ensures var k := |rs| - 1;
            Srvs(rs, n) == if Accepted(rs, n, k) && rs[k].Srv? then Srvs(rs[..k], n) + [rs[k]] else Srvs(rs[..k], n)
  {
    hide Accepted;
  }

  lemma AcceptedPrefix(rs: seq<Record>, n: Name, k: nat)
    requires k <= |rs|
    ensures forall i :: 0 <= i < k ==> (Accepted(rs[..k], n, i) <==> Accepted(rs, n, i))
  {
    forall i | 0 <= i < k
      ensures rs[..k][..i] == rs[..i]
    {
    }
  }

  /** The accepted SRV records, by position. */
  lemma {:induction false} SrvByPosition(rs: seq<Record>, n: Name, r: Record)
    ensures r in Srvs(rs, n) <==> exists i :: Accepted(rs, n, i) && rs[i].Srv? && r == rs[i]
  {
    if rs != [] {
      var k := |rs| - 1;
      SrvsStep(rs, n);
      AcceptedPrefix(rs, n, k);
      assert forall i :: Accepted(rs, n, i) ==> 0 <= i <= k;
      assert forall i :: Accepted(rs[..k], n, i) ==> 0 <= i < k;
      hide Accepted, Srvs;
      SrvByPosition(rs[..k], n, r);
      assert forall i :: 0 <= i < k ==> rs[..k][i] == rs[i];
    }
  }

  /** The addresses are exactly the values owned by the target of any accepted SRV
      record, each once. */
  lemma AddressesByPosition(rs: seq<Record>, n: Name, v6: bool, x: Addr)
    ensures x in Addrs(ServiceOf(rs, n), v6) <==>
            exists i, j :: && 0 <= i < |rs| && (if v6 then rs[i].Aaaa? else rs[i].A?) && rs[i].addr == x
                           && Accepted(rs, n, j) && rs[j].Srv? && rs[j].target == rs[i].hdr.name
    ensures forall i, j :: 0 <= i < j < |Addrs(ServiceOf(rs, n), v6)| ==>
              Addrs(ServiceOf(rs, n), v6)[i] != Addrs(ServiceOf(rs, n), v6)[j]
  {
    hide Seeded, Srvs, Values, MergeTxt;
    var hosts := Hosts(rs, n);
    ValuesByPosition(rs, hosts, v6, x);
    forall r
      ensures r in Srvs(rs, n) <==> exists j :: Accepted(rs, n, j) && rs[j].Srv? && r == rs[j]
    {
      SrvByPosition(rs, n, r);
    }
    if x in Values(rs, hosts, v6) {
      var i :| 0 <= i < |rs| && Answers(rs[i], v6) && rs[i].addr == x && rs[i].hdr.name in hosts;
      var r :| r in Srvs(rs, n) && r.Srv? && r.target == rs[i].hdr.name;
      var j :| Accepted(rs, n, j) && rs[j].Srv? && r == rs[j];
    }
    if i, j :| && 0 <= i < |rs| && Answers(rs[i], v6) && rs[i].addr == x
               && Accepted(rs, n, j) && rs[j].Srv? && rs[j].target == rs[i].hdr.name {
      assert rs[j] in Srvs(rs, n);
      assert rs[i].hdr.name in hosts;
    }
  }

  lemma {:induction false} ValuesByPosition(rs: seq<Record>, hosts: set<Name>, v6: bool, x: Addr)
    ensures x in Values(rs, hosts, v6) <==>
            exists i :: 0 <= i < |rs| && Answers(rs[i], v6) && rs[i].addr == x && rs[i].hdr.name in hosts
  {
    if rs != [] {
      ValuesByPosition(rs[..|rs| - 1], hosts, v6, x);
    }
  }

  function Keys(es: seq<Txt>): seq<seq<byte>> {
    seq(|es|, i requires 0 <= i < |es| => es[i].key)
  }

  /** The last string of `es` with its key. */
  ghost predicate Latest(es: seq<Txt>, e: Txt) {
    exists i :: 0 <= i < |es| && es[i] == e && forall j :: i < j < |es| ==> es[j].key != e.key
  }

  /** TXT strings: one per key, keys in order of first appearance, each with its latest value. */
  lemma {:induction false} LatestPerKey(es: seq<Txt>)
    ensures var txt := MergeTxt([], es).0;
            && Keys(txt) == Distinct(Keys(es))
            && forall e :: e in txt <==> Latest(es, e)
  {
    if es == [] {
      assert Keys(es) == [];
    } else {
      var k := |es| - 1;
      LatestPerKey(es[..k]);
      assert Keys(es) == Keys(es[..k]) + [es[k].key];
      assert Keys(es)[..k] == Keys(es[..k]);
      MergedKeys(MergeTxt([], es[..k]).0, es[k]);
      forall e
        ensures e in MergeTxt([], es).0 <==> Latest(es, e)
      {
        LatestGrows(es, e);
      }
    }
  }

  lemma LatestGrows(es: seq<Txt>, e: Txt)
    requires es != []
    ensures Latest(es, e) <==> e == es[|es| - 1] || (e.key != es[|es| - 1].key && Latest(es[..|es| - 1], e))
  {
    var k := |es| - 1;
    if Latest(es[..k], e) && e.key != es[k].key {
      var i :| 0 <= i < k && es[..k][i] == e && forall j :: i < j < k ==> es[..k][j].key != e.key;
      assert forall j :: i < j < k ==> es[j] == es[..k][j];
      assert es[i] == e;
    }
    if Latest(es, e) && e != es[k] {
      var i :| 0 <= i < |es| && es[i] == e && forall j :: i < j < |es| ==> es[j].key != e.key;
      assert es[..k][i] == e;
    }
    assert e == es[k] ==> Latest(es, e);
  }

  lemma {:induction false} LatestConcat(a: seq<Txt>, b: seq<Txt>, e: Txt)
    ensures Latest(a + b, e) <==> Latest(b, e) || (Latest(a, e) && forall f :: f in b ==> f.key != e.key)
  {
    if b == [] {
      assert a + b == a;
    } else {
      var k := |b| - 1;
      LatestConcat(a, b[..k], e);
      LatestGrows(a + b, e);
      LatestGrows(b, e);
      assert (a + b)[..|a + b| - 1] == a + b[..k];
      assert b == b[..k] + [b[k]];
      hide Latest;
    }
  }

  ghost predicate LastTxt(rs: seq<Record>, n: Name, e: Txt, i: int) {
    && Accepted(rs, n, i) && rs[i].Txts? && Latest(rs[i].entries, e)
    && forall j :: i < j < |rs| && Accepted(rs, n, j) && rs[j].Txts? ==>
         forall f :: f in rs[j].entries ==> f.key != e.key
  }

  /** The TXT strings of the result: those that no later string of the same key follows, in
      their own record or in a later accepted one. */
  lemma TxtByPosition(rs: seq<Record>, n: Name, e: Txt)
    ensures e in ServiceOf(rs, n).txt <==> exists i :: LastTxt(rs, n, e, i)
  {
    hide LastTxt, Latest, Accepted, Srvs, TxtEntries, Values, MergeTxt;
    LatestPerKey(TxtEntries(rs, n));
    EntriesByPosition(rs, n, e);
  }

  lemma {:induction false} EntriesByPosition(rs: seq<Record>, n: Name, e: Txt)
    ensures Latest(TxtEntries(rs, n), e) <==> exists i :: LastTxt(rs, n, e, i)
  {
    hide LastTxt, Latest, Accepted;
    if rs == [] {
      NoLastTxt(n, e);
    } else {
      var k := |rs| - 1;
      EntriesByPosition(rs[..k], n, e);
      LastTxtGrows(rs, n, e);
      if Accepted(rs, n, k) && rs[k].Txts? {
        LatestConcat(TxtEntries(rs[..k], n), rs[k].entries, e);
      } else {
        assert TxtEntries(rs, n) == TxtEntries(rs[..k], n);
      }
    }
  }

  lemma NoLastTxt(n: Name, e: Txt)
    ensures forall i :: !LastTxt([], n, e, i)
    ensures !Latest([], e)
  {
  }

  lemma LastTxtGrows(rs: seq<Record>, n: Name, e: Txt)
    requires rs != []
    ensures var k := |rs| - 1;
            var now := Accepted(rs, n, k) && rs[k].Txts?;
            (exists i :: LastTxt(rs, n, e, i)) <==>
              || (now && Latest(rs[k].entries, e))
              || ((now ==> forall f :: f in rs[k].entries ==> f.key != e.key)
                  && exists i :: LastTxt(rs[..k], n, e, i))
  {
    hide Latest, Accepted;
    var k := |rs| - 1;
    AcceptedPrefix(rs, n, k);
    AcceptedInside(rs, n);
    AcceptedInside(rs[..k], n);
    var now := Accepted(rs, n, k) && rs[k].Txts?;
    if i :| LastTxt(rs, n, e, i) && i != k {
      assert LastTxt(rs[..k], n, e, i);
    }
    if now && Latest(rs[k].entries, e) {
      assert LastTxt(rs, n, e, k);
    }
    if i :| LastTxt(rs[..k], n, e, i) && (now ==> forall f :: f in rs[k].entries ==> f.key != e.key) {
      assert forall j :: 0 <= j < k ==> rs[..k][j] == rs[j];
      assert LastTxt(rs, n, e, i);
    }
  }

  lemma AcceptedInside(rs: seq<Record>, n: Name)
    ensures forall i :: Accepted(rs, n, i) ==> 0 <= i < |rs|
  {
  }

  lemma MergedKeys(dst: seq<Txt>, e: Txt)
    requires forall i, j :: 0 <= i < j < |Keys(dst)| ==> Keys(dst)[i] != Keys(dst)[j]
    ensures Keys(MergeOne(dst, e)) == if e.key in Keys(dst) then Keys(dst) else Keys(dst) + [e.key]
    ensures forall x :: x in MergeOne(dst, e) <==> x == e || (x in dst && x.key != e.key)
  {
    var i, m := KeyIndex(dst, e.key), MergeOne(dst, e);
    assert forall j :: 0 <= j < |dst| ==> Keys(dst)[j] == dst[j].key;
    if i < |dst| {
      assert Keys(dst)[i] == e.key;
      assert m[i] == e;
      forall x | x in dst && x.key != e.key
        ensures x in m
      {
        var j :| 0 <= j < |dst| && dst[j] == x;
        assert m[j] == x;
      }
      forall x | x in m && x != e
        ensures x in dst && x.key != e.key
      {
        var j :| 0 <= j < |m| && m[j] == x;
        assert j != i && Keys(dst)[j] != Keys(dst)[i];
      }
    }
  }

  lemma SeededIsInstance(rs: seq<Record>, n: Name)
    ensures Seeded(rs, n) <==> n in Instances(rs)
  {
  }

  /** One record more, seen from instance `n`. */
  lemma OneMore(rs: seq<Record>, r: Record, n: Name)
    ensures var rs', about := rs + [r], n in Instances(rs) && r.hdr.name == n;
            && (n in Instances(rs') <==> n in Instances(rs) || PtrTo(r, n))
            && Srvs(rs', n) == (if about && r.Srv? then Srvs(rs, n) + [r] else Srvs(rs, n))
            && TxtEntries(rs', n) == (if about && r.Txts? then TxtEntries(rs, n) + r.entries else TxtEntries(rs, n))
            && Hosts(rs', n) == Hosts(rs, n) + (if about && r.Srv? then {r.target} else {})
  {
    assert (rs + [r])[..|rs|] == rs;
    SeededIsInstance(rs, n);
  }

  // ---------------------------------------------------------------- order of addresses does not matter

  function NonAddresses(rs: seq<Record>): seq<Record> {
    if rs == [] then []
    else NonAddresses(rs[..|rs| - 1]) + if IsAddress(rs[|rs| - 1]) then [] else [rs[|rs| - 1]]
  }

  function OnlyAddresses(rs: seq<Record>, v6: bool): seq<Record> {
    if rs == [] then []
    else OnlyAddresses(rs[..|rs| - 1], v6) + if Answers(rs[|rs| - 1], v6) then [rs[|rs| - 1]] else []
  }

  lemma {:induction false} AcceptedAmongNonAddresses(rs: seq<Record>, n: Name)
    ensures n in Instances(rs) <==> n in Instances(NonAddresses(rs))
    ensures Srvs(rs, n) == Srvs(NonAddresses(rs), n)
    ensures TxtEntries(rs, n) == TxtEntries(NonAddresses(rs), n)
  {
    if rs != [] {
      var k := |rs| - 1;
      var r, init, rest := rs[k], rs[..k], NonAddresses(rs[..k]);
      hide Srvs, TxtEntries, Instances;
      AcceptedAmongNonAddresses(init, n);
      assert rs == init + [r];
      OneMore(init, r, n);
      if IsAddress(r) {
        assert NonAddresses(rs) == rest;
      } else {
        OneMore(rest, r, n);
      }
    }
  }

  lemma {:induction false} ValuesAmongAddresses(rs: seq<Record>, hosts: set<Name>, v6: bool)
    ensures Values(rs, hosts, v6) == Values(OnlyAddresses(rs, v6), hosts, v6)
  {
    if rs != [] {
      var k := |rs| - 1;
      var r, rest := rs[k], OnlyAddresses(rs[..k], v6);
      ValuesAmongAddresses(rs[..k], hosts, v6);
      if Answers(r, v6) {
        assert (rest + [r])[..|rest|] == rest;
      } else {
        assert OnlyAddresses(rs, v6) == rest;
      }
    }
  }

  /** A and AAAA records may stand anywhere in the input: as long as the A records keep
      their order among themselves, the AAAA records theirs, and all others theirs,
      the same services come out. */
  lemma AddressesMayMove(rs: seq<Record>, rs': seq<Record>, n: Name)
    requires NonAddresses(rs) == NonAddresses(rs')
    requires forall v6 :: OnlyAddresses(rs, v6) == OnlyAddresses(rs', v6)
    ensures n in Instances(rs) <==> n in Instances(rs')
    ensures ServiceOf(rs, n) == ServiceOf(rs', n)
  {
    AcceptedAmongNonAddresses(rs, n);
    AcceptedAmongNonAddresses(rs', n);
    var hosts := Hosts(rs, n);
    assert Hosts(rs', n) == hosts;
    forall v6
      ensures Values(rs, hosts, v6) == Values(rs', hosts, v6)
    {
      ValuesAmongAddresses(rs, hosts, v6);
      ValuesAmongAddresses(rs', hosts, v6);
    }
  }

  /** An SRV record, unlike an address, must follow the PTR record: with none after it
      the service stays blank. */
  lemma SrvBeforePtrIsIgnored(rs: seq<Record>, n: Name)
    requires forall i, j :: 0 <= i <= j < |rs| && PtrTo(rs[i], n) ==> !(rs[j].Srv? && rs[j].hdr.name == n)
    ensures var svc := ServiceOf(rs, n);
            svc.hostname == [] && svc.port == 0 && svc.v4 == [] && svc.v6 == []
  {
    forall j | Accepted(rs, n, j)
      ensures !rs[j].Srv?
    {
      var p :| p in rs[..j] && PtrTo(p, n);
      var i :| 0 <= i < j && rs[i] == p;
    }
    forall r
      ensures r !in Srvs(rs, n)
    {
      SrvByPosition(rs, n, r);
    }
    assert Srvs(rs, n) != [] ==> Srvs(rs, n)[0] in Srvs(rs, n);
    assert Hosts(rs, n) == {};
    NoHostsNoValues(rs, false);
    NoHostsNoValues(rs, true);
  }

  /** All SRV records of `n`, wherever they stand. */
  function AllSrvs(rs: seq<Record>, n: Name): seq<Record> {
    if rs == [] then []
    else
      var k := |rs| - 1;
      if rs[k].Srv? && rs[k].hdr.name == n then AllSrvs(rs[..k], n) + [rs[k]] else AllSrvs(rs[..k], n)
  }

  ghost predicate NoneBeforePtr(rs: seq<Record>, n: Name) {
    forall i :: 0 <= i < |rs| && rs[i].Srv? && rs[i].hdr.name == n ==> Seeded(rs[..i], n)
  }

  /** Every SRV record of an instance counts if and only if none precedes the first PTR
      record to it. */
  lemma SrvOrderIsExact(rs: seq<Record>, n: Name)
    ensures Srvs(rs, n) == AllSrvs(rs, n) <==> NoneBeforePtr(rs, n)
  {
    CountedSrvs(rs, n);
  }

  lemma {:induction false} CountedSrvs(rs: seq<Record>, n: Name)
    ensures |Srvs(rs, n)| <= |AllSrvs(rs, n)|
    ensures |Srvs(rs, n)| == |AllSrvs(rs, n)| <==> NoneBeforePtr(rs, n)
    ensures NoneBeforePtr(rs, n) ==> Srvs(rs, n) == AllSrvs(rs, n)
  {
    if rs != [] {
      var k := |rs| - 1;
      CountedSrvs(rs[..k], n);
      SrvsStep(rs, n);
      assert forall i :: 0 <= i < k ==> rs[..k][..i] == rs[..i] && rs[..k][i] == rs[i];
      hide Seeded;
    }
  }

  /** Two records: in this order the service stays blank, in the other it does not. */
  lemma SrvFirstIsLost(hdr: Header, ptrHdr: Header, priority: u16, weight: u16, port: u16, host: Name)
    requires host != []
    ensures var srv, ptr := Srv(hdr, priority, weight, port, host), Ptr(ptrHdr, hdr.name);
            && Instances([srv, ptr]) == Instances([ptr, srv]) == {hdr.name}
            && ServiceOf([srv, ptr], hdr.name).hostname == []
            && ServiceOf([ptr, srv], hdr.name).hostname == host
  {
    var srv, ptr, n := Srv(hdr, priority, weight, port, host), Ptr(ptrHdr, hdr.name), hdr.name;
    hide ServiceOf, Srvs, Accepted;
    OnlyInstance(srv, ptr);
    SrvBeforePtrIsIgnored([srv, ptr], n);
    SecondAccepted(srv, ptr);
    LastAcceptedSrvWins([ptr, srv], n, 1);
  }

  lemma OnlyInstance(srv: Record, ptr: Record)
    requires srv.Srv? && ptr.Ptr?
    ensures Instances([srv, ptr]) == Instances([ptr, srv]) == {ptr.target}
  {
    assert ptr in [srv, ptr] && ptr in [ptr, srv];
  }

  lemma SecondAccepted(srv: Record, ptr: Record)
    requires srv.Srv? && ptr.Ptr? && ptr.target == srv.hdr.name
    ensures Accepted([ptr, srv], srv.hdr.name, 1)
  {
    assert PtrTo([ptr, srv][..1][0], srv.hdr.name);
  }

  lemma {:induction false} NoHostsNoValues(rs: seq<Record>, v6: bool)
    ensures Values(rs, {}, v6) == []
  {
    if rs != [] {
      NoHostsNoValues(rs[..|rs| - 1], v6);
    }
  }

  // ---------------------------------------------------------------- the two passes

  type Joins = map<Name, seq<Name>>

  /** `hostTo` lists exactly the instances with an accepted SRV for each host. */
  ghost predicate JoinsOf(hostTo: Joins, rs: seq<Record>) {
    forall h, n :: (h in hostTo && n in hostTo[h]) <==> h in Hosts(rs, n)
  }

  ghost predicate FirstPassDone(svcs: map<Name, Service>, rs: seq<Record>) {
    && (forall n :: n in svcs <==> n in Instances(rs))
    && forall n :: n in svcs ==> svcs[n] == Bare(rs, n)
  }

  /** Before its PTR record nothing is known of an instance. */
  lemma {:induction false} BlankUntilSeeded(rs: seq<Record>, n: Name)
    requires n !in Instances(rs)
    ensures Srvs(rs, n) == [] && TxtEntries(rs, n) == [] && Hosts(rs, n) == {}
  {
    if rs != [] {
      var k := |rs| - 1;
      assert rs == rs[..k] + [rs[k]];
      OneMore(rs[..k], rs[k], n);
      BlankUntilSeeded(rs[..k], n);
    }
  }

  lemma {:induction false} MergeTxtTwice(dst: seq<Txt>, a: seq<Txt>, b: seq<Txt>)
    ensures MergeTxt(dst, a + b).0 == MergeTxt(MergeTxt(dst, a).0, b).0
  {
    hide MergeOne;
    if b == [] {
      assert a + b == a;
    } else {
      MergeTxtTwice(dst, a, b[..|b| - 1]);
      assert (a + b)[..|a + b| - 1] == a + b[..|b| - 1];
    }
  }

  /** First pass, one record: seeds, SRV data and TXT strings. */
  method FirstPassStep(svcs: map<Name, Service>, hostTo: Joins, r: Record, ghost rs: seq<Record>)
    returns (svcs': map<Name, Service>, hostTo': Joins)
    requires FirstPassDone(svcs, rs) && JoinsOf(hostTo, rs)
    ensures FirstPassDone(svcs', rs + [r]) && JoinsOf(hostTo', rs + [r])
  {
    hide FirstPassDone, JoinsOf, MergeTxt;
    svcs', hostTo' := svcs, hostTo;
    match r
    case Ptr(_, target) =>
      if target !in svcs {
        svcs' := svcs[target := Service(target, [], 0, [], [], [])];
      }
      PtrSeeds(svcs, svcs', hostTo, r, rs);
    case Srv(hdr, _, _, port, target) =>
      if hdr.name in svcs {
        svcs' := svcs[hdr.name := svcs[hdr.name].(hostname := target, port := port)];
        if target in hostTo {
          hostTo' := hostTo[target := hostTo[target] + [hdr.name]];
        } else {
          assert [] + [hdr.name] == [hdr.name];
          hostTo' := hostTo[target := [hdr.name]];
        }
      }
      SrvJoins(svcs, svcs', hostTo, hostTo', r, rs);
    case Txts(hdr, entries) =>
      if hdr.name in svcs {
        var txt, _ := MergeEntries(svcs[hdr.name].txt, entries);
        svcs' := svcs[hdr.name := svcs[hdr.name].(txt := txt)];
      }
      TxtMerges(svcs, svcs', hostTo, r, rs);
    case A(_, _) => AddressWaits(svcs, hostTo, r, rs);
    case Aaaa(_, _) => AddressWaits(svcs, hostTo, r, rs);
  }

  /** One record more: who is listed, which hosts count, and what is known. */
  lemma BareStep(rs: seq<Record>, r: Record, n: Name)
    ensures var known, old', new' := n in Instances(rs), Bare(rs, n), Bare(rs + [r], n);
            var about := known && r.hdr.name == n;
            && (n in Instances(rs + [r]) <==> known || PtrTo(r, n))
            && (!known ==> old' == Service(n, [], 0, [], [], []))
            && Hosts(rs + [r], n) == Hosts(rs, n) + (if about && r.Srv? then {r.target} else {})
            && new' == if about && r.Srv? then old'.(hostname := r.target, port := r.port)
                       else if about && r.Txts? then old'.(txt := MergeTxt(old'.txt, r.entries).0)
                       else old'
  {
    OneMore(rs, r, n);
    if n !in Instances(rs) {
      BlankUntilSeeded(rs, n);
      assert Described(n, [], []) == Service(n, [], 0, [], [], []);
    }
    hide Srvs, TxtEntries, Instances, Hosts, Described, MergeTxt;
    var srvs, es := Srvs(rs, n), TxtEntries(rs, n);
    if n in Instances(rs) && r.hdr.name == n && r.Srv? {
      DescribedSrv(n, srvs, r, es);
    } else if n in Instances(rs) && r.hdr.name == n && r.Txts? {
      DescribedTxt(n, srvs, es, r.entries);
    }
  }

  lemma DescribedSrv(n: Name, srvs: seq<Record>, r: Record, es: seq<Txt>)
    requires r.Srv?
    ensures Described(n, srvs + [r], es) == Described(n, srvs, es).(hostname := r.target, port := r.port)
  {
  }

  lemma DescribedTxt(n: Name, srvs: seq<Record>, es: seq<Txt>, more: seq<Txt>)
    ensures var svc := Described(n, srvs, es); Described(n, srvs, es + more) == svc.(txt := MergeTxt(svc.txt, more).0)
  {
    MergeTxtTwice([], es, more);
  }

  lemma PtrSeeds(svcs: map<Name, Service>, svcs': map<Name, Service>, hostTo: Joins, r: Record, rs: seq<Record>)
    requires FirstPassDone(svcs, rs) && JoinsOf(hostTo, rs) && r.Ptr?
    requires svcs' == if r.target in svcs then svcs else svcs[r.target := Service(r.target, [], 0, [], [], [])]
    ensures FirstPassDone(svcs', rs + [r]) && JoinsOf(hostTo, rs + [r])
  {
    hide Bare, Hosts, Instances, MergeTxt;
    forall n { BareStep(rs, r, n); }
  }

  lemma SrvJoins(svcs: map<Name, Service>, svcs': map<Name, Service>, hostTo: Joins, hostTo': Joins,
                 r: Record, rs: seq<Record>)
    requires FirstPassDone(svcs, rs) && JoinsOf(hostTo, rs) && r.Srv?
    requires var n := r.hdr.name;
             svcs' == if n in svcs then svcs[n := svcs[n].(hostname := r.target, port := r.port)] else svcs
    requires hostTo' == if r.hdr.name in svcs then Joined(hostTo, r.target, r.hdr.name) else hostTo
    ensures FirstPassDone(svcs', rs + [r]) && JoinsOf(hostTo', rs + [r])
  {
    hide Bare, Hosts, Instances, MergeTxt;
    forall n { BareStep(rs, r, n); }
  }

  function Joined(hostTo: Joins, host: Name, n: Name): Joins {
    hostTo[host := (if host in hostTo then hostTo[host] else []) + [n]]
  }

  lemma TxtMerges(svcs: map<Name, Service>, svcs': map<Name, Service>, hostTo: Joins, r: Record, rs: seq<Record>)
    requires FirstPassDone(svcs, rs) && JoinsOf(hostTo, rs) && r.Txts?
    requires var n := r.hdr.name;
             svcs' == if n in svcs then svcs[n := svcs[n].(txt := MergeTxt(svcs[n].txt, r.entries).0)] else svcs
    ensures FirstPassDone(svcs', rs + [r]) && JoinsOf(hostTo, rs + [r])
  {
    hide Bare, Hosts, Instances, MergeTxt;
    forall n { BareStep(rs, r, n); }
  }

  lemma AddressWaits(svcs: map<Name, Service>, hostTo: Joins, r: Record, rs: seq<Record>)
    requires FirstPassDone(svcs, rs) && JoinsOf(hostTo, rs) && IsAddress(r)
    ensures FirstPassDone(svcs, rs + [r]) && JoinsOf(hostTo, rs + [r])
  {
    hide Bare, Hosts, Instances, MergeTxt;
    forall n { BareStep(rs, r, n); }
  }

  /** The second pass after the records `seen` of all records `rs`. */
  ghost function Addressed(rs: seq<Record>, seen: seq<Record>, n: Name): Service {
    Bare(rs, n).(v4 := Distinct(Values(seen, Hosts(rs, n), false)), v6 := Distinct(Values(seen, Hosts(rs, n), true)))
  }

  ghost predicate SecondPassDone(svcs: map<Name, Service>, rs: seq<Record>, seen: seq<Record>) {
    && (forall n :: n in svcs <==> n in Instances(rs))
    && forall n :: n in svcs ==> svcs[n] == Addressed(rs, seen, n)
  }

  function AddOnce(svc: Service, x: Addr, v6: bool): Service {
    if x in Addrs(svc, v6) then svc else WithAddrs(svc, v6, Addrs(svc, v6) + [x])
  }

  lemma AddressOneMore(rs: seq<Record>, seen: seq<Record>, r: Record, n: Name)
    ensures Addressed(rs, seen + [r], n) ==
            if IsAddress(r) && r.hdr.name in Hosts(rs, n) then AddOnce(Addressed(rs, seen, n), r.addr, r.Aaaa?)
            else Addressed(rs, seen, n)
  {
    hide Bare, Hosts, Values, Distinct;
    var hosts := Hosts(rs, n);
    DistinctOneMore(seen, r, hosts, false);
    DistinctOneMore(seen, r, hosts, true);
  }

  lemma DistinctOneMore(seen: seq<Record>, r: Record, hosts: set<Name>, v6: bool)
    ensures var before := Distinct(Values(seen, hosts, v6));
            Distinct(Values(seen + [r], hosts, v6)) ==
            if Answers(r, v6) && r.hdr.name in hosts && r.addr !in before then before + [r.addr] else before
  {
    var vs := Values(seen, hosts, v6);
    assert (seen + [r])[..|seen|] == seen;
    if Answers(r, v6) && r.hdr.name in hosts {
      assert Values(seen + [r], hosts, v6) == vs + [r.addr];
      assert (vs + [r.addr])[..|vs|] == vs;
    } else {
      assert Values(seen + [r], hosts, v6) == vs;
    }
  }

  /** A known instance and one record more, other than an SRV record. */
  lemma ServiceStep(rs: seq<Record>, r: Record, n: Name)
    requires n in Instances(rs) && !r.Srv?
    ensures Hosts(rs + [r], n) == Hosts(rs, n) && n in Instances(rs + [r])
    ensures var svc := ServiceOf(rs, n);
            ServiceOf(rs + [r], n) ==
            if IsAddress(r) && r.hdr.name in Hosts(rs, n) then AddOnce(svc, r.addr, r.Aaaa?)
            else if r.Txts? && r.hdr.name == n then svc.(txt := MergeTxt(svc.txt, r.entries).0)
            else svc
  {
    BareStep(rs, r, n);
    AddressOneMore(rs + [r], rs, r, n);
    hide Bare, Hosts, Instances, MergeTxt, Values;
  }

  /** Second pass, one record: its address goes to every instance joined to its owner. */
  method SecondPassStep(svcs: map<Name, Service>, hostTo: Joins, r: Record,
                        ghost rs: seq<Record>, ghost seen: seq<Record>)
    returns (svcs': map<Name, Service>)
    requires JoinsOf(hostTo, rs) && SecondPassDone(svcs, rs, seen)
    ensures SecondPassDone(svcs', rs, seen + [r])
  {
    hide SecondPassDone, JoinsOf, AddOnce;
    svcs' := svcs;
    if IsAddress(r) && r.hdr.name in hostTo {
      var targets := hostTo[r.hdr.name];
      for k := 0 to |targets|
        invariant svcs'.Keys == svcs.Keys
        invariant forall n :: n in svcs ==>
                    svcs'[n] == if n in targets[..k] then AddOnce(svcs[n], r.addr, r.Aaaa?) else svcs[n]
      {
        var n := targets[k];
        assert targets[..k + 1] == targets[..k] + [n];
        if n in svcs' {
          AddOnceTwice(svcs[n], r.addr, r.Aaaa?);
          svcs' := svcs'[n := AddOnce(svcs'[n], r.addr, r.Aaaa?)];
        }
      }
      assert targets[..|targets|] == targets;
    }
    AddressesSpread(svcs, svcs', hostTo, r, rs, seen);
  }

  lemma AddOnceTwice(svc: Service, x: Addr, v6: bool)
    ensures AddOnce(AddOnce(svc, x, v6), x, v6) == AddOnce(svc, x, v6)
  {
  }

  predicate Reaches(hostTo: Joins, r: Record, n: Name) {
    IsAddress(r) && r.hdr.name in hostTo && n in hostTo[r.hdr.name]
  }

  lemma AddressesSpread(svcs: map<Name, Service>, svcs': map<Name, Service>, hostTo: Joins, r: Record,
                        rs: seq<Record>, seen: seq<Record>)
    requires JoinsOf(hostTo, rs) && SecondPassDone(svcs, rs, seen) && svcs'.Keys == svcs.Keys
    requires forall n :: n in svcs ==>
               svcs'[n] == if Reaches(hostTo, r, n) then AddOnce(svcs[n], r.addr, r.Aaaa?) else svcs[n]
    ensures SecondPassDone(svcs', rs, seen + [r])
  {
    hide AddOnce, Addressed, Hosts, Instances;
    assert forall n :: n in svcs' <==> n in svcs;
    forall n { AddressOneMore(rs, seen, r, n); }
  }

  /** aggregate: one service per distinct PTR target, in no particular order, each as
      ServiceOf says. */
  method Aggregate(records: seq<Record>) returns (result: seq<Service>)
    ensures forall i, j :: 0 <= i < j < |result| ==> result[i].instance != result[j].instance
    ensures forall svc :: svc in result <==>
              svc.instance in Instances(records) && svc == ServiceOf(records, svc.instance)
    ensures |result| == |Instances(records)|
  {
    hide FirstPassDone, SecondPassDone, JoinsOf, ServiceOf, Instances;
    var svcs: map<Name, Service> := map[];
    var hostTo: Joins := map[];
    NothingYet();
    for i := 0 to |records|
      invariant FirstPassDone(svcs, records[..i]) && JoinsOf(hostTo, records[..i])
    {
      svcs, hostTo := FirstPassStep(svcs, hostTo, records[i], records[..i]);
      assert records[..i + 1] == records[..i] + [records[i]];
    }
    assert records[..|records|] == records;
    BetweenPasses(svcs, records);
    for i := 0 to |records|
      invariant SecondPassDone(svcs, records, records[..i])
    {
      svcs := SecondPassStep(svcs, hostTo, records[i], records, records[..i]);
      assert records[..i + 1] == records[..i] + [records[i]];
    }
    AfterPasses(svcs, records);
    result := Collect(svcs);
  }

  lemma NothingYet()
    ensures FirstPassDone(map[], []) && JoinsOf(map[], [])
  {
  }

  lemma BetweenPasses(svcs: map<Name, Service>, rs: seq<Record>)
    requires FirstPassDone(svcs, rs)
    ensures SecondPassDone(svcs, rs, [])
  {
    hide Bare, Hosts, Instances;
    forall n
      ensures Addressed(rs, [], n) == Bare(rs, n).(v4 := [], v6 := [])
      ensures Bare(rs, n).v4 == [] && Bare(rs, n).v6 == []
    {
      BareHasNoAddresses(rs, n);
    }
  }

  lemma BareHasNoAddresses(rs: seq<Record>, n: Name)
    ensures Bare(rs, n).v4 == [] && Bare(rs, n).v6 == [] && Bare(rs, n).instance == n
  {
    hide Srvs, TxtEntries, MergeTxt;
  }

  lemma AfterPasses(svcs: map<Name, Service>, rs: seq<Record>)
    requires SecondPassDone(svcs, rs, rs)
    ensures svcs.Keys == Instances(rs)
    ensures forall n :: n in svcs ==> svcs[n] == ServiceOf(rs, n) && svcs[n].instance == n
  {
    hide Bare, Hosts, Instances;
    forall n { BareHasNoAddresses(rs, n); }
  }

  /** The values of the map, in some order. */
  method Collect(svcs: map<Name, Service>) returns (result: seq<Service>)
    requires forall n :: n in svcs ==> svcs[n].instance == n
    ensures forall i, j :: 0 <= i < j < |result| ==> result[i].instance != result[j].instance
    ensures forall svc :: svc in result <==> svc.instance in svcs && svc == svcs[svc.instance]
    ensures |result| == |svcs.Keys|
  {
    result := [];
    var left := svcs.Keys;
    while left != {}
      invariant left <= svcs.Keys && |result| + |left| == |svcs.Keys|
      invariant forall i, j :: 0 <= i < j < |result| ==> result[i].instance != result[j].instance
      invariant forall svc :: svc in result <==> svc.instance in svcs.Keys - left && svc == svcs[svc.instance]
    {
      var n :| n in left;
      left := left - {n};
      result := result + [svcs[n]];
    }
  }
}
