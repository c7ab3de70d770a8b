/** The service monitor's bookkeeping as a function of its state
    (lib/mdnspp/include/mdnspp/basic_service_monitor.h): one function per event
    handler. User callbacks are kept as one trace per instance, since their order
    across instances depends on hash-table traversal. */
module MonitorModel {
  import opened Bytes
  import opened Names
  import opened Records

  type Addr = seq<byte>

  datatype Service = Service(instance: Name, hostname: Name, port: u16, txt: seq<Txt>, v4: seq<Addr>, v6: seq<Addr>)

  datatype Partial = Partial(serviceType: Name, hasSrv: bool, hasAddress: bool, svc: Service)

  datatype Reason = Timeout | Goodbye | Unwatched

  datatype Call =
    | Found(svc: Service)
    | Updated(svc: Service, added: bool, rtype: u16)
    | Lost(svc: Service, reason: Reason)

  datatype State = State(
    watches: set<Name>, partials: map<Name, Partial>, live: map<Name, Service>, types: map<Name, Name>,
    hostnames: set<Name>, goodbyes: set<Name>, snapshot: map<Name, Service>, trace: map<Name, seq<Call>>)

  const INITIAL := State({}, map[], map[], map[], {}, {}, map[], map[])

  function Calls(trace: map<Name, seq<Call>>, n: Name): seq<Call> {
    if n in trace then trace[n] else []
  }

  /** The callbacks made so far for an instance. */
  function Trace(s: State, n: Name): seq<Call> { Calls(s.trace, n) }

  // ---------------------------------------------------------------- reporting

  /** One more callback for each instance in `calls`. */
  function Traced(trace: map<Name, seq<Call>>, calls: map<Name, Call>): map<Name, seq<Call>> {
    map n | n in trace.Keys + calls.Keys :: if n in calls then Calls(trace, n) + [calls[n]] else trace[n]
  }

  /** The live map changes; whoever is affected is told, and then the snapshot is renewed. */
  function Report(s: State, live: map<Name, Service>, calls: map<Name, Call>): State {
    if calls == map[] then s.(live := live)
    else s.(live := live, snapshot := live, trace := Traced(s.trace, calls))
  }

  function FoundCalls(g: map<Name, Service>): map<Name, Call> {
    map n | n in g :: Found(g[n])
  }

  function UpdatedCalls(f: map<Name, Service>, added: bool, rtype: u16): map<Name, Call> {
    map n | n in f :: Updated(f[n], added, rtype)
  }

  function LostCalls(f: map<Name, Service>, reason: Reason): map<Name, Call> {
    map n | n in f :: Lost(f[n], reason)
  }

  /** check_resolved for complete instances: the services in `g` leave the partial
      instances and become live. */
  function Promote(s: State, g: map<Name, Service>): State {
    Report(s.(partials := s.partials - g.Keys), g + s.live, FoundCalls(g))
  }

  /** The services in `f` replace their live entries. */
  function Update(s: State, f: map<Name, Service>, added: bool, rtype: u16): State {
    Report(s, s.live + f, UpdatedCalls(f, added, rtype))
  }

  predicate Resolved(p: Partial) { p.hasSrv && p.hasAddress }

  // ---------------------------------------------------------------- records coming in

  predicate IsRelevant(s: State, r: Record) {
    match r
    case Ptr(hdr, _) => hdr.name in s.watches
    case Srv(hdr, _, _, _, _) => hdr.name in s.partials || hdr.name in s.live
    case Txts(hdr, _) => hdr.name in s.partials || hdr.name in s.live
    case A(hdr, _) => hdr.name in s.hostnames
    case Aaaa(hdr, _) => hdr.name in s.hostnames
  }

  function ProcessPtr(s: State, serviceType: Name, inst: Name): State {
    if inst in s.partials || inst in s.live then s
    else s.(partials := s.partials[inst := Partial(serviceType, false, false, Service(inst, [], 0, [], [], []))],
            types := s.types[inst := serviceType])
  }

  function ProcessSrv(s: State, n: Name, ttl: u32, target: Name, port: u16): State {
    var s0 := if ttl == 0 then s.(goodbyes := s.goodbyes + {n}) else s;
    if n in s.partials then
      var p := s.partials[n];
      var p' := p.(hasSrv := true, svc := p.svc.(hostname := target, port := port));
      var s1 := s0.(partials := s.partials[n := p'], hostnames := s.hostnames + {target});
      if Resolved(p') then Promote(s1, map[n := p'.svc]) else s1
    else if n in s.live && (s.live[n].hostname != target || s.live[n].port != port) then
      var svc := s.live[n].(hostname := target, port := port);
      Update(s0.(hostnames := s.hostnames + {target}), map[n := svc], true, TYPE_SRV)
    else s0
  }

  function Addrs(svc: Service, v6: bool): seq<Addr> { if v6 then svc.v6 else svc.v4 }

  function WithAddrs(svc: Service, v6: bool, addrs: seq<Addr>): Service {
    if v6 then svc.(v6 := addrs) else svc.(v4 := addrs)
  }

  function AddrType(v6: bool): u16 { if v6 then TYPE_AAAA else TYPE_A }

  /** The service is on this host and does not list this address yet. */
  predicate Gains(svc: Service, host: Name, x: Addr, v6: bool) {
    svc.hostname == host && x !in Addrs(svc, v6)
  }

  function Gained(svc: Service, x: Addr, v6: bool): Service {
    WithAddrs(svc, v6, Addrs(svc, v6) + [x])
  }

  function PartialGained(p: Partial, host: Name, x: Addr, v6: bool): Partial {
    if Gains(p.svc, host, x, v6) then p.(hasAddress := true, svc := Gained(p.svc, x, v6)) else p
  }

  function PartialsGain(s: State, host: Name, x: Addr, v6: bool): map<Name, Partial> {
    map n | n in s.partials :: PartialGained(s.partials[n], host, x, v6)
  }

  ghost predicate AnyPartialGains(s: State, host: Name, x: Addr, v6: bool) {
    exists n :: n in s.partials && Gains(s.partials[n].svc, host, x, v6)
  }

  /** What is promoted after a partial instance has gained an address. */
  function Complete(partials: map<Name, Partial>, host: Name): map<Name, Service> {
    map n | n in partials && partials[n].svc.hostname == host && Resolved(partials[n]) :: partials[n].svc
  }

  ghost function AddressToPartials(s: State, host: Name, x: Addr, v6: bool): State {
    var s1 := s.(partials := PartialsGain(s, host, x, v6));
    if AnyPartialGains(s, host, x, v6) then Promote(s1, Complete(s1.partials, host)) else s1
  }

  function LiveGains(live: map<Name, Service>, host: Name, x: Addr, v6: bool): map<Name, Service> {
    map n | n in live && Gains(live[n], host, x, v6) :: Gained(live[n], x, v6)
  }

  function AddressToLive(s: State, host: Name, x: Addr, v6: bool): State {
    Update(s, LiveGains(s.live, host, x, v6), true, AddrType(v6))
  }

  ghost function ProcessAddress(s: State, host: Name, x: Addr, v6: bool): State {
    AddressToLive(AddressToPartials(s, host, x, v6), host, x, v6)
  }

  function KeyIndex(es: seq<Txt>, key: seq<byte>): (i: nat)
    ensures i <= |es| && (i < |es| ==> es[i].key == key)
    ensures forall j :: 0 <= j < i ==> es[j].key != key
  {
    if es == [] || es[0].key == key then 0 else 1 + KeyIndex(es[1..], key)
  }

  function MergeOne(dst: seq<Txt>, e: Txt): seq<Txt> {
    var i := KeyIndex(dst, e.key);
    if i == |dst| then dst + [e] else dst[i := e]
  }

  /** merge_txt: last value wins for each key; the flag says whether any step changed something. */
  function MergeTxt(dst: seq<Txt>, src: seq<Txt>): (seq<Txt>, bool) {
    if src == [] then (dst, false)
    else
      var (d, changed) := MergeTxt(dst, src[..|src| - 1]);
      var e := src[|src| - 1];
      (MergeOne(d, e), changed || MergeOne(d, e) != d)
  }

  /** The loop that merges TXT strings into those already there. */
  method MergeEntries(dst: seq<Txt>, src: seq<Txt>) returns (txt: seq<Txt>, changed: bool)
    ensures (txt, changed) == MergeTxt(dst, src)
  {
    hide KeyIndex;
    txt, changed := dst, false;
    assert src[..0] == [];
    for i := 0 to |src|
      invariant (txt, changed) == MergeTxt(dst, src[..i])
    {
      assert src[..i + 1][..i] == src[..i];
      var k := KeyIndex(txt, src[i].key);
      ghost var was := txt;
      if k == |txt| {
        txt := txt + [src[i]];
        changed := true;
      } else if txt[k].value != src[i].value {
        txt := txt[k := Txt(txt[k].key, src[i].value)];
        assert txt[k] != was[k];
        changed := true;
      } else {
        assert txt[k] == src[i] && txt[k := src[i]] == txt;
      }
    }
    assert src[..|src|] == src;
  }

  function ProcessTxt(s: State, n: Name, entries: seq<Txt>): State {
    if n in s.partials then
      var p := s.partials[n];
      s.(partials := s.partials[n := p.(svc := p.svc.(txt := MergeTxt(p.svc.txt, entries).0))])
    else if n in s.live && MergeTxt(s.live[n].txt, entries).1 then
      var svc := s.live[n].(txt := MergeTxt(s.live[n].txt, entries).0);
      Update(s, map[n := svc], true, TYPE_TXT)
    else s
  }

  ghost function Process(s: State, r: Record): State {
    match r
    case Ptr(hdr, target) => ProcessPtr(s, hdr.name, target)
    case Srv(hdr, _, _, port, target) => ProcessSrv(s, hdr.name, hdr.ttl, target, port)
    case A(hdr, x) => ProcessAddress(s, hdr.name, x, false)
    case Aaaa(hdr, x) => ProcessAddress(s, hdr.name, x, true)
    case Txts(hdr, entries) => ProcessTxt(s, hdr.name, entries)
  }

  // ---------------------------------------------------------------- records expiring

  function ExpireSrv(s: State, n: Name): State {
    var s1 := s.(partials := s.partials - {n}, goodbyes := s.goodbyes - {n});
    if n !in s.live then s1
    else Report(s1, s.live - {n}, LostCalls(map[n := s.live[n]], if n in s.goodbyes then Goodbye else Timeout))
  }

  function IndexOf(addrs: seq<Addr>, x: Addr): (i: nat)
    ensures i <= |addrs| && (i < |addrs| ==> addrs[i] == x) && (i < |addrs| <==> x in addrs)
  {
    if addrs == [] || addrs[0] == x then 0 else 1 + IndexOf(addrs[1..], x)
  }

  function RemoveAddr(addrs: seq<Addr>, x: Addr): seq<Addr> {
    var i := IndexOf(addrs, x);
    if i < |addrs| then addrs[..i] + addrs[i + 1..] else addrs
  }

  predicate Loses(svc: Service, host: Name, x: Addr, v6: bool) {
    svc.hostname == host && x in Addrs(svc, v6)
  }

  function Dropped(svc: Service, x: Addr, v6: bool): Service {
    WithAddrs(svc, v6, RemoveAddr(Addrs(svc, v6), x))
  }

  function LiveLosses(live: map<Name, Service>, host: Name, x: Addr, v6: bool): map<Name, Service> {
    map n | n in live && Loses(live[n], host, x, v6) :: Dropped(live[n], x, v6)
  }

  function ExpireAddress(s: State, host: Name, x: Addr, v6: bool): State {
    Update(s, LiveLosses(s.live, host, x, v6), false, AddrType(v6))
  }

  function RemoveKey(es: seq<Txt>, key: seq<byte>): seq<Txt> {
    var i := KeyIndex(es, key);
    if i < |es| then es[..i] + es[i + 1..] else es
  }

  function RemoveKeys(es: seq<Txt>, gone: seq<Txt>): seq<Txt> {
    if gone == [] then es else RemoveKey(RemoveKeys(es, gone[..|gone| - 1]), gone[|gone| - 1].key)
  }

  function ExpireTxt(s: State, n: Name, entries: seq<Txt>): State {
    if n in s.live && RemoveKeys(s.live[n].txt, entries) != s.live[n].txt then
      var svc := s.live[n].(txt := RemoveKeys(s.live[n].txt, entries));
      Update(s, map[n := svc], false, TYPE_TXT)
    else s
  }

  function Expire(s: State, r: Record): State {
    match r
    case Ptr(_, _) => s
    case Srv(hdr, _, _, _, _) => ExpireSrv(s, hdr.name)
    case A(hdr, x) => ExpireAddress(s, hdr.name, x, false)
    case Aaaa(hdr, x) => ExpireAddress(s, hdr.name, x, true)
    case Txts(hdr, entries) => ExpireTxt(s, hdr.name, entries)
  }

  /** handle_expired, in the order the cache hands the records over. */
  function ExpireAll(s: State, rs: seq<Record>): State {
    if rs == [] then s else Expire(ExpireAll(s, rs[..|rs| - 1]), rs[|rs| - 1])
  }

  // ---------------------------------------------------------------- watching

  function Watch(s: State, t: Name): State {
    s.(watches := s.watches + {t})
  }

  function Hostnames(live: map<Name, Service>, partials: map<Name, Partial>): set<Name> {
    (set n | n in live && live[n].hostname != [] :: live[n].hostname)
    + (set n | n in partials && partials[n].svc.hostname != [] :: partials[n].svc.hostname)
  }

  function LiveOfType(live: map<Name, Service>, types: map<Name, Name>, t: Name): map<Name, Service> {
    map n | n in live && n in types && types[n] == t :: live[n]
  }

  function PartialsNotOfType(partials: map<Name, Partial>, t: Name): map<Name, Partial> {
    map n | n in partials && partials[n].serviceType != t :: partials[n]
  }

  function TypesWithout(types: map<Name, Name>, t: Name): map<Name, Name> {
    map n | n in types && types[n] != t :: types[n]
  }

  function Unwatch(s: State, t: Name): State {
    if t !in s.watches then s
    else
      var gone := LiveOfType(s.live, s.types, t);
      var live, partials := s.live - gone.Keys, PartialsNotOfType(s.partials, t);
      s.(live := live, snapshot := live, partials := partials,
         trace := Traced(s.trace, LostCalls(gone, Unwatched)),
         types := TypesWithout(s.types, t), hostnames := Hostnames(live, partials),
         watches := s.watches - {t}, goodbyes := {})
  }
}
