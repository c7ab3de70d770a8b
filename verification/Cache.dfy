/** What a record cache holds, as a function of everything that was inserted
    (lib/mdnspp/include/mdnspp/record_cache.h): goodbye grace and cache flush of
    sections 10.1 and 10.2 of RFC 6762. Time is an integer number of nanoseconds. */
module CacheModel {
  import opened Bytes
  import opened Records

  const SECOND: int := 1_000_000_000

  datatype Endpoint = Endpoint(address: seq<byte>, port: u16)

  datatype Entry = Entry(record: Record, origin: Endpoint, flush: bool, ttl: u32,
                         insertedAt: int, flushDeadline: Option<int>)

  /** Equal name, type, class and rdata. */
  predicate IdentityEqual(a: Record, b: Record) {
    && SameKey(a, b)
    && a.hdr.rclass == b.hdr.rclass
    && match (a, b)
       case (Ptr(_, s), Ptr(_, t)) => s == t
       case (Srv(_, p, w, o, s), Srv(_, p', w', o', t)) => o == o' && w == w' && p == p' && s == t
       case (A(_, s), A(_, t)) => s == t
       case (Aaaa(_, s), Aaaa(_, t)) => s == t
       case (Txts(_, s), Txts(_, t)) =>
         |s| == |t| && forall i :: 0 <= i < |s| ==> s[i].key == t[i].key && s[i].value == t[i].value
       case _ => false
  }

  /** The two records answer the same question: equal name and type. */
  predicate SameKey(a: Record, b: Record) {
    a.hdr.name == b.hdr.name && TypeOf(a) == TypeOf(b)
  }

  /** A record without what a refresh may change. */
  function Identity(r: Record): Record {
    r.(hdr := r.hdr.(ttl := 0, flush := false))
  }

  lemma IdentityIsCanonical(a: Record, b: Record)
    ensures IdentityEqual(a, b) <==> Identity(a) == Identity(b)
  {
    if a.Txts? && b.Txts? && IdentityEqual(a, b) {
      assert a.entries == b.entries;
    }
  }

  type Store = map<Record, Entry>   // keyed by identity

  /** Two records are one and the same exactly if they agree in all but TTL and flush bit. */
  lemma IdentityIsExact(a: Record, b: Record)
    ensures Identity(a) == Identity(b) <==>
            a.hdr.name == b.hdr.name && a.hdr.rclass == b.hdr.rclass && a.(hdr := b.hdr) == b
  {
  }

  predicate IsExpired(e: Entry, now: int) {
    now >= e.insertedAt + e.ttl * SECOND || (e.flushDeadline.Some? && now >= e.flushDeadline.value)
  }

  /** The first moment at which the entry is expired. */
  function ExpiryOf(e: Entry): (t: int)
    ensures forall now :: IsExpired(e, now) <==> now >= t
  {
    var own := e.insertedAt + e.ttl * SECOND;
    if e.flushDeadline.Some? then Min(own, e.flushDeadline.value) else own
  }

  function Min(a: int, b: int): int { if a < b then a else b }

  function EffectiveTtl(r: Record, grace: u32): u32 {
    if r.hdr.ttl == 0 then grace else r.hdr.ttl
  }

  /** A flush by another origin leaves the entry at most the grace period. */
  function Doomed(e: Entry, deadline: int): Entry {
    if e.flushDeadline.None? || e.flushDeadline.value > deadline then e.(flushDeadline := Some(deadline)) else e
  }

  function Fresh(m: Store, r: Record, origin: Endpoint, now: int, grace: u32): Entry {
    Entry(if Identity(r) in m then m[Identity(r)].record else r, origin, r.hdr.flush, EffectiveTtl(r, grace), now, None)
  }

  predicate Affected(e: Entry, r: Record, origin: Endpoint) {
    SameKey(e.record, r) && e.origin != origin
  }

  function Flushed(m: Store, r: Record, origin: Endpoint, deadline: int): Store {
    map i | i in m :: if Affected(m[i], r, origin) then Doomed(m[i], deadline) else m[i]
  }

  function Inserted(m: Store, r: Record, origin: Endpoint, now: int, grace: u32): Store {
    var m' := m[Identity(r) := Fresh(m, r, origin, now, grace)];
    if r.hdr.flush then Flushed(m', r, origin, now + grace * SECOND) else m'
  }

  function Swept(m: Store, now: int): Store {
    map i | i in m && !IsExpired(m[i], now) :: m[i]
  }

  /** What an insertion does to its own entry: it expires after the record's TTL, or after
      the grace period if that is zero, on behalf of its origin. A refreshed entry keeps the
      record it has. */
  lemma InsertedIsExact(m: Store, r: Record, o: Endpoint, now: int, grace: u32)
    ensures var m', id := Inserted(m, r, o, now, grace), Identity(r);
            && id in m' && m'[id].origin == o && m'[id].record == (if id in m then m[id].record else r)
            && ExpiryOf(m'[id]) == now + (if r.hdr.ttl == 0 then grace else r.hdr.ttl) * SECOND
  {
    hide Identity, SameKey, Doomed;
  }

  /** What it does to all others: with the flush bit, an entry of the same owner name and
      record type from another origin that would have lived longer expires after the grace
      period; everything else stays. */
  lemma FlushIsExact(m: Store, r: Record, o: Endpoint, now: int, grace: u32, id: Record)
    requires id != Identity(r) && (id in m ==> Identity(m[id].record) == id)
    ensures var m', deadline := Inserted(m, r, o, now, grace), now + grace * SECOND;
            && (id in m' <==> id in m)
            && (id in m ==>
                  && m'[id].origin == m[id].origin && m'[id].record == m[id].record
                  && ExpiryOf(m'[id]) ==
                     if r.hdr.flush && id.hdr.name == r.hdr.name && TypeOf(id) == TypeOf(r) && m[id].origin != o
                        && ExpiryOf(m[id]) > deadline then deadline
                     else ExpiryOf(m[id]))
  {
    hide Fresh;
    if id in m {
      assert SameKey(m[id].record, r) <==> id.hdr.name == r.hdr.name && TypeOf(id) == TypeOf(r);
      hide Identity, SameKey;
    }
  }

  // ---------------------------------------------------------------- the event log

  datatype Event =
    | Insertion(time: int, record: Record, origin: Endpoint)
    | Sweep(time: int)

  function Run(log: seq<Event>, grace: u32): Store {
    if log == [] then map[] else
    var m, e := Run(log[..|log| - 1], grace), log[|log| - 1];
    match e
    case Insertion(time, r, origin) => Inserted(m, r, origin, time, grace)
    case Sweep(time) => Swept(m, time)
  }

  predicate Monotone(log: seq<Event>) {
    forall i, j :: 0 <= i < j < |log| ==> log[i].time <= log[j].time
  }

  ghost predicate LastInsertion(log: seq<Event>, id: Record, k: nat) {
    && k < |log| && log[k].Insertion? && Identity(log[k].record) == id
    && forall j :: k < j < |log| && log[j].Insertion? ==> Identity(log[j].record) != id
  }

  /** Event `f` flushes what event `e` inserted: same name and type, other origin. */
  predicate FlushesEvent(f: Event, e: Event)
    requires e.Insertion?
  {
    && f.Insertion? && f.record.hdr.flush && f.origin != e.origin
    && f.record.hdr.name == e.record.hdr.name && TypeOf(f.record) == TypeOf(e.record)
  }

  /** The last insertion of `id` still counts at time `t`: its own lifetime has
      not run out, nor has the grace period of any later flush against it. */
  ghost predicate StillGood(log: seq<Event>, k: nat, t: int, grace: u32)
    requires k < |log| && log[k].Insertion?
  {
    && t < log[k].time + (if log[k].record.hdr.ttl == 0 then grace else log[k].record.hdr.ttl) * SECOND
    && forall j :: k < j < |log| && FlushesEvent(log[j], log[k]) ==> t < log[j].time + grace * SECOND
  }

  ghost predicate Present(log: seq<Event>, id: Record, t: int, grace: u32) {
    exists k :: LastInsertion(log, id, k) && StillGood(log, k, t, grace)
  }

  // ---------------------------------------------------------------- proof

  datatype Lease = Lease(origin: Endpoint, expiry: int)

  /** Until when, and on whose behalf, the log keeps `id` alive. */
  function LeaseOf(log: seq<Event>, id: Record, grace: u32): Option<Lease> {
    if log == [] then None else LeaseStep(LeaseOf(log[..|log| - 1], id, grace), log[|log| - 1], id, grace)
  }

  function LeaseStep(was: Option<Lease>, e: Event, id: Record, grace: u32): Option<Lease> {
    if e.Sweep? then was
    else if Identity(e.record) == id then Some(Lease(e.origin, e.time + EffectiveTtl(e.record, grace) * SECOND))
    else if was.Some? && e.record.hdr.flush && SameKey(e.record, id) && e.origin != was.value.origin then
      Some(Lease(was.value.origin, Min(was.value.expiry, e.time + grace * SECOND)))
    else was
  }

  /** The lease is the last insertion and all later flushes, taken together. */
  lemma {:induction false} LeaseWitness(log: seq<Event>, id: Record, grace: u32) returns (k: nat)
    ensures LeaseOf(log, id, grace).None? ==> forall j: nat :: !LastInsertion(log, id, j)
    ensures LeaseOf(log, id, grace).Some? ==>
              var lease := LeaseOf(log, id, grace).value;
              && LastInsertion(log, id, k) && log[k].origin == lease.origin
              && forall t :: StillGood(log, k, t, grace) <==> t < lease.expiry
  {
    k := 0;
    if log != [] {
      var n := |log| - 1;
      var init, e := log[..n], log[n];
      assert log == init + [e];
      k := LeaseWitness(init, id, grace);
      if e.Insertion? && Identity(e.record) == id {
        k := n;
      } else {
        assert forall j: nat :: LastInsertion(log, id, j) <==> LastInsertion(init, id, j) by {
          LastInsertionGrows(init, e, id);
        }
        if LeaseOf(init, id, grace).Some? {
          assert SameKey(log[k].record, id);
          forall t
            ensures StillGood(log, k, t, grace) <==> t < LeaseOf(log, id, grace).value.expiry
          {
            StillGoodGrows(init, e, k, t, grace);
          }
        }
      }
    }
  }

  lemma LastInsertionGrows(init: seq<Event>, e: Event, id: Record)
    requires e.Sweep? || Identity(e.record) != id
    ensures forall j: nat :: LastInsertion(init + [e], id, j) <==> LastInsertion(init, id, j)
  {
    var log := init + [e];
    assert log[|init|] == e && forall i :: 0 <= i < |init| ==> log[i] == init[i];
  }

  lemma LeaseIsPresence(log: seq<Event>, id: Record, t: int, grace: u32)
    ensures Present(log, id, t, grace) <==> LeaseOf(log, id, grace).Some? && t < LeaseOf(log, id, grace).value.expiry
  {
    hide LeaseOf, StillGood;
    var k := LeaseWitness(log, id, grace);
    if j: nat :| LastInsertion(log, id, j) && StillGood(log, j, t, grace) {
      assert j == k;
    }
  }

  lemma StillGoodGrows(init: seq<Event>, e: Event, k: nat, t: int, grace: u32)
    requires k < |init| && init[k].Insertion?
    ensures StillGood(init + [e], k, t, grace) <==>
              StillGood(init, k, t, grace) && (FlushesEvent(e, init[k]) ==> t < e.time + grace * SECOND)
  {
    var log := init + [e];
    assert log[|init|] == e && forall i :: 0 <= i < |init| ==> log[i] == init[i];
  }

  /** What relates the cache to its log at any moment, expired entries included. */
  ghost predicate Tracks(m: Store, log: seq<Event>, grace: u32) {
    && (forall id :: id in m ==> EntryTracks(m[id], id, LeaseOf(log, id, grace)))
    && (forall id :: id !in m && LeaseOf(log, id, grace).Some? && log != [] ==>
          LeaseOf(log, id, grace).value.expiry <= log[|log| - 1].time)
  }

  ghost predicate EntryTracks(e: Entry, id: Record, lease: Option<Lease>) {
    && Identity(e.record) == id
    && lease.Some? && e.origin == lease.value.origin
    && ExpiryOf(e) == lease.value.expiry
  }

  lemma {:induction false} RunTracks(log: seq<Event>, grace: u32)
    requires Monotone(log)
    ensures Tracks(Run(log, grace), log, grace)
  {
    if log != [] {
      var n := |log| - 1;
      var init := log[..n];
      assert Monotone(init);
      RunTracks(init, grace);
      var m, e := Run(init, grace), log[n];
      assert init != [] ==> init[|init| - 1].time <= e.time;
      if e.Sweep? {
        assert forall id :: LeaseOf(log, id, grace) == LeaseOf(init, id, grace);
      } else {
        forall id
          ensures id in Run(log, grace) ==> EntryTracks(Run(log, grace)[id], id, LeaseOf(log, id, grace))
          ensures id !in Run(log, grace) && LeaseOf(log, id, grace).Some? ==>
                    LeaseOf(log, id, grace).value.expiry <= e.time
        {
          InsertionTracks(m, e, id, LeaseOf(init, id, grace), LeaseOf(log, id, grace), grace);
        }
      }
    }
  }

  lemma InsertionTracks(m: Store, e: Event, id: Record, was: Option<Lease>, now: Option<Lease>, grace: u32)
    requires e.Insertion?
    requires forall i :: i in m ==> Identity(m[i].record) == i
    requires id in m ==> EntryTracks(m[id], id, was)
    requires now == LeaseStep(was, e, id, grace)
    ensures var m' := Inserted(m, e.record, e.origin, e.time, grace);
            (id in m' <==> id in m || id == Identity(e.record)) && (id in m' ==> EntryTracks(m'[id], id, now))
  {
  }

  /** The cache refines its log: right after a sweep a record is there exactly if
      the declarative reading of the log says so. */
  lemma SweepKeepsExactlyPresent(log: seq<Event>, t: int, grace: u32, id: Record)
    requires Monotone(log + [Sweep(t)])
    ensures id in Run(log + [Sweep(t)], grace) <==> Present(log, id, t, grace)
  {
    var log' := log + [Sweep(t)];
    assert log'[..|log|] == log;
    assert Monotone(log) by {
      assert forall i :: 0 <= i < |log| ==> log'[i] == log[i];
    }
    RunTracks(log, grace);
    LeaseIsPresence(log, id, t, grace);
    assert log != [] ==> log[|log| - 1].time <= t by {
      assert log != [] ==> log'[|log| - 1] == log[|log| - 1] && log'[|log|].time == t;
    }
  }

  function Insertions(log: seq<Event>): seq<Event> {
    if log == [] then []
    else if log[|log| - 1].Sweep? then Insertions(log[..|log| - 1])
    else Insertions(log[..|log| - 1]) + [log[|log| - 1]]
  }

  lemma {:induction false} LeaseIgnoresSweeps(log: seq<Event>, id: Record, grace: u32)
    ensures LeaseOf(Insertions(log), id, grace) == LeaseOf(log, id, grace)
  {
    if log != [] {
      var n := |log| - 1;
      LeaseIgnoresSweeps(log[..n], id, grace);
      if log[n].Sweep? {
        assert LeaseStep(LeaseOf(log[..n], id, grace), log[n], id, grace) == LeaseOf(log[..n], id, grace);
      }
      hide LeaseStep;
      if log[n].Insertion? {
        var kept := Insertions(log);
        assert kept[|kept| - 1] == log[n] && kept[..|kept| - 1] == Insertions(log[..n]);
      }
    }
  }

  /** Sweeping more or less often never changes what a later sweep leaves. */
  lemma SweepsDoNotMatter(log1: seq<Event>, log2: seq<Event>, t: int, grace: u32)
    requires Monotone(log1 + [Sweep(t)]) && Monotone(log2 + [Sweep(t)])
    requires Insertions(log1) == Insertions(log2)
    ensures Run(log1 + [Sweep(t)], grace).Keys == Run(log2 + [Sweep(t)], grace).Keys
  {
    forall id
      ensures id in Run(log1 + [Sweep(t)], grace) <==> id in Run(log2 + [Sweep(t)], grace)
    {
      hide Run, Present, LeaseOf, Monotone;
      SweepKeepsExactlyPresent(log1, t, grace, id);
      SweepKeepsExactlyPresent(log2, t, grace, id);
      LeaseIsPresence(log1, id, t, grace);
      LeaseIsPresence(log2, id, t, grace);
      LeaseIgnoresSweeps(log1, id, grace);
      LeaseIgnoresSweeps(log2, id, grace);
    }
  }
}
