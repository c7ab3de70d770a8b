/** The record cache as an object: a multimap updated in place, proved to hold at
    every moment what its event log determines. Locks and the user's callbacks
    are not part of it; the order of `entries` stands for the order in which the
    hash table happens to be traversed. */
module RecordCaches {
  import opened Bytes
  import opened Names
  import opened Records
  import opened CacheModel

  ghost predicate Distinct(es: seq<Entry>) {
    forall i, j :: 0 <= i < j < |es| ==> Identity(es[i].record) != Identity(es[j].record)
  }

  ghost function Contents(es: seq<Entry>): Store {
    if es == [] then map[]
    else Contents(es[..|es| - 1])[Identity(es[|es| - 1].record) := es[|es| - 1]]
  }

  lemma ContentsAppend(es: seq<Entry>, e: Entry)
    ensures Contents(es + [e]) == Contents(es)[Identity(e.record) := e]
    ensures Distinct(es) && Absent(es, Identity(e.record)) ==> Distinct(es + [e])
  {
    var es' := es + [e];
    assert es'[..|es'| - 1] == es;
    assert es'[|es|] == e && forall i :: 0 <= i < |es| ==> es'[i] == es[i];
  }

  ghost predicate Absent(es: seq<Entry>, id: Record) {
    forall i :: 0 <= i < |es| ==> Identity(es[i].record) != id
  }

  lemma {:induction false} AbsentKey(es: seq<Entry>, id: Record)
    ensures id in Contents(es) <==> !Absent(es, id)
    ensures id in Contents(es) ==> Contents(es)[id] in es
  {
    hide Identity;
    if es != [] {
      var n := |es| - 1;
      AbsentKey(es[..n], id);
      assert es == es[..n] + [es[n]];
      assert Absent(es, id) <==> Absent(es[..n], id) && Identity(es[n].record) != id by {
        assert forall i :: 0 <= i < n ==> es[i] == es[..n][i];
      }
    }
  }

  lemma DistinctInit(es: seq<Entry>)
    requires es != [] && Distinct(es)
    ensures Distinct(es[..|es| - 1]) && Absent(es[..|es| - 1], Identity(es[|es| - 1].record))
  {
    hide Identity;
    var n := |es| - 1;
    assert forall i :: 0 <= i < n ==> es[i] == es[..n][i];
  }

  lemma {:induction false} ContentsUpdate(es: seq<Entry>, k: nat, e: Entry)
    requires Distinct(es) && k < |es| && Identity(e.record) == Identity(es[k].record)
    ensures Distinct(es[k := e])
    ensures Contents(es[k := e]) == Contents(es)[Identity(e.record) := e]
  {
    hide Identity;
    var n := |es| - 1;
    DistinctInit(es);
    if k == n {
      assert es[k := e][..n] == es[..n];
    } else {
      ContentsUpdate(es[..n], k, e);
      assert es[k := e][..n] == es[..n][k := e];
    }
  }

  lemma {:induction false} FoundIn(es: seq<Entry>, k: nat)
    requires Distinct(es) && k < |es|
    ensures Identity(es[k].record) in Contents(es) && Contents(es)[Identity(es[k].record)] == es[k]
  {
    hide Identity;
    if k < |es| - 1 {
      DistinctInit(es);
      FoundIn(es[..|es| - 1], k);
    }
  }

  ghost function Marked(e: Entry, r: Record, origin: Endpoint, deadline: int): Entry {
    if Affected(e, r, origin) then Doomed(e, deadline) else e
  }

  lemma {:induction false} ContentsFlushed(es: seq<Entry>, es': seq<Entry>, r: Record, origin: Endpoint, deadline: int)
    requires |es'| == |es|
    requires forall i :: 0 <= i < |es| ==> es'[i] == Marked(es[i], r, origin, deadline)
    ensures Distinct(es) ==> Distinct(es')
    ensures Contents(es') == Flushed(Contents(es), r, origin, deadline)
  {
    assert forall i :: 0 <= i < |es| ==> es'[i].record == es[i].record;
    hide Identity, Affected, Doomed;
    if es != [] {
      var n := |es| - 1;
      ContentsFlushed(es[..n], es'[..n], r, origin, deadline);
      FlushedExtends(Contents(es[..n]), es[n], r, origin, deadline);
    }
  }

  lemma FlushedExtends(m: Store, e: Entry, r: Record, origin: Endpoint, deadline: int)
    ensures Flushed(m[Identity(e.record) := e], r, origin, deadline)
         == Flushed(m, r, origin, deadline)[Identity(e.record) := Marked(e, r, origin, deadline)]
  {
    hide Identity, Affected, Doomed;
  }

  function Live(es: seq<Entry>, now: int): seq<Entry> {
    if es == [] then []
    else if IsExpired(es[|es| - 1], now) then Live(es[..|es| - 1], now)
    else Live(es[..|es| - 1], now) + [es[|es| - 1]]
  }

  function Dead(es: seq<Entry>, now: int): seq<Entry> {
    if es == [] then []
    else if IsExpired(es[|es| - 1], now) then Dead(es[..|es| - 1], now) + [es[|es| - 1]]
    else Dead(es[..|es| - 1], now)
  }

  lemma {:induction false} ContentsLive(es: seq<Entry>, now: int)
    requires Distinct(es)
    ensures Distinct(Live(es, now)) && Contents(Live(es, now)) == Swept(Contents(es), now)
    ensures forall id :: Absent(es, id) ==> Absent(Live(es, now), id)
  {
    hide Identity, IsExpired;
    if es != [] {
      var n := |es| - 1;
      var e := es[n];
      DistinctInit(es);
      ContentsLive(es[..n], now);
      AbsentKey(es[..n], Identity(e.record));
      SweptExtends(Contents(es[..n]), e, now);
      assert forall id :: Absent(es, id) ==> Absent(es[..n], id) && Identity(e.record) != id;
      ContentsAppend(Live(es[..n], now), e);
    }
  }

  lemma SweptExtends(m: Store, e: Entry, now: int)
    requires Identity(e.record) !in m
    ensures Swept(m[Identity(e.record) := e], now)
         == if IsExpired(e, now) then Swept(m, now) else Swept(m, now)[Identity(e.record) := e]
  {
    hide Identity, IsExpired;
  }

  lemma {:induction false} DeadExactly(es: seq<Entry>, now: int, e: Entry)
    ensures e in Dead(es, now) <==> e in es && IsExpired(e, now)
  {
    hide IsExpired;
    if es != [] {
      var n := |es| - 1;
      assert es == es[..n] + [es[n]];
      DeadExactly(es[..n], now, e);
    }
  }

  class RecordCache {
    const grace: u32
    var entries: seq<Entry>
    ghost var log: seq<Event>

    ghost predicate Valid()
      reads this
    {
      Distinct(entries) && Contents(entries) == Run(log, grace) && Monotone(log)
    }

    /** The clock is steady: no event lies before the ones already logged. */
    ghost predicate Reached(now: int)
      reads this
    {
      forall i :: 0 <= i < |log| ==> log[i].time <= now
    }

    constructor (goodbyeGrace: u32)
      ensures Valid() && entries == [] && log == [] && grace == goodbyeGrace
    {
      grace := goodbyeGrace;
      entries := [];
      log := [];
    }

    lemma LogGrows(e: Event)
      requires Monotone(log) && Reached(e.time)
      ensures Monotone(log + [e]) && (log + [e])[..|log|] == log
    {
      var log' := log + [e];
      assert log'[|log|] == e && forall i :: 0 <= i < |log| ==> log'[i] == log[i];
    }

    /** Insert or refresh a record; with the cache-flush bit, put every entry of
        the same name and type from other origins on the grace period. */
    method Insert(rec: Record, origin: Endpoint, now: int)
      requires Valid() && Reached(now)
      modifies this
      ensures Valid() && Reached(now)
      ensures log == old(log) + [Insertion(now, rec, origin)]
      ensures Contents(entries) == Inserted(old(Contents(entries)), rec, origin, now, grace)
    {
      hide Run, Identity, Affected, Doomed, Flushed, Monotone;
      LogGrows(Insertion(now, rec, origin));
      ghost var m := Contents(entries);
      assert Inserted(m, rec, origin, now, grace) == Run(log + [Insertion(now, rec, origin)], grace) by {
        RunInsertion(log, now, rec, origin, grace);
      }
      Upsert(rec, origin, now);
      if rec.hdr.flush {
        ApplyCacheFlush(rec, origin, now);
      }
      log := log + [Insertion(now, rec, origin)];
    }

    method Upsert(rec: Record, origin: Endpoint, now: int)
      requires Distinct(entries)
      modifies this`entries
      ensures Distinct(entries)
      ensures Contents(entries)
           == old(Contents(entries))[Identity(rec) := Fresh(old(Contents(entries)), rec, origin, now, grace)]
    {
      hide Identity, IdentityEqual, Contents;
      var effectiveTtl := EffectiveTtl(rec, grace);
      var i := 0;
      while i < |entries|
        invariant 0 <= i <= |entries| && entries == old(entries)
        invariant forall k :: 0 <= k < i ==> Identity(entries[k].record) != Identity(rec)
      {
        IdentityIsCanonical(entries[i].record, rec);
        if IdentityEqual(entries[i].record, rec) {
          var e := Entry(entries[i].record, origin, rec.hdr.flush, effectiveTtl, now, None);
          ContentsUpdate(entries, i, e);
          FoundIn(entries, i);
          entries := entries[i := e];
          return;
        }
        i := i + 1;
      }
      var e := Entry(rec, origin, rec.hdr.flush, effectiveTtl, now, None);
      ContentsAppend(entries, e);
      AbsentKey(entries, Identity(rec));
      entries := entries + [e];
    }

    method ApplyCacheFlush(rec: Record, origin: Endpoint, now: int)
      requires Distinct(entries)
      modifies this`entries
      ensures Distinct(entries)
      ensures Contents(entries) == Flushed(old(Contents(entries)), rec, origin, now + grace * SECOND)
      ensures |entries| == |old(entries)|
      ensures forall k :: 0 <= k < |entries| ==>
                var e, deadline := old(entries)[k], now + grace * SECOND;
                entries[k] ==
                if e.record.hdr.name == rec.hdr.name && TypeOf(e.record) == TypeOf(rec) && e.origin != origin
                   && (e.flushDeadline.None? || e.flushDeadline.value > deadline)
                then e.(flushDeadline := Some(deadline)) else e
    {
      hide Identity, Flushed, Contents, Distinct, SameKey;
      var deadline := now + grace * SECOND;
      for i := 0 to |entries|
        invariant |entries| == |old(entries)|
        invariant forall k :: 0 <= k < i ==> entries[k] == Marked(old(entries)[k], rec, origin, deadline)
        invariant forall k :: i <= k < |entries| ==> entries[k] == old(entries)[k]
      {
        if SameKey(entries[i].record, rec) && entries[i].origin != origin {
          if entries[i].flushDeadline.None? || entries[i].flushDeadline.value > deadline {
            entries := entries[i := entries[i].(flushDeadline := Some(deadline))];
          }
        }
      }
      ContentsFlushed(old(entries), entries, rec, origin, deadline);
      forall k | 0 <= k < |entries|
        ensures SameKey(old(entries)[k].record, rec) <==>
                old(entries)[k].record.hdr.name == rec.hdr.name && TypeOf(old(entries)[k].record) == TypeOf(rec)
      {
        SameKeyIs(old(entries)[k].record, rec);
      }
    }

    /** Drop what has expired. What stays is exactly what the log says is present. */
    method EraseExpired(now: int) returns (expired: seq<Entry>)
      requires Valid() && Reached(now)
      modifies this
      ensures Valid() && Reached(now)
      ensures log == old(log) + [Sweep(now)]
      ensures Contents(entries) == Swept(old(Contents(entries)), now)
      ensures forall id :: id in Contents(entries) <==> Present(old(log), id, now, grace)
      ensures forall e :: e in expired <==> e in old(entries) && IsExpired(e, now)
    {
      hide Run, Identity, IsExpired, Present, Monotone, Live, Dead, Contents, Swept;
      LogGrows(Sweep(now));
      ghost var was := entries;
      expired := [];
      var i: nat := 0;
      ghost var n: nat := 0;
      assert was[0..] == was && was[..0] == [];
      assert Live([], now) == [] && Dead([], now) == [] by { NothingLives(now); }
      while i < |entries|
        invariant log == old(log)
        invariant n <= |was| && i <= |entries| && entries[i..] == was[n..]
        invariant entries[..i] == Live(was[..n], now) && expired == Dead(was[..n], now)
        decreases |entries| - i
      {
        var e := entries[i];
        assert e == was[n] by { assert entries[i..][0] == e; }
        LiveAndDeadStep(was, n, now);
        if IsExpired(e, now) {
          expired := expired + [e];
          EraseAt(entries, i, was, n);
          entries := entries[..i] + entries[i + 1..];
        } else {
          KeepAt(entries, i, was, n);
          i := i + 1;
        }
        n := n + 1;
      }
      assert n == |was| && was[..n] == was && entries[..i] == entries;
      ContentsLive(was, now);
      forall e
        ensures e in expired <==> e in was && IsExpired(e, now)
      {
        DeadExactly(was, now, e);
      }
      RunSweep(log, now, grace);
      forall id
        ensures id in Contents(entries) <==> Present(log, id, now, grace)
      {
        SweepKeepsExactlyPresent(log, now, grace, id);
      }
      log := log + [Sweep(now)];
    }

    /** All entries of a name and type, expired or not. */
    method Find(name: Name, rtype: u16) returns (result: seq<Entry>)
      requires Valid()
      ensures forall e :: e in result <==> e in entries && e.record.hdr.name == name && TypeOf(e.record) == rtype
    {
      hide TypeOf;
      result := [];
      for i := 0 to |entries|
        invariant forall e :: e in result <==>
                    e in entries[..i] && e.record.hdr.name == name && TypeOf(e.record) == rtype
      {
        assert entries[..i + 1] == entries[..i] + [entries[i]];
        if entries[i].record.hdr.name == name && TypeOf(entries[i].record) == rtype {
          result := result + [entries[i]];
        }
      }
      assert entries[..|entries|] == entries;
    }
  }

  lemma SameKeyIs(a: Record, b: Record)
    ensures SameKey(a, b) <==> a.hdr.name == b.hdr.name && TypeOf(a) == TypeOf(b)
  {
  }

  lemma LiveAndDeadStep(was: seq<Entry>, n: nat, now: int)
    requires n < |was|
    ensures Live(was[..n + 1], now)
         == if IsExpired(was[n], now) then Live(was[..n], now) else Live(was[..n], now) + [was[n]]
    ensures Dead(was[..n + 1], now)
         == if IsExpired(was[n], now) then Dead(was[..n], now) + [was[n]] else Dead(was[..n], now)
  {
    hide IsExpired;
    assert was[..n + 1][..n] == was[..n];
  }

  lemma NothingLives(now: int)
    ensures Live([], now) == [] && Dead([], now) == []
  {
  }

  lemma KeepAt(es: seq<Entry>, i: nat, was: seq<Entry>, n: nat)
    requires i < |es| && n < |was| && es[i..] == was[n..]
    ensures es[i + 1..] == was[n + 1..] && es[..i + 1] == es[..i] + [es[i]]
  {
    assert es[i + 1..] == es[i..][1..];
    assert was[n + 1..] == was[n..][1..];
  }

  lemma EraseAt(es: seq<Entry>, i: nat, was: seq<Entry>, n: nat)
    requires i < |es| && n < |was| && es[i..] == was[n..]
    ensures (es[..i] + es[i + 1..])[i..] == was[n + 1..] && (es[..i] + es[i + 1..])[..i] == es[..i]
  {
    assert es[i + 1..] == es[i..][1..];
    assert was[n + 1..] == was[n..][1..];
  }

  lemma RunInsertion(log: seq<Event>, now: int, rec: Record, origin: Endpoint, grace: u32)
    ensures Run(log + [Insertion(now, rec, origin)], grace) == Inserted(Run(log, grace), rec, origin, now, grace)
  {
    hide Inserted;
    var log' := log + [Insertion(now, rec, origin)];
    assert log'[..|log'| - 1] == log;
  }

  lemma RunSweep(log: seq<Event>, now: int, grace: u32)
    ensures Run(log + [Sweep(now)], grace) == Swept(Run(log, grace), now)
  {
    hide Swept;
    var log' := log + [Sweep(now)];
    assert log'[..|log'| - 1] == log;
  }
}
