/** Interface changes reaching the per-interface instances (basic_nic_monitor.h and
    basic_nic_group.h under lib/mdnspp/include/mdnspp): snapshots are compared, the
    differences are posted as callbacks, and the callbacks arrive later, in order. */
module NicModel {
  import opened Bytes

  datatype Nic = Nic(name: string, v4: string, v6: string, index: nat, loopback: bool, up: bool)

  datatype Event = Removed(nic: Nic) | Added(nic: Nic)

  type Filter = Nic -> bool

  /** What the comparison of snapshots looks at. */
  predicate Same(a: Nic, b: Nic) {
    a.index == b.index && a.up == b.up && a.v4 == b.v4 && a.v6 == b.v6
  }

  function Find(nics: seq<Nic>, idx: nat): (r: Option<Nic>)
    ensures r.Some? ==> r.value in nics && r.value.index == idx
    ensures r.None? ==> forall x :: x in nics ==> x.index != idx
  {
    if nics == [] then None
    else if nics[0].index == idx then Some(nics[0])
    else Find(nics[1..], idx)
  }

  ghost predicate DistinctIndices(nics: seq<Nic>) {
    forall i, j :: 0 <= i < j < |nics| ==> nics[i].index != nics[j].index
  }

  // ---------------------------------------------------------------- differences

  /** The callbacks for one interface of the old snapshot. */
  function Departure(nic: Nic, news: seq<Nic>): seq<Event> {
    match Find(news, nic.index)
    case None => [Removed(nic)]
    case Some(now) =>
      if now.up != nic.up || now.v4 != nic.v4 || now.v6 != nic.v6 then [Removed(nic), Added(now)] else []
  }

  function Departures(olds: seq<Nic>, news: seq<Nic>): seq<Event> {
    if olds == [] then [] else Departures(olds[..|olds| - 1], news) + Departure(olds[|olds| - 1], news)
  }

  function Arrival(nic: Nic, olds: seq<Nic>): seq<Event> {
    if Find(olds, nic.index).None? then [Added(nic)] else []
  }

  function Arrivals(olds: seq<Nic>, news: seq<Nic>): seq<Event> {
    if news == [] then [] else Arrivals(olds, news[..|news| - 1]) + Arrival(news[|news| - 1], olds)
  }

  /** apply_diff: nothing is posted when there is no old snapshot. */
  function Diff(old': Option<seq<Nic>>, news: seq<Nic>): seq<Event> {
    if old'.None? then [] else Departures(old'.value, news) + Arrivals(old'.value, news)
  }

  // ---------------------------------------------------------------- the whole system

  type Instances = map<nat, Nic>

  /** on_nic_added and on_nic_removed */
  function Deliver(slots: Instances, e: Event, accepts: Filter): Instances {
    match e
    case Removed(nic) => slots - {nic.index}
    case Added(nic) => if nic.index in slots || !accepts(nic) then slots else slots[nic.index := nic]
  }

  function Seeded(slots: Instances, nics: seq<Nic>, accepts: Filter): Instances {
    if nics == [] then slots
    else Deliver(Seeded(slots, nics[..|nics| - 1], accepts), Added(nics[|nics| - 1]), accepts)
  }

  function Current(snapshot: Option<seq<Nic>>): seq<Nic> {
    if snapshot.Some? then snapshot.value else []
  }

  datatype System = System(snapshot: Option<seq<Nic>>, posted: seq<Event>, slots: Instances, seeded: bool)

  /** An enumeration succeeds, a posted callback runs, or start() seeds the group. */
  datatype Action = Enumerate(nics: seq<Nic>) | RunCallback | Seed

  function Step(s: System, a: Action, accepts: Filter): System {
    match a
    case Enumerate(nics) => s.(snapshot := Some(nics), posted := s.posted + Diff(s.snapshot, nics))
    case RunCallback =>
      if s.posted == [] then s
      else s.(posted := s.posted[1..], slots := Deliver(s.slots, s.posted[0], accepts))
    case Seed => if s.seeded then s else s.(slots := Seeded(s.slots, Current(s.snapshot), accepts), seeded := true)
  }

  function Start(first: Option<seq<Nic>>): System { System(first, [], map[], false) }

  function Run(first: Option<seq<Nic>>, actions: seq<Action>, accepts: Filter): System {
    if actions == [] then Start(first)
    else Step(Run(first, actions[..|actions| - 1], accepts), actions[|actions| - 1], accepts)
  }

  ghost predicate WellFormed(first: Option<seq<Nic>>, actions: seq<Action>) {
    && (first.Some? ==> DistinctIndices(first.value))
    && forall a :: a in actions && a.Enumerate? ==> DistinctIndices(a.nics)
  }

  // ---------------------------------------------------------------- agreement

  function Wanted(seen: Option<Nic>, accepts: Filter): Option<Nic> {
    if seen.Some? && accepts(seen.value) then seen else None
  }

  predicate Alike(a: Option<Nic>, b: Option<Nic>) {
    (a.None? && b.None?) || (a.Some? && b.Some? && Same(a.value, b.value))
  }

  function Slot(slots: Instances, idx: nat): Option<Nic> {
    if idx in slots then Some(slots[idx]) else None
  }

  /** The instances are exactly the accepted interfaces of the current snapshot, each
      with its current state and addresses. */
  ghost predicate Agrees(s: System, accepts: Filter) {
    forall idx: nat :: Alike(Slot(s.slots, idx), Wanted(Find(Current(s.snapshot), idx), accepts))
  }

  /** The filter decides by what the comparison looks at, not by name or loopback flag. */
  ghost predicate Congruent(accepts: Filter) {
    forall a, b :: Same(a, b) ==> accepts(a) == accepts(b)
  }

  lemma CongruentMeans(accepts: Filter)
    ensures Congruent(accepts) <==>
              forall nic, name, loopback :: accepts(nic) == accepts(nic.(name := name, loopback := loopback))
  {
    if forall nic, name, loopback :: accepts(nic) == accepts(nic.(name := name, loopback := loopback)) {
      forall a, b | Same(a, b)
        ensures accepts(a) == accepts(b)
      {
        assert b == a.(name := b.name, loopback := b.loopback);
      }
    }
    if Congruent(accepts) {
      forall nic: Nic, name, loopback
        ensures accepts(nic) == accepts(nic.(name := name, loopback := loopback))
      {
        assert Same(nic, nic.(name := name, loopback := loopback));
      }
    }
  }

  // ---------------------------------------------------------------- one interface index

  function Deliver1(v: Option<Nic>, e: Event, idx: nat, accepts: Filter): Option<Nic> {
    if e.nic.index != idx then v
    else if e.Removed? then None
    else if v.Some? then v
    else Wanted(Some(e.nic), accepts)
  }

  /** Where slot `idx` ends up once `q` has drained. */
  function Drain(v: Option<Nic>, q: seq<Event>, idx: nat, accepts: Filter): Option<Nic>
    decreases |q|
  {
    if q == [] then v else Drain(Deliver1(v, q[0], idx, accepts), q[1..], idx, accepts)
  }

  lemma {:induction false} DrainConcat(v: Option<Nic>, p: seq<Event>, q: seq<Event>, idx: nat, accepts: Filter)
    ensures Drain(v, p + q, idx, accepts) == Drain(Drain(v, p, idx, accepts), q, idx, accepts)
    decreases |p|
  {
    if p == [] {
      assert p + q == q;
    } else {
      DrainConcat(Deliver1(v, p[0], idx, accepts), p[1..], q, idx, accepts);
      assert (p + q)[1..] == p[1..] + q;
    }
  }

  lemma DrainShort(v: Option<Nic>, e: Event, e': Event, idx: nat, accepts: Filter)
    ensures Drain(v, [e], idx, accepts) == Deliver1(v, e, idx, accepts)
    ensures Drain(v, [e, e'], idx, accepts) == Deliver1(Deliver1(v, e, idx, accepts), e', idx, accepts)
  {
    assert [e] + [e'] == [e, e'];
    DrainConcat(v, [e], [e'], idx, accepts);
  }

  ghost predicate Clears(q: seq<Event>, idx: nat) {
    exists e :: e in q && e.Removed? && e.nic.index == idx
  }

  /** A queue either forgets what the slot held, or keeps it. */
  lemma {:induction false} DrainForgetsOrKeeps(v: Option<Nic>, w: Option<Nic>, q: seq<Event>, idx: nat, accepts: Filter)
    ensures Clears(q, idx) ==> Drain(v, q, idx, accepts) == Drain(w, q, idx, accepts)
    ensures !Clears(q, idx) && v.Some? ==> Drain(v, q, idx, accepts) == v
    decreases |q|
  {
    if q != [] {
      var e := q[0];
      if e.nic.index == idx && e.Removed? {
        assert Clears(q, idx);
      } else {
        DrainForgetsOrKeeps(Deliver1(v, e, idx, accepts), Deliver1(w, e, idx, accepts), q[1..], idx, accepts);
        assert Clears(q, idx) <==> Clears(q[1..], idx);
      }
    }
  }

  /** What a comparison posts about one index. */
  function Change(before: Option<Nic>, after: Option<Nic>): seq<Event> {
    match (before, after)
    case (None, None) => []
    case (None, Some(now)) => [Added(now)]
    case (Some(old'), None) => [Removed(old')]
    case (Some(old'), Some(now)) => if Same(old', now) then [] else [Removed(old'), Added(now)]
  }

  lemma FindSnoc(nics: seq<Nic>, idx: nat)
    requires nics != [] && DistinctIndices(nics)
    ensures var k := |nics| - 1;
            Find(nics, idx) == if nics[k].index == idx then Some(nics[k]) else Find(nics[..k], idx)
    ensures nics[|nics| - 1].index == idx ==> Find(nics[..|nics| - 1], idx).None?
  {
    FindIs(nics, idx);
    FindIs(nics[..|nics| - 1], idx);
  }

  lemma FindIs(nics: seq<Nic>, idx: nat)
    requires DistinctIndices(nics)
    ensures forall x :: x in nics && x.index == idx ==> Find(nics, idx) == Some(x)
  {
  }

  lemma DepartureElsewhere(v: Option<Nic>, nic: Nic, news: seq<Nic>, idx: nat, accepts: Filter)
    requires nic.index != idx
    ensures Drain(v, Departure(nic, news), idx, accepts) == v
  {
    var now := Find(news, nic.index);
    DrainShort(v, Removed(nic), Added(if now.Some? then now.value else nic), idx, accepts);
  }

  lemma {:induction false} DeparturesAt(v: Option<Nic>, olds: seq<Nic>, news: seq<Nic>, idx: nat, accepts: Filter)
    requires DistinctIndices(olds)
    ensures Drain(v, Departures(olds, news), idx, accepts)
         == match Find(olds, idx)
            case None => v
            case Some(nic) => Drain(v, Departure(nic, news), idx, accepts)
  {
    if olds != [] {
      var k := |olds| - 1;
      DeparturesAt(v, olds[..k], news, idx, accepts);
      FindSnoc(olds, idx);
      DrainConcat(v, Departures(olds[..k], news), Departure(olds[k], news), idx, accepts);
      if olds[k].index != idx {
        DepartureElsewhere(Drain(v, Departures(olds[..k], news), idx, accepts), olds[k], news, idx, accepts);
      }
    }
  }

  lemma {:induction false} ArrivalsAt(v: Option<Nic>, olds: seq<Nic>, news: seq<Nic>, idx: nat, accepts: Filter)
    requires DistinctIndices(news)
    ensures Drain(v, Arrivals(olds, news), idx, accepts)
         == match Find(news, idx)
            case None => v
            case Some(nic) => Drain(v, Arrival(nic, olds), idx, accepts)
  {
    if news != [] {
      var k := |news| - 1;
      ArrivalsAt(v, olds, news[..k], idx, accepts);
      FindSnoc(news, idx);
      DrainConcat(v, Arrivals(olds, news[..k]), Arrival(news[k], olds), idx, accepts);
    }
  }

  lemma DiffAt(v: Option<Nic>, olds: seq<Nic>, news: seq<Nic>, idx: nat, accepts: Filter)
    requires DistinctIndices(olds) && DistinctIndices(news)
    ensures Drain(v, Diff(Some(olds), news), idx, accepts)
         == Drain(v, Change(Find(olds, idx), Find(news, idx)), idx, accepts)
  {
    DrainConcat(v, Departures(olds, news), Arrivals(olds, news), idx, accepts);
    var mid := Drain(v, Departures(olds, news), idx, accepts);
    DeparturesAt(v, olds, news, idx, accepts);
    ArrivalsAt(mid, olds, news, idx, accepts);
  }

  /** The callbacks about one interface, in their order. */
  function EventsAt(q: seq<Event>, idx: nat): seq<Event> {
    if q == [] then []
    else
      var e, before := q[|q| - 1], EventsAt(q[..|q| - 1], idx);
      if e.nic.index == idx then before + [e] else before
  }

  lemma {:induction false} EventsConcat(p: seq<Event>, q: seq<Event>, idx: nat)
    ensures EventsAt(p + q, idx) == EventsAt(p, idx) + EventsAt(q, idx)
  {
    if q == [] {
      assert p + q == p;
    } else {
      EventsConcat(p, q[..|q| - 1], idx);
      assert (p + q)[..|p + q| - 1] == p + q[..|q| - 1];
    }
  }

  lemma EventsShort(e: Event, e': Event, idx: nat)
    ensures EventsAt([e], idx) == if e.nic.index == idx then [e] else []
    ensures EventsAt([e, e'], idx) == EventsAt([e], idx) + EventsAt([e'], idx)
  {
    assert [e][..0] == [];
    assert EventsAt([], idx) == [];
    assert [e, e'] == [e] + [e'];
    EventsConcat([e], [e'], idx);
  }

  lemma DepartureEvents(nic: Nic, news: seq<Nic>, idx: nat)
    ensures EventsAt(Departure(nic, news), idx) == if nic.index == idx then Departure(nic, news) else []
  {
    var now := Find(news, nic.index);
    EventsShort(Removed(nic), Added(if now.Some? then now.value else nic), idx);
    EventsShort(Added(if now.Some? then now.value else nic), Removed(nic), idx);
  }

  lemma {:induction false} DeparturesEvents(olds: seq<Nic>, news: seq<Nic>, idx: nat)
    requires DistinctIndices(olds)
    ensures EventsAt(Departures(olds, news), idx)
         == match Find(olds, idx)
            case None => []
            case Some(nic) => Departure(nic, news)
  {
    if olds != [] {
      var k := |olds| - 1;
      DeparturesEvents(olds[..k], news, idx);
      FindSnoc(olds, idx);
      EventsConcat(Departures(olds[..k], news), Departure(olds[k], news), idx);
      DepartureEvents(olds[k], news, idx);
    }
  }

  lemma {:induction false} ArrivalsEvents(olds: seq<Nic>, news: seq<Nic>, idx: nat)
    requires DistinctIndices(news)
    ensures EventsAt(Arrivals(olds, news), idx)
         == match Find(news, idx)
            case None => []
            case Some(nic) => Arrival(nic, olds)
  {
    if news != [] {
      var k := |news| - 1;
      ArrivalsEvents(olds, news[..k], idx);
      FindSnoc(news, idx);
      EventsConcat(Arrivals(olds, news[..k]), Arrival(news[k], olds), idx);
      EventsShort(Added(news[k]), Added(news[k]), idx);
    }
  }

  /** What is posted about one interface: its arrival, its departure, its departure and
      arrival if up, IPv4 or IPv6 address changed, and nothing if none of them did. */
  lemma DiffIsExact(olds: seq<Nic>, news: seq<Nic>, idx: nat)
    requires DistinctIndices(olds) && DistinctIndices(news)
    ensures EventsAt(Diff(Some(olds), news), idx) ==
              match (Find(olds, idx), Find(news, idx))
              case (None, None) => []
              case (None, Some(now)) => [Added(now)]
              case (Some(was), None) => [Removed(was)]
              case (Some(was), Some(now)) =>
                if was.up == now.up && was.v4 == now.v4 && was.v6 == now.v6 then [] else [Removed(was), Added(now)]
  {
    EventsConcat(Departures(olds, news), Arrivals(olds, news), idx);
    DeparturesEvents(olds, news, idx);
    ArrivalsEvents(olds, news, idx);
  }

  // ---------------------------------------------------------------- invariant

  function Or(v: Option<Nic>, w: Option<Nic>): Option<Nic> { if v.Some? then v else w }

  /** Seen from one index: seeding now, or never, and then draining the queue leads
      to the wanted slot; without seeding it may also lead to none. */
  ghost predicate OnCourse(seeded: bool, slot: Option<Nic>, q: seq<Event>, want: Option<Nic>,
                           idx: nat, accepts: Filter)
  {
    var d := Drain(slot, q, idx, accepts);
    if seeded then Alike(d, want)
    else (d.None? || Alike(d, want)) && Alike(Drain(Or(slot, want), q, idx, accepts), want)
  }

  lemma ChangeStaysOnCourse(seeded: bool, slot: Option<Nic>, q: seq<Event>, before: Option<Nic>, after: Option<Nic>,
                            idx: nat, accepts: Filter, d: seq<Event>)
    requires Congruent(accepts)
    requires (before.Some? ==> before.value.index == idx) && (after.Some? ==> after.value.index == idx)
    requires OnCourse(seeded, slot, q, Wanted(before, accepts), idx, accepts)
    requires forall v :: Drain(v, d, idx, accepts) == Drain(v, Change(before, after), idx, accepts)
    ensures OnCourse(seeded, slot, q + d, Wanted(after, accepts), idx, accepts)
  {
    var want, want' := Wanted(before, accepts), Wanted(after, accepts);
    forall v
      ensures Drain(v, q + d, idx, accepts) == Drain(Drain(v, q, idx, accepts), Change(before, after), idx, accepts)
    {
      DrainConcat(v, q, d, idx, accepts);
    }
    ChangeEffect(before, after, idx, accepts);
    DrainForgetsOrKeeps(Or(slot, want'), Or(slot, want), q, idx, accepts);
    DrainForgetsOrKeeps(want', slot, q, idx, accepts);
    DrainForgetsOrKeeps(Or(slot, want), slot, q, idx, accepts);
    hide Drain;
  }

  lemma ChangeEffect(before: Option<Nic>, after: Option<Nic>, idx: nat, accepts: Filter)
    requires (before.Some? ==> before.value.index == idx) && (after.Some? ==> after.value.index == idx)
    ensures forall v :: Drain(v, Change(before, after), idx, accepts) ==
              if Alike(before, after) then v
              else if before.Some? then Wanted(after, accepts)
              else Or(v, Wanted(after, accepts))
  {
    forall v
      ensures Drain(v, Change(before, after), idx, accepts) ==
              if Alike(before, after) then v
              else if before.Some? then Wanted(after, accepts)
              else Or(v, Wanted(after, accepts))
    {
      if before.Some? && after.Some? {
        DrainShort(v, Removed(before.value), Added(after.value), idx, accepts);
      }
    }
  }

  lemma DeliveryStaysOnCourse(seeded: bool, slot: Option<Nic>, q: seq<Event>, want: Option<Nic>,
                              idx: nat, accepts: Filter)
    requires q != [] && OnCourse(seeded, slot, q, want, idx, accepts)
    ensures OnCourse(seeded, Deliver1(slot, q[0], idx, accepts), q[1..], want, idx, accepts)
  {
    var e, rest, slot' := q[0], q[1..], Deliver1(slot, q[0], idx, accepts);
    var w, w' := Deliver1(Or(slot, want), e, idx, accepts), Or(slot', want);
    assert Drain(slot, q, idx, accepts) == Drain(slot', rest, idx, accepts);
    assert Drain(Or(slot, want), q, idx, accepts) == Drain(w, rest, idx, accepts);
    DrainForgetsOrKeeps(w, slot', rest, idx, accepts);
    DrainForgetsOrKeeps(w', w, rest, idx, accepts);
    DrainForgetsOrKeeps(slot', w, rest, idx, accepts);
    hide Drain;
  }

  // ---------------------------------------------------------------- every run

  ghost predicate OnTrack(s: System, idx: nat, accepts: Filter) {
    OnCourse(s.seeded, Slot(s.slots, idx), s.posted, Wanted(Find(Current(s.snapshot), idx), accepts), idx, accepts)
  }

  ghost predicate Inv(s: System, accepts: Filter) {
    && (s.snapshot.None? ==> s.posted == [] && s.slots == map[] && !s.seeded)
    && DistinctIndices(Current(s.snapshot))
    && forall idx: nat :: OnTrack(s, idx, accepts)
  }

  /** Seeding happens before any enumeration has succeeded. */
  ghost predicate Blind(first: Option<seq<Nic>>, actions: seq<Action>) {
    && first.None?
    && exists i :: 0 <= i < |actions| && actions[i].Seed? && forall j :: 0 <= j < i ==> !actions[j].Enumerate?
  }

  lemma EnumerateKeeps(s: System, nics: seq<Nic>, accepts: Filter)
    requires Congruent(accepts) && Inv(s, accepts) && DistinctIndices(nics)
    ensures Inv(Step(s, Enumerate(nics), accepts), accepts)
  {
    var s' := Step(s, Enumerate(nics), accepts);
    forall idx: nat
      ensures OnTrack(s', idx, accepts)
    {
      assert OnTrack(s, idx, accepts);
      if s.snapshot.Some? {
        var olds, d := s.snapshot.value, Diff(s.snapshot, nics);
        forall v
          ensures Drain(v, d, idx, accepts) == Drain(v, Change(Find(olds, idx), Find(nics, idx)), idx, accepts)
        {
          DiffAt(v, olds, nics, idx, accepts);
        }
        ChangeStaysOnCourse(s.seeded, Slot(s.slots, idx), s.posted, Find(olds, idx), Find(nics, idx), idx, accepts, d);
      }
    }
  }

  lemma CallbackKeeps(s: System, accepts: Filter)
    requires Inv(s, accepts)
    ensures Inv(Step(s, RunCallback, accepts), accepts)
  {
    if s.posted != [] {
      var s' := Step(s, RunCallback, accepts);
      forall idx: nat
        ensures OnTrack(s', idx, accepts)
      {
        assert OnTrack(s, idx, accepts);
        var want := Wanted(Find(Current(s.snapshot), idx), accepts);
        DeliveryStaysOnCourse(s.seeded, Slot(s.slots, idx), s.posted, want, idx, accepts);
        assert Slot(s'.slots, idx) == Deliver1(Slot(s.slots, idx), s.posted[0], idx, accepts);
      }
    }
  }

  lemma {:induction false} SeededAt(slots: Instances, nics: seq<Nic>, idx: nat, accepts: Filter)
    requires DistinctIndices(nics)
    ensures Slot(Seeded(slots, nics, accepts), idx) == Or(Slot(slots, idx), Wanted(Find(nics, idx), accepts))
  {
    if nics != [] {
      var k := |nics| - 1;
      SeededAt(slots, nics[..k], idx, accepts);
      FindSnoc(nics, idx);
    }
  }

  lemma SeedKeeps(s: System, accepts: Filter)
    requires Inv(s, accepts) && s.snapshot.Some?
    ensures Inv(Step(s, Seed, accepts), accepts)
  {
    if !s.seeded {
      forall idx: nat
        ensures OnTrack(Step(s, Seed, accepts), idx, accepts)
      {
        assert OnTrack(s, idx, accepts);
        SeededAt(s.slots, s.snapshot.value, idx, accepts);
      }
    }
  }

  lemma {:induction false} RunKeeps(first: Option<seq<Nic>>, actions: seq<Action>, accepts: Filter)
    requires Congruent(accepts) && WellFormed(first, actions) && !Blind(first, actions)
    ensures Inv(Run(first, actions, accepts), accepts)
    ensures Run(first, actions, accepts).snapshot.None? ==>
              first.None? && forall a :: a in actions ==> !a.Enumerate?
  {
    if actions == [] {
      StartKeeps(first, accepts);
    } else {
      var k := |actions| - 1;
      var init, a := actions[..k], actions[k];
      assert actions == init + [a];
      PrefixNotBlind(first, actions, k);
      hide Blind, Inv, Congruent;
      RunKeeps(first, init, accepts);
      var s := Run(first, init, accepts);
      match a
      case Enumerate(nics) => EnumerateKeeps(s, nics, accepts);
      case RunCallback => CallbackKeeps(s, accepts);
      case Seed =>
        if s.snapshot.None? {
          SeedIsBlind(first, actions);
          assert false;
        }
        SeedKeeps(s, accepts);
    }
  }

  lemma StartKeeps(first: Option<seq<Nic>>, accepts: Filter)
    requires first.Some? ==> DistinctIndices(first.value)
    ensures Inv(Start(first), accepts)
  {
  }

  lemma PrefixNotBlind(first: Option<seq<Nic>>, actions: seq<Action>, k: nat)
    requires k <= |actions| && !Blind(first, actions)
    ensures !Blind(first, actions[..k])
  {
  }

  lemma SeedIsBlind(first: Option<seq<Nic>>, actions: seq<Action>)
    requires actions != [] && actions[|actions| - 1].Seed? && first.None?
    requires forall a :: a in actions[..|actions| - 1] ==> !a.Enumerate?
    ensures Blind(first, actions)
  {
    var i := |actions| - 1;
    assert forall j :: 0 <= j < i ==> actions[..i][j] == actions[j];
  }

  /** Convergence: once the group has been seeded and all posted callbacks have run,
      it matches the last snapshot, whatever happened in between and whenever the
      seeding took place. */
  lemma RunConverges(first: Option<seq<Nic>>, actions: seq<Action>, accepts: Filter)
    requires Congruent(accepts) && WellFormed(first, actions) && !Blind(first, actions)
    requires var s := Run(first, actions, accepts); s.seeded && s.posted == []
    ensures Agrees(Run(first, actions, accepts), accepts)
  {
    RunKeeps(first, actions, accepts);
    var s := Run(first, actions, accepts);
    forall idx: nat
      ensures Alike(Slot(s.slots, idx), Wanted(Find(Current(s.snapshot), idx), accepts))
    {
      assert OnTrack(s, idx, accepts);
    }
  }

  /** Agreement, written out: every accepted interface has a slot with its up flag and its
      addresses, and there are no other slots. */
  lemma AgreesMeans(s: System, accepts: Filter)
    requires Agrees(s, accepts) && s.snapshot.Some? && DistinctIndices(s.snapshot.value)
    ensures forall nic :: nic in s.snapshot.value && accepts(nic) ==>
              nic.index in s.slots && var x := s.slots[nic.index];
              x.index == nic.index && x.up == nic.up && x.v4 == nic.v4 && x.v6 == nic.v6
    ensures forall idx: nat :: idx in s.slots ==>
              exists nic :: nic in s.snapshot.value && nic.index == idx && accepts(nic)
  {
    var nics := s.snapshot.value;
    forall nic | nic in nics && accepts(nic)
      ensures nic.index in s.slots && Same(s.slots[nic.index], nic)
    {
      FindIs(nics, nic.index);
      assert Alike(Slot(s.slots, nic.index), Wanted(Find(Current(s.snapshot), nic.index), accepts));
    }
    forall idx: nat | idx in s.slots
      ensures exists nic :: nic in nics && nic.index == idx && accepts(nic)
    {
      assert Alike(Slot(s.slots, idx), Wanted(Find(Current(s.snapshot), idx), accepts));
    }
  }

  /** Seeded, and no callback left to run. */
  predicate Settled(s: System) { s.seeded && s.posted == [] }

  ghost predicate AlwaysConverges(first: Option<seq<Nic>>, accepts: Filter) {
    forall actions :: WellFormed(first, actions) && Settled(Run(first, actions, accepts)) ==>
      Agrees(Run(first, actions, accepts), accepts)
  }

  /** Exactly when convergence can be relied on: the filter must not look at what the
      comparison ignores, and the first enumeration must have succeeded (unless no
      interface is ever accepted). */
  lemma ConvergenceIsExact(first: Option<seq<Nic>>, accepts: Filter)
    requires first.Some? ==> DistinctIndices(first.value)
    ensures AlwaysConverges(first, accepts) <==>
            Congruent(accepts) && (first.Some? || forall a :: !accepts(a))
  {
    if Congruent(accepts) && (first.Some? || forall a :: !accepts(a)) {
      forall actions | WellFormed(first, actions) && Settled(Run(first, actions, accepts))
        ensures Agrees(Run(first, actions, accepts), accepts)
      {
        if first.Some? {
          RunConverges(first, actions, accepts);
        } else {
          NothingAccepted(first, actions, accepts);
        }
      }
    }
    if !Congruent(accepts) {
      var a, b :| Same(a, b) && accepts(a) != accepts(b);
      StaleFilter(first, a, b, accepts);
    }
    if first.None? && exists a :: accepts(a) {
      var a :| accepts(a);
      BlindSeeding(a, accepts);
    }
  }

  lemma {:induction false} NothingAccepted(first: Option<seq<Nic>>, actions: seq<Action>, accepts: Filter)
    requires forall a :: !accepts(a)
    ensures Run(first, actions, accepts).slots == map[]
  {
    if actions != [] {
      var s := Run(first, actions[..|actions| - 1], accepts);
      NothingAccepted(first, actions[..|actions| - 1], accepts);
      SeedNothing(Current(s.snapshot), accepts);
    }
  }

  lemma {:induction false} SeedNothing(nics: seq<Nic>, accepts: Filter)
    requires forall a :: !accepts(a)
    ensures Seeded(map[], nics, accepts) == map[]
  {
    if nics != [] {
      SeedNothing(nics[..|nics| - 1], accepts);
    }
  }

  function Callbacks(n: nat): seq<Action> { seq(n, _ => RunCallback) }

  /** Running as many callbacks as are posted empties the queue. */
  lemma {:induction false} CanDrain(first: Option<seq<Nic>>, actions: seq<Action>, accepts: Filter, n: nat)
    requires |Run(first, actions, accepts).posted| == n
    ensures var s := Run(first, actions + Callbacks(n), accepts);
            s.posted == [] && s.snapshot == Run(first, actions, accepts).snapshot
    decreases n
  {
    if n == 0 {
      assert actions + Callbacks(0) == actions;
    } else {
      var more := actions + [RunCallback];
      assert more[..|actions|] == actions;
      CanDrain(first, more, accepts, n - 1);
      assert more + Callbacks(n - 1) == actions + Callbacks(n);
    }
  }

  /** A filter that tells `a` from `b` where the comparison does not: replacing one by
      the other goes unnoticed. */
  lemma StaleFilter(first: Option<seq<Nic>>, a: Nic, b: Nic, accepts: Filter)
    requires (first.Some? ==> DistinctIndices(first.value)) && Same(a, b) && accepts(a) != accepts(b)
    ensures !AlwaysConverges(first, accepts)
  {
    var n := |Run(first, [Enumerate([a])], accepts).posted|;
    assert Run(first, [Enumerate([a])], accepts).snapshot == Some([a]);
    CanDrain(first, [Enumerate([a])], accepts, n);
    hide Run, Agrees, AlwaysConverges, WellFormed;
    var drained := [Enumerate([a])] + Callbacks(n);
    WellFormedSwap(first, a, b, n);
    SwapGoesUnnoticed(first, a, b, accepts, drained);
    Refutes(first, drained + [Seed], accepts);
    Refutes(first, drained + [Seed, Enumerate([b])], accepts);
  }

  lemma WellFormedSwap(first: Option<seq<Nic>>, a: Nic, b: Nic, n: nat)
    requires first.Some? ==> DistinctIndices(first.value)
    ensures WellFormed(first, [Enumerate([a])] + Callbacks(n) + [Seed])
    ensures WellFormed(first, [Enumerate([a])] + Callbacks(n) + [Seed, Enumerate([b])])
  {
  }

  lemma Refutes(first: Option<seq<Nic>>, actions: seq<Action>, accepts: Filter)
    requires WellFormed(first, actions)
    requires Run(first, actions, accepts).seeded && Run(first, actions, accepts).posted == []
    ensures AlwaysConverges(first, accepts) ==> Agrees(Run(first, actions, accepts), accepts)
  {
    hide Run, Agrees, WellFormed;
  }

  lemma SwapGoesUnnoticed(first: Option<seq<Nic>>, a: Nic, b: Nic, accepts: Filter, drained: seq<Action>)
    requires Same(a, b) && accepts(a) != accepts(b)
    requires var s := Run(first, drained, accepts); s.posted == [] && s.snapshot == Some([a])
    ensures var s := Run(first, drained + [Seed], accepts);
            var s' := Run(first, drained + [Seed, Enumerate([b])], accepts);
            && s.posted == s'.posted == [] && s.seeded && s'.seeded
            && !(Agrees(s, accepts) && Agrees(s', accepts))
  {
    var before := drained + [Seed];
    var after := before + [Enumerate([b])];
    assert before[..|drained|] == drained && after[..|before|] == before;
    assert after == drained + [Seed, Enumerate([b])];
    DiffOfOne(a, b);
    var s, s' := Run(first, before, accepts), Run(first, after, accepts);
    assert s' == Step(s, Enumerate([b]), accepts);
    hide Run, Agrees, Diff, Seeded;
    AgreesOnOne(s, a, accepts);
    AgreesOnOne(s', b, accepts);
  }

  lemma AgreesOnOne(s: System, a: Nic, accepts: Filter)
    requires s.snapshot == Some([a])
    ensures Agrees(s, accepts) ==> (a.index in s.slots <==> accepts(a))
  {
    assert Find([a], a.index) == Some(a);
    assert Agrees(s, accepts) ==> Alike(Slot(s.slots, a.index), Wanted(Find([a], a.index), accepts));
  }

  lemma DiffOfOne(a: Nic, b: Nic)
    requires Same(a, b)
    ensures Diff(Some([a]), [b]) == []
  {
    assert Departures([a], [b]) == Departures([], [b]) + Departure(a, [b]) by { assert [a][..0] == []; }
    assert Arrivals([a], [b]) == Arrivals([a], []) + Arrival(b, [a]) by { assert [b][..0] == []; }
  }

  /** Seeded from nothing, the group never learns of what the next enumeration finds. */
  lemma BlindSeeding(a: Nic, accepts: Filter)
    requires accepts(a)
    ensures !AlwaysConverges(None, accepts)
  {
    var actions := [Seed, Enumerate([a])];
    assert actions[..1] == [Seed] && actions[..1][..0] == [];
    var s0 := Run(None, [], accepts);
    var s1 := Run(None, actions[..1], accepts);
    assert s1 == System(None, [], map[], true);
    var s := Run(None, actions, accepts);
    assert s == System(Some([a]), [], map[], true);
    assert !Alike(Slot(s.slots, a.index), Wanted(Find(Current(s.snapshot), a.index), accepts));
  }

  // ---------------------------------------------------------------- the objects

  class NicMonitor {
    var snapshot: Option<seq<Nic>>
    /** Callbacks handed to the executor and not yet run. */
    var posted: seq<Event>

    constructor (first: Option<seq<Nic>>)
      ensures snapshot == first && posted == []
    {
      snapshot, posted := first, [];
    }

    method ApplyDiff(news: seq<Nic>)
      modifies this
      ensures snapshot == Some(news) && posted == old(posted) + Diff(old(snapshot), news)
    {
      if snapshot.Some? {
        var olds := snapshot.value;
        for i := 0 to |olds|
          invariant snapshot == old(snapshot) && posted == old(posted) + Departures(olds[..i], news)
        {
          var was := olds[i];
          var now := Find(news, was.index);
          ghost var before := posted;
          if now.None? {
            posted := posted + [Removed(was)];
          } else if now.value.up != was.up || now.value.v4 != was.v4 || now.value.v6 != was.v6 {
            posted := posted + [Removed(was)];
            posted := posted + [Added(now.value)];
          }
          assert olds[..i + 1][..i] == olds[..i];
          assert posted == before + Departure(was, news);
          Assoc(old(posted), Departures(olds[..i], news), Departure(was, news));
        }
        assert olds[..|olds|] == olds;
        ghost var mid := posted;
        for i := 0 to |news|
          invariant snapshot == old(snapshot) && posted == mid + Arrivals(olds, news[..i])
        {
          ghost var before := posted;
          if Find(olds, news[i].index).None? {
            posted := posted + [Added(news[i])];
          }
          assert news[..i + 1][..i] == news[..i];
          assert posted == before + Arrival(news[i], olds);
          Assoc(mid, Arrivals(olds, news[..i]), Arrival(news[i], olds));
        }
        assert news[..|news|] == news;
        Assoc(old(posted), Departures(olds, news), Arrivals(olds, news));
      }
      snapshot := Some(news);
    }
  }

  class NicGroup {
    var slots: Instances
    const accepts: Filter

    constructor (accepts: Filter)
      ensures this.accepts == accepts && slots == map[]
    {
      this.accepts := accepts;
      slots := map[];
    }

    method OnNicAdded(nic: Nic)
      modifies this
      ensures slots == Deliver(old(slots), Added(nic), accepts)
    {
      if nic.index in slots {
        return;
      }
      if !accepts(nic) {
        return;
      }
      slots := slots[nic.index := nic];
    }

    method OnNicRemoved(nic: Nic)
      modifies this
      ensures slots == Deliver(old(slots), Removed(nic), accepts)
    {
      if nic.index !in slots {
        return;
      }
      slots := slots - {nic.index};
    }

    /** The seeding in start(). The snapshot is copied first; an enumeration that
        slips in afterwards changes only the queue, so it might as well come later. */
    method Seed(monitor: NicMonitor)
      modifies this
      ensures slots == Seeded(old(slots), Current(monitor.snapshot), accepts)
    {
      var nics := Current(monitor.snapshot);
      for i := 0 to |nics|
        invariant slots == Seeded(old(slots), nics[..i], accepts)
      {
        OnNicAdded(nics[i]);
        assert nics[..i + 1][..i] == nics[..i];
      }
      assert nics[..|nics|] == nics;
    }

    /** The oldest posted callback runs. */
    method RunOne(monitor: NicMonitor)
      requires monitor.posted != []
      modifies this, monitor
      ensures monitor.posted == old(monitor.posted)[1..] && monitor.snapshot == old(monitor.snapshot)
      ensures slots == Deliver(old(slots), old(monitor.posted)[0], accepts)
    {
      var e := monitor.posted[0];
      monitor.posted := monitor.posted[1..];
      match e
      case Added(nic) => OnNicAdded(nic);
      case Removed(nic) => OnNicRemoved(nic);
    }
  }
}
