/** The delayed multicast reply (detail/server_response_aggregation.h and
    basic_service_server.h under lib/mdnspp/include/mdnspp): queries that arrive
    before it is sent are merged into it. */
module PendingResponses {
  import opened Bytes
  import opened Records
  import opened KnownAnswerSuppression

  datatype Ask = Ask(qtype: u16, needsNsec: bool, mask: Mask)

  datatype Pending = Pending(armed: bool, qtype: u16, needsNsec: bool, mask: Mask)

  const EMPTY := Pending(false, 0, false, NO_MASK)

  function Both(m: Mask, n: Mask): Mask {
    Mask(m.ptr && n.ptr, m.srv && n.srv, m.a && n.a, m.aaaa && n.aaaa, m.txt && n.txt)
  }

  /** pending_response::merge */
  function Merge(p: Pending, q: Ask): Pending {
    if !p.armed then Pending(true, q.qtype, q.needsNsec, q.mask)
    else Pending(true, if p.qtype != q.qtype then TYPE_ANY else p.qtype,
                 p.needsNsec || q.needsNsec, Both(p.mask, q.mask))
  }

  function MergeAll(qs: seq<Ask>): Pending {
    if qs == [] then EMPTY else Merge(MergeAll(qs[..|qs| - 1]), qs[|qs| - 1])
  }

  // ---------------------------------------------------------------- the join

  /** What a merged reply must be, said about the set of merged queries: the common
      type or ANY, an NSEC if any asks for one, and a type suppressed only if all
      queries suppress it. */
  ghost predicate Joins(p: Pending, qs: set<Ask>) {
    && p.armed
    && (p.qtype != TYPE_ANY ==> forall q :: q in qs ==> q.qtype == p.qtype)
    && (forall t :: AllOfType(qs, t) ==> p.qtype == t)
    && (p.needsNsec <==> exists q :: q in qs && q.needsNsec)
    && forall t :: t in RECORD_TYPES ==> (Has(p.mask, t) <==> forall q :: q in qs ==> Has(q.mask, t))
  }

  ghost predicate AllOfType(qs: set<Ask>, t: u16) {
    forall q :: q in qs ==> q.qtype == t
  }

  /** The set of queries alone determines the join: order and repetition do not matter. */
  lemma JoinIsUnique(p: Pending, p': Pending, qs: set<Ask>)
    requires qs != {} && Joins(p, qs) && Joins(p', qs)
    ensures p == p'
  {
    hide Has;
    var q :| q in qs;
    assert p.qtype != TYPE_ANY ==> AllOfType(qs, p.qtype);
    assert p'.qtype != TYPE_ANY ==> AllOfType(qs, p'.qtype);
    assert forall t :: t in RECORD_TYPES ==> (Has(p.mask, t) <==> Has(p'.mask, t));
    MaskExtensional(p.mask, p'.mask);
  }

  lemma MaskExtensional(m: Mask, n: Mask)
    requires forall t :: t in RECORD_TYPES ==> (Has(m, t) <==> Has(n, t))
    ensures m == n
  {
    assert Has(m, TYPE_PTR) <==> Has(n, TYPE_PTR);
    assert Has(m, TYPE_SRV) <==> Has(n, TYPE_SRV);
    assert Has(m, TYPE_A) <==> Has(n, TYPE_A);
    assert Has(m, TYPE_AAAA) <==> Has(n, TYPE_AAAA);
    assert Has(m, TYPE_TXT) <==> Has(n, TYPE_TXT);
  }

  function SetOf(qs: seq<Ask>): set<Ask> { set q | q in qs }

  lemma {:induction false} MergeAllJoins(qs: seq<Ask>)
    requires qs != []
    ensures Joins(MergeAll(qs), SetOf(qs))
  {
    var n := |qs| - 1;
    var init, q := qs[..n], qs[n];
    assert SetOf(qs) == SetOf(init) + {q} by { assert qs == init + [q]; }
    if init == [] {
      assert SetOf(init) == {};
      SingleJoins(q);
    } else {
      MergeAllJoins(init);
      hide MergeAll;
      MergeJoins(MergeAll(init), SetOf(init), q);
    }
  }

  lemma SingleJoins(q: Ask)
    ensures Joins(Merge(EMPTY, q), {q})
  {
    hide Has;
    assert q in {q};
    assert forall t :: AllOfType({q}, t) ==> q.qtype == t;
  }

  lemma MergeJoins(p: Pending, qs: set<Ask>, q: Ask)
    requires Joins(p, qs)
    ensures Joins(Merge(p, q), qs + {q})
  {
    var all, p' := qs + {q}, Merge(p, q);
    assert q in all && forall x :: x in qs ==> x in all;
    assert forall t :: AllOfType(all, t) <==> AllOfType(qs, t) && q.qtype == t;
    assert forall t :: t in RECORD_TYPES ==> (Has(p'.mask, t) <==> Has(p.mask, t) && Has(q.mask, t));
    hide Has;
  }

  // ---------------------------------------------------------------- the timer

  /** The one response timer is shared: a service update that announces itself more than
      once takes it over. All this is about a server that is live and stays so. */
  datatype Handler = FireReply | MoreAnnouncements

  datatype Event = Arrived(q: Ask) | TimerFires | InfoUpdated

  /** The reply under construction, what the timer waits to do, and what has been fired. */
  datatype Responder = Responder(pending: Pending, timer: Option<Handler>, announces: byte, fired: seq<Pending>)

  const QUIET := Responder(EMPTY, None, 0, [])

  /** send_update_announce */
  function Announce(r: Responder, count: byte): Responder {
    var n := (r.announces + 1) % 256;
    r.(announces := n, timer := if n < count then Some(MoreAnnouncements) else r.timer)
  }

  function Step(r: Responder, e: Event, count: byte): Responder {
    match e
    case Arrived(q) => r.(pending := Merge(r.pending, q), timer := if r.pending.armed then r.timer else Some(FireReply))
    case TimerFires =>
      if r.timer.None? then r
      else if r.timer.value.FireReply? then Responder(EMPTY, None, r.announces, r.fired + [r.pending])
      else Announce(r.(timer := None), count)
    case InfoUpdated => Announce(r.(announces := 0), count)
  }

  function Run(es: seq<Event>, count: byte): Responder {
    if es == [] then QUIET else Step(Run(es[..|es| - 1], count), es[|es| - 1], count)
  }

  /** The queries since the last reply was fired. */
  function Waiting(es: seq<Event>, count: byte): seq<Ask> {
    if es == [] then []
    else
      var init, e := es[..|es| - 1], es[|es| - 1];
      match e
      case Arrived(q) => Waiting(init, count) + [q]
      case TimerFires => if Run(init, count).timer == Some(FireReply) then [] else Waiting(init, count)
      case InfoUpdated => Waiting(init, count)
  }

  /** In every run the reply is the merge of exactly the queries since the last firing, is
      armed exactly while there are any, and the timer waits to fire it only then. */
  lemma {:induction false} PendingTracksQueries(es: seq<Event>, count: byte)
    ensures var r := Run(es, count);
            && r.pending == MergeAll(Waiting(es, count))
            && (r.pending.armed <==> Waiting(es, count) != [])
            && (r.timer == Some(FireReply) ==> r.pending.armed)
  {
    if es != [] {
      var n := |es| - 1;
      PendingTracksQueries(es[..n], count);
      if es[n].Arrived? {
        var qs := Waiting(es, count);
        assert qs[..|qs| - 1] == Waiting(es[..n], count);
      }
    }
  }

  /** What a firing sends: the join of exactly the queries waiting, whatever their order. */
  lemma FiredIsJoin(es: seq<Event>, count: byte)
    requires Run(es, count).timer == Some(FireReply)
    ensures var r := Run(es + [TimerFires], count);
            && r.fired == Run(es, count).fired + [Run(es, count).pending]
            && Joins(Run(es, count).pending, SetOf(Waiting(es, count)))
            && !r.pending.armed && r.timer == None && Waiting(es + [TimerFires], count) == []
  {
    PendingTracksQueries(es, count);
    MergeAllJoins(Waiting(es, count));
    assert (es + [TimerFires])[..|es|] == es;
  }

  // ---------------------------------------------------------------- the timer taken over

  /** A reply is pending, but the timer does not wait to fire it. */
  predicate Deaf(r: Responder) { r.pending.armed && r.timer != Some(FireReply) }

  function Continue(r: Responder, es: seq<Event>, count: byte): Responder {
    if es == [] then r else Step(Continue(r, es[..|es| - 1], count), es[|es| - 1], count)
  }

  /** Once deaf, always deaf: no multicast reply is ever fired again. */
  lemma {:induction false} StaysDeaf(r: Responder, es: seq<Event>, count: byte)
    requires Deaf(r)
    ensures Deaf(Continue(r, es, count)) && Continue(r, es, count).fired == r.fired
  {
    if es != [] {
      StaysDeaf(r, es[..|es| - 1], count);
    }
  }

  /** An update that announces itself more than once comes while queries are waiting. */
  ghost predicate Interrupted(es: seq<Event>, count: byte) {
    exists i :: 0 <= i < |es| && InterruptsAt(es, count, i)
  }

  ghost predicate InterruptsAt(es: seq<Event>, count: byte, i: nat)
    requires i < |es|
  {
    count > 1 && es[i] == InfoUpdated && Waiting(es[..i], count) != []
  }

  /** Armed exactly while the timer waits to fire: this holds at the end of a run if and
      only if no such update has interrupted it. */
  lemma {:induction false} DeafIsExact(es: seq<Event>, count: byte)
    ensures Deaf(Run(es, count)) <==> Interrupted(es, count)
    ensures (Run(es, count).pending.armed <==> Run(es, count).timer == Some(FireReply)) <==> !Interrupted(es, count)
  {
    hide Waiting, MergeAll, Interrupted, InterruptsAt, Step;
    PendingTracksQueries(es, count);
    if es == [] {
      NeverInterrupted(count);
    } else {
      var n := |es| - 1;
      DeafIsExact(es[..n], count);
      PendingTracksQueries(es[..n], count);
      InterruptedGrows(es, count);
      DeafStep(Run(es[..n], count), es[n], count);
    }
  }

  lemma NeverInterrupted(count: byte)
    ensures !Interrupted([], count)
  {
  }

  lemma InterruptedGrows(es: seq<Event>, count: byte)
    requires es != []
    ensures var init, e := es[..|es| - 1], es[|es| - 1];
            Interrupted(es, count) <==>
            Interrupted(init, count) || (count > 1 && e == InfoUpdated && Waiting(init, count) != [])
  {
    hide Waiting;
    var n := |es| - 1;
    var init := es[..n];
    forall i | 0 <= i < n
      ensures InterruptsAt(es, count, i) <==> InterruptsAt(init, count, i)
    {
      assert init[..i] == es[..i];
    }
    assert InterruptsAt(es, count, n) <==> count > 1 && es[n] == InfoUpdated && Waiting(init, count) != [];
  }

  lemma DeafStep(r: Responder, e: Event, count: byte)
    requires r.timer == Some(FireReply) ==> r.pending.armed
    ensures Deaf(Step(r, e, count)) <==> Deaf(r) || (count > 1 && e == InfoUpdated && r.pending.armed)
  {
    hide Both;
  }

  /** One query and one update are enough. */
  lemma UpdateSilencesReplies(q: Ask, more: seq<Event>, count: byte)
    requires count > 1
    ensures var r := Run([Arrived(q), InfoUpdated], count);
            Deaf(r) && Deaf(Continue(r, more, count)) && Continue(r, more, count).fired == []
  {
    var es := [Arrived(q), InfoUpdated];
    assert es[..1] == [Arrived(q)] && es[..1][..0] == [];
    assert Run(es[..1], count) == Step(QUIET, Arrived(q), count);
    StaysDeaf(Run(es, count), more, count);
  }

  // ---------------------------------------------------------------- the announcements cut short

  /** How many announcements an update is to send. */
  function Burst(count: byte): nat { if count == 0 then 1 else count }

  /** The timer waits for more announcements only while some are due. */
  predicate WellTimed(r: Responder, count: byte) {
    r.timer == Some(MoreAnnouncements) ==> 1 <= r.announces < count
  }

  lemma {:induction false} RunIsWellTimed(es: seq<Event>, count: byte)
    ensures WellTimed(Run(es, count), count)
  {
    if es != [] {
      RunIsWellTimed(es[..|es| - 1], count);
    }
  }

  function Fires(es: seq<Event>): nat {
    if es == [] then 0 else Fires(es[..|es| - 1]) + if es[|es| - 1].TimerFires? then 1 else 0
  }

  ghost predicate NoUpdate(es: seq<Event>) { forall i :: 0 <= i < |es| ==> es[i] != InfoUpdated }

  /** The first of several queries arrives while announcements are still due. */
  ghost predicate TakesTimerAt(r: Responder, es: seq<Event>, count: byte, i: nat)
    requires i < |es|
  {
    var s := Continue(r, es[..i], count);
    es[i].Arrived? && !s.pending.armed && s.timer == Some(MoreAnnouncements)
  }

  ghost predicate TimerTaken(r: Responder, es: seq<Event>, count: byte) {
    exists i :: 0 <= i < |es| && TakesTimerAt(r, es, count, i)
  }

  /** Some announcements are due, and the timer does not wait to send them. */
  predicate CutShort(r: Responder, count: byte) {
    r.announces < Burst(count) && r.timer != Some(MoreAnnouncements)
  }

  /** "An announcement burst with announce_count announcements": after an update at the end
      of any run, and until the next one, the burst is cut short if and only if a query has
      arrived unarmed while announcements were due. Otherwise every time the timer fires
      one more is sent, until all are. */
  lemma {:induction false} BurstIsExact(before: seq<Event>, es: seq<Event>, count: byte)
    requires NoUpdate(es)
    ensures var r := Step(Run(before, count), InfoUpdated, count);
            var r' := Continue(r, es, count);
            && WellTimed(r', count)
            && (CutShort(r', count) <==> TimerTaken(r, es, count))
            && (!CutShort(r', count) ==>
                  r'.announces == if 1 + Fires(es) < Burst(count) then 1 + Fires(es) else Burst(count))
    decreases |es|
  {
    hide Merge;
    var r := Step(Run(before, count), InfoUpdated, count);
    if es == [] {
      RunIsWellTimed(before, count);
    } else {
      var n := |es| - 1;
      BurstIsExact(before, es[..n], count);
      TakenGrows(r, es, count);
      BurstStep(Continue(r, es[..n], count), es[n], count);
      hide Step, TimerTaken, TakesTimerAt, Burst;
    }
  }

  lemma TakenGrows(r: Responder, es: seq<Event>, count: byte)
    requires es != []
    ensures TimerTaken(r, es, count) <==>
            TimerTaken(r, es[..|es| - 1], count) || TakesTimerAt(r, es, count, |es| - 1)
  {
    hide Continue;
    var n := |es| - 1;
    forall i | 0 <= i < n
      ensures TakesTimerAt(r, es, count, i) <==> TakesTimerAt(r, es[..n], count, i)
    {
      assert es[..n][..i] == es[..i];
    }
  }

  lemma BurstStep(r: Responder, e: Event, count: byte)
    requires WellTimed(r, count) && e != InfoUpdated
    ensures var r' := Step(r, e, count);
            && WellTimed(r', count)
            && (CutShort(r', count) <==>
                  CutShort(r, count) || (e.Arrived? && !r.pending.armed && r.timer == Some(MoreAnnouncements)))
            && r'.announces == r.announces + (if e.TimerFires? && r.timer == Some(MoreAnnouncements) then 1 else 0)
            && (!CutShort(r, count) && r.timer != Some(MoreAnnouncements) ==> r.announces >= Burst(count))
  {
    hide Merge;
  }

  /** Two announcements are due; one query, and the second is never sent. */
  lemma QueryCutsBurstShort(q: Ask, more: seq<Event>)
    requires NoUpdate(more)
    ensures Continue(Run([InfoUpdated, Arrived(q)], 2), more, 2).announces == 1
  {
    hide Merge;
    var es := [InfoUpdated, Arrived(q)];
    assert es[..1] == [InfoUpdated] && es[..1][..0] == [];
    assert Run(es[..1], 2) == Step(QUIET, InfoUpdated, 2);
    assert Run(es, 2) == Step(Run(es[..1], 2), Arrived(q), 2);
    StaysCutShort(Run(es, 2), more, 2);
  }

  lemma {:induction false} StaysCutShort(r: Responder, es: seq<Event>, count: byte)
    requires WellTimed(r, count) && CutShort(r, count) && NoUpdate(es)
    ensures WellTimed(Continue(r, es, count), count) && CutShort(Continue(r, es, count), count)
    ensures Continue(r, es, count).announces == r.announces
  {
    hide Step;
    if es != [] {
      var n := |es| - 1;
      StaysCutShort(r, es[..n], count);
      BurstStep(Continue(r, es[..n], count), es[n], count);
    }
  }

  // ---------------------------------------------------------------- the object

  class MulticastReplies {
    const announceCount: byte
    var armed: bool
    var qtype: u16
    var needsNsec: bool
    var mask: Mask
    var timer: Option<Handler>
    var announces: byte
    ghost var fired: seq<Pending>
    ghost var log: seq<Event>

    ghost function Abs(): Responder
      reads this
    {
      Responder(Pending(armed, qtype, needsNsec, mask), timer, announces, fired)
    }

    /** The object has come through its log, so every law about runs holds of it. */
    ghost predicate Valid()
      reads this
    {
      Abs() == Run(log, announceCount)
    }

    constructor (count: byte)
      ensures Valid() && log == [] && announceCount == count
    {
      announceCount := count;
      armed, qtype, needsNsec, mask := false, 0, false, NO_MASK;
      timer, announces, fired, log := None, 0, [], [];
    }

    lemma LogGrows(e: Event)
      requires Valid()
      ensures Run(log + [e], announceCount) == Step(Abs(), e, announceCount)
    {
      assert (log + [e])[..|log|] == log;
    }

    /** pending_response::merge */
    method MergeQuery(q: Ask)
      modifies this`armed, this`qtype, this`needsNsec, this`mask
      ensures Abs() == old(Abs()).(pending := Merge(old(Abs()).pending, q))
    {
      hide Both;
      if !armed {
        armed, qtype, needsNsec, mask := true, q.qtype, q.needsNsec, q.mask;
        return;
      }
      if qtype != q.qtype {
        qtype := TYPE_ANY;
      }
      needsNsec := needsNsec || q.needsNsec;
      mask := Both(mask, q.mask);
    }

    /** schedule_multicast_response: only the first query touches the timer. */
    method Schedule(q: Ask)
      requires Valid()
      modifies this
      ensures Valid() && log == old(log) + [Arrived(q)]
    {
      hide Both, Run;
      LogGrows(Arrived(q));
      var wasArmed := armed;
      MergeQuery(q);
      if !wasArmed {
        timer := Some(FireReply);
      }
      log := log + [Arrived(q)];
    }

    /** The timer runs out: fire_pending_response, or the next announcement of an update. */
    method OnTimer() returns (sent: Option<Pending>)
      requires Valid() && timer.Some?
      modifies this
      ensures Valid() && log == old(log) + [TimerFires]
      ensures sent == if old(timer) == Some(FireReply) then Some(old(Abs()).pending) else None
      ensures sent.Some? ==> Joins(sent.value, SetOf(Waiting(old(log), announceCount)))
    {
      LogGrows(TimerFires);
      PendingTracksQueries(log, announceCount);
      if timer.value.FireReply? {
        MergeAllJoins(Waiting(log, announceCount));
      }
      hide Run, Waiting, MergeAll, Joins;
      var handler := timer.value;
      timer, sent := None, None;
      if handler.FireReply? {
        sent := Some(Pending(armed, qtype, needsNsec, mask));
        fired := fired + [sent.value];
        armed, qtype, needsNsec, mask := false, 0, false, NO_MASK;
      } else {
        SendUpdateAnnounce();
      }
      log := log + [TimerFires];
    }

    method SendUpdateAnnounce()
      modifies this`announces, this`timer
      ensures Abs() == Announce(old(Abs()), announceCount)
    {
      announces := (announces + 1) % 256;
      if announces < announceCount {
        timer := Some(MoreAnnouncements);
      }
    }

    /** update_service_info, as far as the timer is concerned. */
    method UpdateServiceInfo()
      requires Valid()
      modifies this
      ensures Valid() && log == old(log) + [InfoUpdated]
    {
      hide Run;
      LogGrows(InfoUpdated);
      announces := 0;
      SendUpdateAnnounce();
      log := log + [InfoUpdated];
    }
  }
}
