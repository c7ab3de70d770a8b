/** The responder's life: probing, announcing, live, stopped, and updates of its data at
    any time (lib/mdnspp/include/mdnspp/basic_service_server.h and
    detail/server_probe_announce.h). Everything it does to the outside world, and every
    update, is appended to `out`; the one timer holds at most one pending action. */
module ResponderModel {
  import opened Bytes
  import opened Names

  datatype Phase = Idle | Probing | Announcing | Live | Stopped

  datatype Action = FirstProbe | NextProbe(more: bool) | NextAnnounce | Reprobe | NextUpdate

  datatype Outcome = Success | Conflict | Canceled

  datatype Out =
    | Began(name: Name)       // start_probing for this name
    | Probed(name: Name)      // a probe was sent
    | Yielded                 // a simultaneous probe won; probing restarts after a delay
    | Updated(name: Name)     // update_service_info replaced the data, name included
    | Announced(name: Name)
    | WentLive
    | Reannounced(name: Name) // an announcement of updated data
    | Goodbye
    | Ready(outcome: Outcome) // on_ready
    | Done                    // on_done

  datatype Options = Options(probeCount: byte, announceCount: byte, sendGoodbye: bool)

  datatype Server = Server(
    phase: Phase, probes: byte, announces: byte, attempts: byte, name: Name, timer: Option<Action>,
    stopped: bool, onReady: bool, onDone: bool, teardown: bool, out: seq<Out>)

  function Created(name: Name): Server {
    Server(Idle, 0, 0, 0, name, None, false, false, false, false, [])
  }

  function Emit(s: Server, o: Out): Server { s.(out := s.out + [o]) }

  /** Call and clear the on_ready handler, if there is one. */
  function FireReady(s: Server, o: Outcome): Server {
    if s.onReady then Emit(s, Ready(o)).(onReady := false) else s
  }

  function StartProbing(s: Server): Server {
    Emit(s, Began(s.name)).(phase := Probing, probes := 0, timer := Some(FirstProbe))
  }

  function SendProbe(s: Server, opts: Options): Server {
    if s.phase != Probing || s.stopped then s
    else
      var n := (s.probes + 1) % 256;
      Emit(s, Probed(s.name)).(probes := n, timer := Some(NextProbe(n < opts.probeCount)))
  }

  function SendAnnounce(s: Server, opts: Options): Server {
    if s.phase != Announcing || s.stopped then s
    else
      var n := (s.announces + 1) % 256;
      var s1 := Emit(s, Announced(s.name)).(announces := n);
      if n < opts.announceCount then s1.(timer := Some(NextAnnounce))
      else FireReady(Emit(s1, WentLive).(phase := Live), Success)
  }

  /** send_update_announce */
  function SendUpdate(s: Server, opts: Options): Server {
    if s.phase != Live || s.stopped then s
    else
      var n := (s.announces + 1) % 256;
      Emit(s, Reannounced(s.name)).(announces := n,
                                    timer := if n < opts.announceCount then Some(NextUpdate) else s.timer)
  }

  function TimerFires(s: Server, opts: Options): Server {
    if s.timer.None? then s else
    var s1 := s.(timer := None);
    match s.timer.value
    case FirstProbe => SendProbe(s1, opts)
    case NextProbe(more) =>
      if s.phase != Probing || s.stopped then s1
      else if more then SendProbe(s1, opts)
      else SendAnnounce(s1.(phase := Announcing, announces := 0), opts)
    case NextAnnounce => SendAnnounce(s1, opts)
    case Reprobe => if s.stopped then s1 else StartProbing(s1)
    case NextUpdate => SendUpdate(s1, opts)
  }

  /** A conflicting response: a new name from on_conflict, or the end. */
  function OnNameConflict(s: Server, newName: Option<Name>): Server {
    if s.stopped || s.phase != Probing then s else
    var s1 := s.(timer := None);
    if newName.Some? then StartProbing(s1.(name := newName.value, attempts := (s.attempts + 1) % 256))
    else FireReady(s1.(phase := Stopped, stopped := true), Conflict)
  }

  /** A simultaneous probe that wins: wait, then probe again. */
  function OnTiebreakLost(s: Server): Server {
    if s.stopped || s.phase != Probing then s
    else Emit(s, Yielded).(probes := 0, timer := Some(Reprobe))
  }

  /** update_service_info, when it runs on the executor: the data are replaced in every
      phase, but only a live server announces them by itself. */
  function Update(s: Server, name: Name, opts: Options): Server {
    if s.stopped then s else SendUpdate(Emit(s.(name := name, announces := 0), Updated(name)), opts)
  }

  /** A reply to a query takes the timer of a live server over. */
  function TakeTimer(s: Server): Server {
    if s.stopped || s.phase != Live then s else s.(timer := None)
  }

  /** stop(): the part on the caller's thread. */
  function Stop(s: Server, opts: Options): Server {
    if s.stopped then s else
    var s1 := s.(stopped := true, teardown := true);
    if opts.sendGoodbye && (s.phase == Live || s.phase == Announcing) then Emit(s1, Goodbye) else s1
  }

  /** stop(): the part posted to the executor. */
  function Teardown(s: Server): Server {
    if !s.teardown then s else
    var s1 := s.(teardown := false);
    var s2 := if s.phase == Probing || s.phase == Announcing then FireReady(s1, Canceled) else s1;
    var s3 := s2.(phase := Stopped, timer := None);
    if s3.onDone then Emit(s3, Done).(onDone := false) else s3
  }

  datatype Event =
    | Start(ready: bool, done: bool)
    | TimerEvent
    | ConflictEvent(newName: Option<Name>)
    | TiebreakEvent
    | UpdateEvent(name: Name)
    | ReplyEvent
    | StopEvent
    | TeardownEvent

  function Step(s: Server, e: Event, opts: Options): Server {
    match e
    case Start(ready, done) =>
      if s.phase == Idle then StartProbing(s.(onReady := ready, onDone := done)) else s
    case TimerEvent => TimerFires(s, opts)
    case ConflictEvent(newName) => OnNameConflict(s, newName)
    case TiebreakEvent => OnTiebreakLost(s)
    case UpdateEvent(name) => Update(s, name, opts)
    case ReplyEvent => TakeTimer(s)
    case StopEvent => Stop(s, opts)
    case TeardownEvent => Teardown(s)
  }

  function Run(name: Name, es: seq<Event>, opts: Options): Server {
    if es == [] then Created(name) else Step(Run(name, es[..|es| - 1], opts), es[|es| - 1], opts)
  }

  function Continue(s: Server, es: seq<Event>, opts: Options): Server {
    if es == [] then s else Step(Continue(s, es[..|es| - 1], opts), es[|es| - 1], opts)
  }

  // ---------------------------------------------------------------- histories

  function AtLeastOne(n: byte): byte { if n == 0 then 1 else n }

  predicate OfProbing(o: Out) { o.Began? || o.Probed? || o.Yielded? }

  /** Nothing but probing, and updates. */
  ghost predicate AllEarly(out: seq<Out>) {
    forall i :: 0 <= i < |out| ==> OfProbing(out[i]) || out[i].Updated?
  }

  ghost predicate AnyAnnounced(out: seq<Out>) {
    exists i :: 0 <= i < |out| && out[i].Announced?
  }

  ghost predicate AnyReady(out: seq<Out>) {
    exists i :: 0 <= i < |out| && out[i].Ready?
  }

  predicate Final(o: Out) { o == Goodbye || o == Done || o == Ready(Conflict) || o == Ready(Canceled) }

  ghost predicate Ended(out: seq<Out>) {
    exists i :: 0 <= i < |out| && Final(out[i])
  }

  /** The name in force: that of the last attempt or update. */
  function NameIn(out: seq<Out>): Option<Name> {
    if out == [] then None
    else
      var o := out[|out| - 1];
      if o.Began? || o.Updated? then Some(o.name) else NameIn(out[..|out| - 1])
  }

  /** The probes of the attempt under way, if there is one that nothing has disturbed. */
  function Tries(out: seq<Out>): Option<nat> {
    if out == [] then None
    else
      var o, before := out[|out| - 1], Tries(out[..|out| - 1]);
      if o.Began? then Some(0)
      else if o.Probed? && before.Some? then Some(before.value + 1)
      else if o.Updated? then before
      else None
  }

  /** The announcements since the last update. */
  function TailCount(out: seq<Out>): nat {
    if out == [] || out[|out| - 1].Updated? then 0
    else TailCount(out[..|out| - 1]) + if out[|out| - 1].Announced? then 1 else 0
  }

  /** What the server may do next after it has done `before`. */
  ghost predicate Fits(before: seq<Out>, o: Out, opts: Options) {
    match o
    case Began(_) => AllEarly(before)
    case Probed(name) => AllEarly(before) && Tries(before).Some? && NameIn(before) == Some(name)
    case Yielded => AllEarly(before)
    case Updated(_) => !Ended(before)
    case Announced(name) =>
      && !Ended(before) && WentLive !in before && NameIn(before) == Some(name)
      && if AnyAnnounced(before) then TailCount(before) < opts.announceCount
         else AllEarly(before) && Tries(before) == Some(AtLeastOne(opts.probeCount))
    case WentLive =>
      && !Ended(before) && WentLive !in before
      && before != [] && before[|before| - 1].Announced? && TailCount(before) == AtLeastOne(opts.announceCount)
    case Reannounced(name) => !Ended(before) && WentLive in before && NameIn(before) == Some(name)
    case Goodbye => !Ended(before) && AnyAnnounced(before)
    case Ready(outcome) =>
      && !AnyReady(before)
      && (outcome == Success ==> before != [] && before[|before| - 1] == WentLive)
      && (outcome == Conflict ==> AllEarly(before))
      && (outcome == Canceled ==> WentLive !in before)
    case Done => Done !in before
  }

  /** Everything the server has done was in order. */
  ghost predicate History(out: seq<Out>, opts: Options) {
    forall i :: 0 <= i < |out| ==> Fits(out[..i], out[i], opts)
  }

  lemma HistoryGrows(out: seq<Out>, o: Out, opts: Options)
    requires History(out, opts) && Fits(out, o, opts)
    ensures History(out + [o], opts)
  {
    hide Fits;
    var out' := out + [o];
    forall i | 0 <= i < |out'|
      ensures Fits(out'[..i], out'[i], opts)
    {
      assert out'[..i] == out[..i];
      assert i == |out| ==> out[..i] == out;
    }
  }

  /** One output more, and what it changes. */
  lemma Snoc(out: seq<Out>, o: Out)
    ensures AllEarly(out + [o]) <==> AllEarly(out) && (OfProbing(o) || o.Updated?)
    ensures AnyAnnounced(out + [o]) <==> AnyAnnounced(out) || o.Announced?
    ensures AnyReady(out + [o]) <==> AnyReady(out) || o.Ready?
    ensures Ended(out + [o]) <==> Ended(out) || Final(o)
    ensures NameIn(out + [o]) == if o.Began? || o.Updated? then Some(o.name) else NameIn(out)
    ensures Tries(out + [o]) ==
              if o.Began? then Some(0)
              else if o.Probed? && Tries(out).Some? then Some(Tries(out).value + 1)
              else if o.Updated? then Tries(out)
              else None
    ensures TailCount(out + [o]) == if o.Updated? then 0 else TailCount(out) + if o.Announced? then 1 else 0
    ensures AllEarly(out) ==> !AnyAnnounced(out) && !AnyReady(out) && !Ended(out) && WentLive !in out
                              && Done !in out && TailCount(out) == 0
  {
    hide AllEarly, AnyAnnounced, AnyReady, Ended, NameIn, Tries, TailCount;
    SnocScans(out, o);
    SnocFolds(out, o);
    EarlyMeans(out);
  }

  lemma SnocScans(out: seq<Out>, o: Out)
    ensures AllEarly(out + [o]) <==> AllEarly(out) && (OfProbing(o) || o.Updated?)
    ensures AnyAnnounced(out + [o]) <==> AnyAnnounced(out) || o.Announced?
    ensures AnyReady(out + [o]) <==> AnyReady(out) || o.Ready?
    ensures Ended(out + [o]) <==> Ended(out) || Final(o)
  {
    hide OfProbing, Final;
    var out' := out + [o];
    assert out'[|out|] == o && forall i :: 0 <= i < |out| ==> out'[i] == out[i];
  }

  lemma SnocFolds(out: seq<Out>, o: Out)
    ensures NameIn(out + [o]) == if o.Began? || o.Updated? then Some(o.name) else NameIn(out)
    ensures Tries(out + [o]) ==
              if o.Began? then Some(0)
              else if o.Probed? && Tries(out).Some? then Some(Tries(out).value + 1)
              else if o.Updated? then Tries(out)
              else None
    ensures TailCount(out + [o]) == if o.Updated? then 0 else TailCount(out) + if o.Announced? then 1 else 0
  {
    assert (out + [o])[..|out|] == out;
  }

  lemma EarlyMeans(out: seq<Out>)
    ensures AllEarly(out) ==> !AnyAnnounced(out) && !AnyReady(out) && !Ended(out) && WentLive !in out
                              && Done !in out && TailCount(out) == 0
  {
    hide TailCount;
    if AllEarly(out) {
      NoTail(out);
    }
  }

  lemma {:induction false} NoTail(out: seq<Out>)
    requires AllEarly(out)
    ensures TailCount(out) == 0
  {
    if out != [] {
      NoTail(out[..|out| - 1]);
    }
  }

  // ---------------------------------------------------------------- what is kept

  ghost predicate PhaseOk(s: Server, opts: Options) {
    match s.phase
    case Idle => (forall i :: 0 <= i < |s.out| ==> s.out[i].Updated?) && s.timer.None? && !s.onReady && !s.onDone
    case Probing =>
      && AllEarly(s.out) && NameIn(s.out).Some?
      && if Tries(s.out).None? then s.probes == 0 && (s.timer.None? || s.timer.value.Reprobe?)
         else
           && s.probes == Tries(s.out).value && s.probes <= AtLeastOne(opts.probeCount)
           && (s.timer.Some? ==> match s.timer.value
                 case FirstProbe => s.probes == 0
                 case NextProbe(more) => s.probes >= 1 && (more <==> s.probes < opts.probeCount)
                 case NextAnnounce => false
                 case Reprobe => false
                 case NextUpdate => false)
    case Announcing =>
      && AnyAnnounced(s.out) && WentLive !in s.out && NameIn(s.out).Some?
      && s.announces == TailCount(s.out) < opts.announceCount
      && (s.timer.Some? ==> s.timer.value.NextAnnounce?)
    case Live =>
      && AnyAnnounced(s.out) && WentLive in s.out && NameIn(s.out).Some?
      && (s.timer.Some? ==> s.timer.value.NextUpdate?)
    case Stopped => s.stopped && s.timer.None?
  }

  ghost predicate BooksOk(s: Server, opts: Options) {
    && History(s.out, opts)
    && (NameIn(s.out).Some? ==> NameIn(s.out).value == s.name)
    && (s.onReady ==> !AnyReady(s.out)) && (s.onDone ==> Done !in s.out)
    && (Ended(s.out) ==> s.stopped)
    && (s.stopped <==> s.teardown || s.phase == Stopped) && !(s.teardown && s.phase == Stopped)
  }

  ghost predicate Inv(s: Server, opts: Options) {
    PhaseOk(s, opts) && BooksOk(s, opts)
  }

  // ---------------------------------------------------------------- every event keeps it

  lemma StartProbingKeeps(s: Server, opts: Options)
    requires AllEarly(s.out) && BooksOk(s, opts) && s.phase != Stopped
    ensures Inv(StartProbing(s), opts)
  {
    hide AllEarly, AnyAnnounced, AnyReady, Ended, NameIn, Tries, TailCount, History;
    Snoc(s.out, Began(s.name));
    HistoryGrows(s.out, Began(s.name), opts);
  }

  lemma SendProbeKeeps(s: Server, opts: Options)
    requires Inv(s, opts) && s.phase == Probing && !s.stopped && s.timer.None? && Tries(s.out).Some?
    requires s.probes < AtLeastOne(opts.probeCount)
    ensures Inv(SendProbe(s, opts), opts)
  {
    hide AllEarly, AnyAnnounced, AnyReady, Ended, NameIn, Tries, TailCount, History;
    Snoc(s.out, Probed(s.name));
    HistoryGrows(s.out, Probed(s.name), opts);
  }

  lemma FireReadyKeeps(s: Server, o: Outcome, opts: Options)
    requires BooksOk(s, opts) && (o != Success ==> s.stopped)
    requires !AnyReady(s.out) ==> Fits(s.out, Ready(o), opts)
    ensures BooksOk(FireReady(s, o), opts)
    ensures var s' := FireReady(s, o);
            && (AnyAnnounced(s'.out) <==> AnyAnnounced(s.out)) && (WentLive in s'.out <==> WentLive in s.out)
            && NameIn(s'.out) == NameIn(s.out)
  {
    hide AllEarly, AnyAnnounced, AnyReady, Ended, NameIn, Tries, TailCount, History, Fits;
    Snoc(s.out, Ready(o));
    if s.onReady {
      HistoryGrows(s.out, Ready(o), opts);
    }
  }

  /** The history allows one more announcement. */
  ghost predicate MayAnnounce(s: Server, opts: Options) {
    && BooksOk(s, opts) && s.phase == Announcing && !s.stopped && s.timer.None?
    && WentLive !in s.out && NameIn(s.out).Some?
    && (if AnyAnnounced(s.out) then s.announces == TailCount(s.out) < opts.announceCount
        else AllEarly(s.out) && Tries(s.out) == Some(AtLeastOne(opts.probeCount)) && s.announces == 0)
  }

  lemma SendAnnounceKeeps(s: Server, opts: Options)
    requires MayAnnounce(s, opts)
    ensures Inv(SendAnnounce(s, opts), opts)
  {
    hide AllEarly, AnyAnnounced, AnyReady, Ended, NameIn, Tries, TailCount, History;
    var n := (s.announces + 1) % 256;
    var s1 := Emit(s, Announced(s.name)).(announces := n);
    Snoc(s.out, Announced(s.name));
    HistoryGrows(s.out, Announced(s.name), opts);
    if n >= opts.announceCount {
      WentLiveKeeps(s1, opts);
    }
  }

  lemma WentLiveKeeps(s: Server, opts: Options)
    requires BooksOk(s, opts) && s.phase == Announcing && !s.stopped && s.timer.None? && WentLive !in s.out
    requires s.out != [] && s.out[|s.out| - 1].Announced? && NameIn(s.out).Some?
    requires TailCount(s.out) == AtLeastOne(opts.announceCount)
    ensures Inv(FireReady(Emit(s, WentLive).(phase := Live), Success), opts)
  {
    hide AnyReady, Ended, NameIn, Tries, TailCount, History, AllEarly;
    Snoc(s.out, WentLive);
    HistoryGrows(s.out, WentLive, opts);
    assert AnyAnnounced(s.out);
    hide AnyAnnounced;
    FireReadyKeeps(Emit(s, WentLive).(phase := Live), Success, opts);
  }

  lemma SendUpdateKeeps(s: Server, opts: Options)
    requires Inv(s, opts) && s.phase == Live && !s.stopped
    ensures Inv(SendUpdate(s, opts), opts)
  {
    hide AllEarly, AnyAnnounced, AnyReady, Ended, NameIn, Tries, TailCount, History;
    Snoc(s.out, Reannounced(s.name));
    HistoryGrows(s.out, Reannounced(s.name), opts);
  }

  lemma TimerKeeps(s: Server, opts: Options)
    requires Inv(s, opts)
    ensures Inv(TimerFires(s, opts), opts)
  {
    hide AllEarly, AnyAnnounced, AnyReady, Ended, NameIn, Tries, TailCount, History;
    if s.timer.Some? {
      var s1 := s.(timer := None);
      assert Inv(s1, opts);
      if s.phase == Probing && !s.stopped {
        Snoc(s.out, Yielded);
        match s.timer.value
        case FirstProbe => SendProbeKeeps(s1, opts);
        case NextProbe(more) =>
          if more {
            SendProbeKeeps(s1, opts);
          } else {
            SendAnnounceKeeps(s1.(phase := Announcing, announces := 0), opts);
          }
        case Reprobe => StartProbingKeeps(s1, opts);
        case NextAnnounce =>
        case NextUpdate =>
      } else if s.phase == Announcing && !s.stopped {
        SendAnnounceKeeps(s1, opts);
      } else if s.phase == Live && !s.stopped {
        SendUpdateKeeps(s1, opts);
      }
    }
  }

  lemma ConflictKeeps(s: Server, newName: Option<Name>, opts: Options)
    requires Inv(s, opts)
    ensures Inv(OnNameConflict(s, newName), opts)
  {
    hide AnyAnnounced, AnyReady, Ended, Tries, TailCount, History;
    if !s.stopped && s.phase == Probing {
      var s1 := s.(timer := None);
      Snoc(s.out, Yielded);
      if newName.Some? {
        ConflictRenames(s1, newName.value, opts);
      } else {
        hide AllEarly, NameIn;
        FireReadyKeeps(s1.(phase := Stopped, stopped := true), Conflict, opts);
      }
    }
  }

  lemma ConflictRenames(s: Server, name: Name, opts: Options)
    requires Inv(s, opts) && s.phase == Probing && !s.stopped
    ensures Inv(StartProbing(s.(name := name, attempts := (s.attempts + 1) % 256)), opts)
  {
    hide AllEarly, AnyAnnounced, AnyReady, Ended, NameIn, Tries, TailCount, History;
    Snoc(s.out, Began(name));
    HistoryGrows(s.out, Began(name), opts);
  }

  lemma TiebreakKeeps(s: Server, opts: Options)
    requires Inv(s, opts)
    ensures Inv(OnTiebreakLost(s), opts)
  {
    hide AllEarly, AnyAnnounced, AnyReady, Ended, NameIn, Tries, TailCount, History;
    if !s.stopped && s.phase == Probing {
      Snoc(s.out, Yielded);
      HistoryGrows(s.out, Yielded, opts);
    }
  }

  lemma UpdateKeeps(s: Server, name: Name, opts: Options)
    requires Inv(s, opts)
    ensures Inv(Update(s, name, opts), opts)
  {
    hide AllEarly, AnyAnnounced, AnyReady, Ended, NameIn, Tries, TailCount, History;
    if !s.stopped {
      Snoc(s.out, Updated(name));
      HistoryGrows(s.out, Updated(name), opts);
      var s1 := Emit(s.(name := name, announces := 0), Updated(name));
      assert Inv(s1, opts);
      if s.phase == Live {
        SendUpdateKeeps(s1, opts);
      }
    }
  }

  lemma StopKeeps(s: Server, opts: Options)
    requires Inv(s, opts)
    ensures Inv(Stop(s, opts), opts)
  {
    hide AllEarly, AnyAnnounced, AnyReady, Ended, NameIn, Tries, TailCount, History;
    if !s.stopped && opts.sendGoodbye && (s.phase == Live || s.phase == Announcing) {
      Snoc(s.out, Goodbye);
      HistoryGrows(s.out, Goodbye, opts);
    }
  }

  lemma TeardownKeeps(s: Server, opts: Options)
    requires Inv(s, opts)
    ensures Inv(Teardown(s), opts)
  {
    hide AllEarly, AnyAnnounced, AnyReady, Ended, NameIn, Tries, TailCount, History;
    if s.teardown {
      var s1 := s.(teardown := false, phase := Stopped, timer := None);
      var canceled := s.phase == Probing || s.phase == Announcing;
      Snoc(s.out, Yielded);
      if canceled {
        FireReadyKeeps(s1, Canceled, opts);
      }
      var s2 := if canceled then FireReady(s1, Canceled) else s1;
      if s2.onDone {
        Snoc(s2.out, Done);
        HistoryGrows(s2.out, Done, opts);
      }
    }
  }

  lemma StepKeeps(s: Server, e: Event, opts: Options)
    requires Inv(s, opts)
    ensures Inv(Step(s, e, opts), opts)
  {
    hide TimerFires, OnNameConflict, OnTiebreakLost, Update, Stop, Teardown, StartProbing;
    hide AnyAnnounced, AnyReady, Ended, Tries, TailCount, History;
    match e
    case Start(ready, done) =>
      if s.phase == Idle {
        Snoc(s.out, Yielded);
        IdleStarts(s, ready, done, opts);
        StartProbingKeeps(s.(onReady := ready, onDone := done), opts);
      }
    case TimerEvent => TimerKeeps(s, opts);
    case ConflictEvent(newName) => ConflictKeeps(s, newName, opts);
    case TiebreakEvent => TiebreakKeeps(s, opts);
    case UpdateEvent(name) => UpdateKeeps(s, name, opts);
    case ReplyEvent =>
    case StopEvent => StopKeeps(s, opts);
    case TeardownEvent => TeardownKeeps(s, opts);
  }

  lemma IdleStarts(s: Server, ready: bool, done: bool, opts: Options)
    requires Inv(s, opts) && s.phase == Idle
    ensures AllEarly(s.out) && BooksOk(s.(onReady := ready, onDone := done), opts)
  {
    Snoc(s.out, Yielded);
  }

  lemma {:induction false} RunKeeps(name: Name, es: seq<Event>, opts: Options)
    ensures Inv(Run(name, es, opts), opts)
  {
    hide Inv, Step;
    if es == [] {
      CreatedOk(name, opts);
    } else {
      RunKeeps(name, es[..|es| - 1], opts);
      StepKeeps(Run(name, es[..|es| - 1], opts), es[|es| - 1], opts);
    }
  }

  lemma CreatedOk(name: Name, opts: Options)
    ensures Inv(Created(name), opts)
  {
  }

  // ---------------------------------------------------------------- the promises

  /** The probes sent after position `b`. */
  function ProbesSince(out: seq<Out>, b: nat): nat {
    if |out| <= b + 1 then 0
    else ProbesSince(out[..|out| - 1], b) + if out[|out| - 1].Probed? then 1 else 0
  }

  /** An attempt begins at `b`, and up to the end nothing happens but `n` probes and updates. */
  ghost predicate Attempt(out: seq<Out>, b: int, n: nat) {
    && 0 <= b < |out| && out[b].Began? && ProbesSince(out, b) == n
    && forall i :: b < i < |out| ==> out[i].Probed? || out[i].Updated?
  }

  lemma {:induction false} TriesMeans(out: seq<Out>) returns (b: nat)
    requires Tries(out).Some?
    ensures Attempt(out, b, Tries(out).value)
  {
    var k := |out| - 1;
    if out[k].Began? {
      b := k;
    } else {
      b := TriesMeans(out[..k]);
      assert forall i :: b < i < k ==> out[i] == out[..k][i];
      assert out[b] == out[..k][b];
    }
  }

  ghost predicate FirstAnnouncement(out: seq<Out>, f: int) {
    0 <= f < |out| && out[f].Announced? && !AnyAnnounced(out[..f])
  }

  predicate Once(o: Out) { o.Ready? || o == Goodbye || o == Done || o == WentLive }

  predicate SameKind(o: Out, p: Out) { (o.Ready? && p.Ready?) || o == p }

  /** Announcing comes only after an undisturbed attempt of `n` probes. */
  ghost predicate EarnsAnnouncing(out: seq<Out>, n: nat) {
    forall f :: FirstAnnouncement(out, f) ==> exists b :: Attempt(out[..f], b, n)
  }

  /** No probing after an announcement; on_ready, on_done, the goodbye and going live at most
      once; nothing but the two handlers after a goodbye. */
  ghost predicate KeepsOrder(out: seq<Out>) {
    forall i, j :: 0 <= i < j < |out| ==>
      && (out[i].Announced? ==> !OfProbing(out[j]))
      && (Once(out[i]) ==> !SameKind(out[i], out[j]))
      && (out[i] == Goodbye ==> out[j].Ready? || out[j] == Done)
  }

  /** Success right after going live, conflict only if nothing is ever announced,
      cancellation only if the server never goes live, a goodbye only after an announcement. */
  ghost predicate OutcomesMatch(out: seq<Out>) {
    && (forall i :: 0 <= i < |out| && out[i] == Ready(Success) ==> i > 0 && out[i - 1] == WentLive)
    && (Ready(Conflict) in out ==> !AnyAnnounced(out))
    && (Ready(Canceled) in out ==> WentLive !in out)
    && (forall i :: 0 <= i < |out| && out[i] == Goodbye ==> AnyAnnounced(out[..i]))
  }

  ghost predicate Orderly(out: seq<Out>, n: nat) {
    EarnsAnnouncing(out, n) && KeepsOrder(out) && OutcomesMatch(out)
  }

  /** Whatever happens, in any order, updates included: the history is orderly; the phase
      says whether the server has announced and gone live; and going live takes
      max(1, announce_count) announcements since the last update. */
  lemma Lifecycle(name: Name, es: seq<Event>, opts: Options)
    ensures var s := Run(name, es, opts);
            && Orderly(s.out, AtLeastOne(opts.probeCount))
            && (s.phase == Announcing ==> AnyAnnounced(s.out) && WentLive !in s.out)
            && (s.phase == Live ==> WentLive in s.out)
            && forall l :: 0 <= l < |s.out| && s.out[l] == WentLive ==>
                 TailCount(s.out[..l]) == AtLeastOne(opts.announceCount)
  {
    RunKeeps(name, es, opts);
    hide Run, Orderly;
    var s := Run(name, es, opts);
    HistoryIsOrderly(s.out, opts);
    forall l | 0 <= l < |s.out| && s.out[l] == WentLive
      ensures TailCount(s.out[..l]) == AtLeastOne(opts.announceCount)
    {
      assert Fits(s.out[..l], s.out[l], opts);
    }
  }

  lemma HistoryIsOrderly(out: seq<Out>, opts: Options)
    requires History(out, opts)
    ensures Orderly(out, AtLeastOne(opts.probeCount))
  {
    hide History, EarnsAnnouncing, KeepsOrder, OutcomesMatch;
    HistoryEarns(out, opts);
    HistoryKeepsOrder(out, opts);
    HistoryMatches(out, opts);
  }

  lemma HistoryEarns(out: seq<Out>, opts: Options)
    requires History(out, opts)
    ensures EarnsAnnouncing(out, AtLeastOne(opts.probeCount))
  {
    hide History, ProbesSince, AnyAnnounced;
    forall f | FirstAnnouncement(out, f)
      ensures exists b :: Attempt(out[..f], b, AtLeastOne(opts.probeCount))
    {
      var b := FirstIsEarned(out, f, opts);
    }
  }

  lemma HistoryKeepsOrder(out: seq<Out>, opts: Options)
    requires History(out, opts)
    ensures KeepsOrder(out)
  {
    hide History, Once, SameKind;
    forall i, j | 0 <= i < j < |out|
      ensures out[i].Announced? ==> !OfProbing(out[j])
      ensures Once(out[i]) ==> !SameKind(out[i], out[j])
      ensures out[i] == Goodbye ==> out[j].Ready? || out[j] == Done
    {
      LaterFits(out, i, j, opts);
    }
  }

  lemma HistoryMatches(out: seq<Out>, opts: Options)
    requires History(out, opts)
    ensures OutcomesMatch(out)
  {
    hide History, AllEarly, AnyAnnounced;
    forall i, j | 0 <= i < j < |out|
      ensures out[i] == Ready(Conflict) ==> !out[j].Announced?
      ensures out[i] == Ready(Canceled) ==> out[j] != WentLive
    {
      LaterFits(out, i, j, opts);
    }
    forall i | 0 <= i < |out| && out[i] == Ready(Success)
      ensures i > 0 && out[i - 1] == WentLive
    {
      NowFits(out, i, opts);
    }
    forall i | 0 <= i < |out| && out[i] == Goodbye
      ensures AnyAnnounced(out[..i])
    {
      NowFits(out, i, opts);
    }
    forall i | 0 <= i < |out|
      ensures out[i] == Ready(Conflict) ==> AllEarly(out[..i])
      ensures out[i] == Ready(Canceled) ==> WentLive !in out[..i]
    {
      NowFits(out, i, opts);
    }
    NoneBefore(out);
  }

  lemma FirstIsEarned(out: seq<Out>, f: nat, opts: Options) returns (b: nat)
    requires History(out, opts) && FirstAnnouncement(out, f)
    ensures Attempt(out[..f], b, AtLeastOne(opts.probeCount))
  {
    hide Attempt, AllEarly, AnyAnnounced, Ended, NameIn, Tries, TailCount;
    assert Fits(out[..f], out[f], opts);
    b := TriesMeans(out[..f]);
  }

  lemma NowFits(out: seq<Out>, i: nat, opts: Options)
    requires History(out, opts) && i < |out|
    ensures out[i] == Ready(Success) ==> i > 0 && out[i - 1] == WentLive
    ensures out[i] == Ready(Conflict) ==> AllEarly(out[..i])
    ensures out[i] == Ready(Canceled) ==> WentLive !in out[..i]
    ensures out[i] == Goodbye ==> AnyAnnounced(out[..i])
  {
    hide AllEarly, AnyAnnounced, AnyReady, Ended, NameIn, Tries, TailCount;
    assert Fits(out[..i], out[i], opts);
  }

  lemma NoneBefore(out: seq<Out>)
    requires forall i, j :: 0 <= i < j < |out| ==>
               && (out[i] == Ready(Conflict) ==> !out[j].Announced?)
               && (out[i] == Ready(Canceled) ==> out[j] != WentLive)
    requires forall i :: 0 <= i < |out| ==>
               && (out[i] == Ready(Conflict) ==> AllEarly(out[..i]))
               && (out[i] == Ready(Canceled) ==> WentLive !in out[..i])
    ensures Ready(Conflict) in out ==> !AnyAnnounced(out)
    ensures Ready(Canceled) in out ==> WentLive !in out
  {
    if Ready(Conflict) in out {
      var i :| 0 <= i < |out| && out[i] == Ready(Conflict);
      assert forall j :: 0 <= j < i ==> out[..i][j] == out[j];
      assert forall j :: 0 <= j < |out| ==> !out[j].Announced?;
    }
    if Ready(Canceled) in out {
      var i :| 0 <= i < |out| && out[i] == Ready(Canceled);
      assert forall j :: 0 <= j < i ==> out[..i][j] == out[j];
      assert forall j :: 0 <= j < |out| ==> out[j] != WentLive;
    }
  }

  /** What an output rules out for a later one. */
  lemma LaterFits(out: seq<Out>, i: nat, j: nat, opts: Options)
    requires History(out, opts) && i < j < |out|
    ensures out[i].Announced? ==> !OfProbing(out[j])
    ensures Once(out[i]) ==> !SameKind(out[i], out[j])
    ensures out[i] == Goodbye ==> out[j].Ready? || out[j] == Done
    ensures out[i] == Ready(Conflict) ==> !out[j].Announced?
    ensures out[i] == Ready(Canceled) ==> out[j] != WentLive
  {
    hide Tries, TailCount, NameIn;
    var before := out[..j];
    assert before[i] == out[i] && out[i] in before;
    assert Fits(before, out[j], opts);
    assert Final(out[i]) ==> Ended(before);
    assert out[i].Ready? ==> AnyReady(before);
  }

  // ---------------------------------------------------------------- the name that was probed for

  lemma {:induction false} NameThroughAttempt(out: seq<Out>, b: nat, f: nat, i: nat)
    requires b < i <= f < |out| && out[b].Began? && forall j :: b < j < f ==> out[j].Probed? || out[j].Updated?
    requires forall u :: b < u < f && out[u].Updated? && !out[u + 1].Updated? ==> out[u].name == out[b].name
    requires !out[i].Updated?
    ensures NameIn(out[..i]) == Some(out[b].name)
    decreases i
  {
    assert out[..i][..i - 1] == out[..i - 1] && out[..i][i - 1] == out[i - 1];
    if i - 1 > b && out[i - 1].Probed? {
      NameThroughAttempt(out, b, f, i - 1);
    }
  }

  /** The name announced first is the one that every probe of the attempt was for, and that
      the attempt began with, if and only if no update since has put another name into
      force; one that was itself replaced before anything was sent does not matter. */
  lemma NameIsExact(name: Name, es: seq<Event>, opts: Options, b: nat, f: nat)
    requires var out := Run(name, es, opts).out;
             FirstAnnouncement(out, f) && Attempt(out[..f], b, AtLeastOne(opts.probeCount))
    ensures var out := Run(name, es, opts).out;
            (forall i :: b < i <= f && !out[i].Updated? ==> out[i].name == out[b].name) <==>
            (forall u :: b < u < f && out[u].Updated? && !out[u + 1].Updated? ==> out[u].name == out[b].name)
  {
    hide Run, PhaseOk, History, FirstAnnouncement, Attempt, Ended, AnyReady, NameIn;
    RunKeeps(name, es, opts);
    NameIsExactIn(Run(name, es, opts).out, opts, b, f);
  }

  /** The name in force is the one probed for or announced. */
  lemma NameFits(out: seq<Out>, opts: Options, b: nat, f: nat, i: nat)
    requires History(out, opts) && FirstAnnouncement(out, f) && Attempt(out[..f], b, AtLeastOne(opts.probeCount))
    requires b < i <= f && !out[i].Updated?
    ensures (out[i].Probed? || out[i].Announced?) && NameIn(out[..i]) == Some(out[i].name)
  {
    hide NameIn, Tries, TailCount, ProbesSince, AllEarly, AnyAnnounced, Ended;
    assert i < f ==> out[..f][i] == out[i];
    assert Fits(out[..i], out[i], opts);
  }

  lemma NameIsExactIn(out: seq<Out>, opts: Options, b: nat, f: nat)
    requires History(out, opts) && FirstAnnouncement(out, f) && Attempt(out[..f], b, AtLeastOne(opts.probeCount))
    ensures (forall i :: b < i <= f && !out[i].Updated? ==> out[i].name == out[b].name) <==>
            (forall u :: b < u < f && out[u].Updated? && !out[u + 1].Updated? ==> out[u].name == out[b].name)
  {
    hide History, AnyAnnounced, NameIn, ProbesSince;
    assert forall j :: 0 <= j < f ==> out[..f][j] == out[j];
    if forall u :: b < u < f && out[u].Updated? && !out[u + 1].Updated? ==> out[u].name == out[b].name {
      forall i | b < i <= f && !out[i].Updated?
        ensures out[i].name == out[b].name
      {
        NameFits(out, opts, b, f, i);
        NameThroughAttempt(out, b, f, i);
      }
    }
    forall u | b < u < f && out[u].Updated? && !out[u + 1].Updated?
      ensures out[u + 1].name == out[u].name
    {
      NameFits(out, opts, b, f, u + 1);
      NameOfUpdate(out, u);
    }
  }

  lemma NameOfUpdate(out: seq<Out>, u: nat)
    requires u < |out| && out[u].Updated?
    ensures NameIn(out[..u + 1]) == Some(out[u].name)
  {
    assert out[..u + 1][u] == out[u];
  }

  // ---------------------------------------------------------------- how often it was announced

  function Announcements(out: seq<Out>): nat {
    if out == [] then 0
    else Announcements(out[..|out| - 1]) + if out[|out| - 1].Announced? then 1 else 0
  }

  ghost predicate UpdatedWhileAnnouncing(out: seq<Out>) {
    exists u :: 0 <= u < |out| && out[u].Updated? && AnyAnnounced(out[..u])
  }

  lemma {:induction false} TailIsAll(out: seq<Out>)
    ensures TailCount(out) <= Announcements(out) && (Announcements(out) > 0 <==> AnyAnnounced(out))
    ensures TailCount(out) == Announcements(out) <==> !UpdatedWhileAnnouncing(out)
  {
    if out != [] {
      var k := |out| - 1;
      TailIsAll(out[..k]);
      assert forall u :: 0 <= u < k ==> out[..k][..u] == out[..u] && out[..k][u] == out[u];
      assert UpdatedWhileAnnouncing(out) <==>
             UpdatedWhileAnnouncing(out[..k]) || (out[k].Updated? && AnyAnnounced(out[..k]));
      assert AnyAnnounced(out) <==> AnyAnnounced(out[..k]) || out[k].Announced?;
      hide AnyAnnounced, UpdatedWhileAnnouncing;
    }
  }

  /** A server that goes live has announced itself exactly max(1, announce_count) times if
      and only if it was not updated between its first announcement and then. */
  lemma CountIsExact(name: Name, es: seq<Event>, opts: Options, l: nat)
    requires var out := Run(name, es, opts).out; l < |out| && out[l] == WentLive
    ensures var out := Run(name, es, opts).out;
            && Announcements(out[..l]) >= AtLeastOne(opts.announceCount)
            && (Announcements(out[..l]) == AtLeastOne(opts.announceCount) <==> !UpdatedWhileAnnouncing(out[..l]))
  {
    hide Run, Orderly, UpdatedWhileAnnouncing, AnyAnnounced, Announcements, TailCount;
    Lifecycle(name, es, opts);
    TailIsAll(Run(name, es, opts).out[..l]);
  }

  // ---------------------------------------------------------------- updates in time, and too early

  /** An update takes effect while the server is probing or announcing. */
  ghost predicate UpdatedEarly(name: Name, es: seq<Event>, opts: Options) {
    exists i :: 0 <= i < |es| && EarlyAt(name, es, opts, i)
  }

  ghost predicate EarlyAt(name: Name, es: seq<Event>, opts: Options, i: nat)
    requires i < |es|
  {
    var s := Run(name, es[..i], opts);
    es[i].UpdateEvent? && !s.stopped && (s.phase == Probing || s.phase == Announcing)
  }

  /** Updates come before the first attempt or after going live. */
  ghost predicate Calm(out: seq<Out>) {
    forall u :: 0 <= u < |out| && out[u].Updated? ==> CalmAt(out, u)
  }

  ghost predicate CalmAt(out: seq<Out>, u: nat)
    requires u < |out|
  {
    (forall i :: 0 <= i < u ==> out[i].Updated?) || WentLive in out[..u]
  }

  lemma CalmGrows(out: seq<Out>, o: Out)
    requires Calm(out) && (o.Updated? ==> (forall i :: 0 <= i < |out| ==> out[i].Updated?) || WentLive in out)
    ensures Calm(out + [o])
  {
    var out' := out + [o];
    assert out'[..|out|] == out;
    forall u | 0 <= u < |out'| && out'[u].Updated?
      ensures CalmAt(out', u)
    {
      if u < |out| {
        assert CalmAt(out, u) && out'[..u] == out[..u];
      }
    }
  }

  lemma {:induction false} InTimeIsCalm(name: Name, es: seq<Event>, opts: Options)
    requires !UpdatedEarly(name, es, opts)
    ensures Calm(Run(name, es, opts).out)
  {
    if es != [] {
      var k := |es| - 1;
      var s, e := Run(name, es[..k], opts), es[k];
      forall i | 0 <= i < k
        ensures !EarlyAt(name, es[..k], opts, i)
      {
        assert !EarlyAt(name, es, opts, i) && es[..k][..i] == es[..i];
      }
      assert !EarlyAt(name, es, opts, k);
      InTimeIsCalm(name, es[..k], opts);
      RunKeeps(name, es[..k], opts);
      hide Run, UpdatedEarly, EarlyAt;
      StepIsCalm(s, e, opts);
    }
  }

  lemma StepIsCalm(s: Server, e: Event, opts: Options)
    requires Inv(s, opts) && Calm(s.out)
    requires e.UpdateEvent? && !s.stopped ==> s.phase != Probing && s.phase != Announcing
    ensures Calm(Step(s, e, opts).out)
  {
    hide Calm, History, AnyAnnounced, AnyReady, Ended, NameIn, Tries, TailCount, AllEarly;
    forall out, o: Out | Calm(out) && !o.Updated?
      ensures Calm(out + [o])
    {
      CalmGrows(out, o);
    }
    if e.UpdateEvent? && !s.stopped {
      CalmGrows(s.out, Updated(e.name));
    }
  }

  /** With updates only before the start or once live: the service is announced only for
      the name that was probed for, and exactly max(1, announce_count) times before it
      goes live. */
  lemma UpdatesInTime(name: Name, es: seq<Event>, opts: Options)
    requires !UpdatedEarly(name, es, opts)
    ensures var out := Run(name, es, opts).out;
            && (forall f, b :: FirstAnnouncement(out, f) && Attempt(out[..f], b, AtLeastOne(opts.probeCount)) ==>
                  NameKept(out, b, f))
            && forall l :: 0 <= l < |out| && out[l] == WentLive ==>
                 Announcements(out[..l]) == AtLeastOne(opts.announceCount)
  {
    hide Run, UpdatedEarly, PhaseOk, History, Calm, Announcements, AnyReady, Ended, NameIn;
    hide UpdatedWhileAnnouncing, AnyAnnounced, ProbesSince, NameKept;
    InTimeIsCalm(name, es, opts);
    RunKeeps(name, es, opts);
    var out := Run(name, es, opts).out;
    forall f, b | FirstAnnouncement(out, f) && Attempt(out[..f], b, AtLeastOne(opts.probeCount))
      ensures NameKept(out, b, f)
    {
      KeptInTime(out, opts, b, f);
    }
    forall l | 0 <= l < |out| && out[l] == WentLive
      ensures Announcements(out[..l]) == AtLeastOne(opts.announceCount)
    {
      CalmBeforeLive(out, opts, l);
      CountIsExact(name, es, opts, l);
    }
  }

  /** From the beginning of an attempt to its announcement there is no update and one name. */
  ghost predicate NameKept(out: seq<Out>, b: int, f: int) {
    0 <= b < f < |out| && out[b].Began?
    && forall i :: b < i <= f ==> (out[i].Probed? || out[i].Announced?) && out[i].name == out[b].name
  }

  lemma KeptInTime(out: seq<Out>, opts: Options, b: nat, f: nat)
    requires History(out, opts) && Calm(out)
    requires FirstAnnouncement(out, f) && Attempt(out[..f], b, AtLeastOne(opts.probeCount))
    ensures NameKept(out, b, f)
  {
    hide History, Calm, AnyAnnounced, ProbesSince, NameIn;
    assert out[..f][b] == out[b];
    CalmBeforeAnnouncing(out, opts, b, f);
    NameIsExactIn(out, opts, b, f);
    forall i | b < i <= f
      ensures out[i].Probed? || out[i].Announced?
    {
      NameFits(out, opts, b, f, i);
    }
  }

  lemma CalmBeforeAnnouncing(out: seq<Out>, opts: Options, b: nat, f: nat)
    requires History(out, opts) && Calm(out) && FirstAnnouncement(out, f) && b < f && out[b].Began?
    ensures forall i :: b < i <= f ==> !out[i].Updated?
  {
    hide ProbesSince, NameIn, Tries, TailCount;
    assert Fits(out[..f], out[f], opts);
    assert forall j :: 0 <= j < f ==> out[..f][j] == out[j];
    forall i | b < i <= f
      ensures !out[i].Updated?
    {
      assert out[i].Updated? ==> CalmAt(out, i);
      assert forall j :: 0 <= j < i ==> out[..i][j] == out[j];
    }
  }

  lemma CalmBeforeLive(out: seq<Out>, opts: Options, l: nat)
    requires History(out, opts) && Calm(out) && l < |out| && out[l] == WentLive
    ensures !UpdatedWhileAnnouncing(out[..l])
  {
    hide ProbesSince, NameIn, Tries, TailCount;
    assert Fits(out[..l], out[l], opts);
    assert forall j :: 0 <= j < l ==> out[..l][j] == out[j];
    forall u | 0 <= u < l && out[u].Updated?
      ensures !AnyAnnounced(out[..l][..u])
    {
      assert CalmAt(out, u) && out[..l][..u] == out[..u];
      assert forall j :: 0 <= j < u ==> out[..u][j] == out[j];
    }
  }

  /** An update right after the start, as the documentation's example has it: the server
      goes live under a name it has never probed for. */
  lemma UpdateWhileProbing(a: Name, b: Name)
    requires a != b
    ensures var s := Run(a, [Start(true, false), TimerEvent, UpdateEvent(b), TimerEvent], Options(1, 1, true));
            && s.phase == Live && s.name == b
            && s.out == [Began(a), Probed(a), Updated(b), Announced(b), WentLive, Ready(Success)]
  {
    var es, opts := [Start(true, false), TimerEvent, UpdateEvent(b), TimerEvent], Options(1, 1, true);
    hide Step, Run;
    Unrolled(a, es, opts);
    ProbedOnce(a, opts);
    RenamedAndLive(a, b, opts);
    assert Run(a, es[..1], opts) == Step(Created(a), es[0], opts);
    assert Run(a, es[..2], opts) == Step(Run(a, es[..1], opts), es[1], opts);
    assert Run(a, es[..3], opts) == Step(Run(a, es[..2], opts), es[2], opts);
    assert Run(a, es[..4], opts) == Step(Run(a, es[..3], opts), es[3], opts);
  }

  /** One probe sent, and no more to send. */
  function OnceProbed(a: Name): Server {
    Server(Probing, 1, 0, 0, a, Some(NextProbe(false)), false, true, false, false, [Began(a), Probed(a)])
  }

  lemma ProbedOnce(a: Name, opts: Options)
    requires opts.probeCount == 1
    ensures Step(Step(Created(a), Start(true, false), opts), TimerEvent, opts) == OnceProbed(a)
  {
    assert Step(Created(a), Start(true, false), opts).out == [Began(a)];
  }

  lemma RenamedAndLive(a: Name, b: Name, opts: Options)
    requires opts == Options(1, 1, true)
    ensures var s' := Step(Step(OnceProbed(a), UpdateEvent(b), opts), TimerEvent, opts);
            && s'.phase == Live && s'.name == b
            && s'.out == [Began(a), Probed(a), Updated(b), Announced(b), WentLive, Ready(Success)]
  {
    assert Step(OnceProbed(a), UpdateEvent(b), opts).out == [Began(a), Probed(a), Updated(b)];
  }

  /** A run, event by event. */
  lemma Unrolled(a: Name, es: seq<Event>, opts: Options)
    ensures forall k :: 0 < k <= |es| ==> Run(a, es[..k], opts) == Step(Run(a, es[..k - 1], opts), es[k - 1], opts)
    ensures es[..|es|] == es && Run(a, es[..0], opts) == Created(a)
  {
    hide Step;
    forall k | 0 < k <= |es|
      ensures Run(a, es[..k], opts) == Step(Run(a, es[..k - 1], opts), es[k - 1], opts)
    {
      assert es[..k][..k - 1] == es[..k - 1];
    }
  }

  /** An update between two announcements: three are sent where two were asked for. */
  lemma UpdateWhileAnnouncing(a: Name)
    ensures var es := [Start(true, false), TimerEvent, TimerEvent, UpdateEvent(a), TimerEvent, TimerEvent];
            var s := Run(a, es, Options(1, 2, true));
            && s.phase == Live
            && s.out == [Began(a), Probed(a), Announced(a), Updated(a), Announced(a), Announced(a), WentLive,
                         Ready(Success)]
  {
    var es := [Start(true, false), TimerEvent, TimerEvent, UpdateEvent(a), TimerEvent, TimerEvent];
    var opts := Options(1, 2, true);
    hide Step, Run;
    Unrolled(a, es, opts);
    ThreeSteps(a, opts);
    ThreeMore(a, opts);
    assert Run(a, es[..1], opts) == Step(Created(a), es[0], opts);
    assert Run(a, es[..2], opts) == Step(Run(a, es[..1], opts), es[1], opts);
    assert Run(a, es[..3], opts) == Step(Run(a, es[..2], opts), es[2], opts);
    assert Run(a, es[..4], opts) == Step(Run(a, es[..3], opts), es[3], opts);
    assert Run(a, es[..5], opts) == Step(Run(a, es[..4], opts), es[4], opts);
    assert Run(a, es[..6], opts) == Step(Run(a, es[..5], opts), es[5], opts);
  }

  /** Announced once, with one announcement to go. */
  function OnceAnnounced(a: Name, out: seq<Out>): Server {
    Server(Announcing, 1, 1, 0, a, Some(NextAnnounce), false, true, false, false, out)
  }

  lemma ThreeSteps(a: Name, opts: Options)
    requires opts == Options(1, 2, true)
    ensures Step(Step(Step(Created(a), Start(true, false), opts), TimerEvent, opts), TimerEvent, opts)
         == OnceAnnounced(a, [Began(a), Probed(a), Announced(a)])
  {
    ProbedOnce(a, opts);
    assert Step(OnceProbed(a), TimerEvent, opts).out == [Began(a), Probed(a), Announced(a)];
  }

  lemma ThreeMore(a: Name, opts: Options)
    requires opts == Options(1, 2, true)
    ensures var s := OnceAnnounced(a, [Began(a), Probed(a), Announced(a)]);
            var s' := Step(Step(Step(s, UpdateEvent(a), opts), TimerEvent, opts), TimerEvent, opts);
            s'.phase == Live && s'.out == s.out + [Updated(a), Announced(a), Announced(a), WentLive, Ready(Success)]
  {
    var s := OnceAnnounced(a, [Began(a), Probed(a), Announced(a)]);
    var s2 := Step(Step(s, UpdateEvent(a), opts), TimerEvent, opts);
    assert s2 == OnceAnnounced(a, s.out + [Updated(a), Announced(a)]);
  }

  // ---------------------------------------------------------------- no way back, and the end

  /** Once announcing or live, a server never probes again, whatever is updated. */
  lemma {:induction false} NoWayBack(s: Server, es: seq<Event>, opts: Options)
    requires Inv(s, opts) && (s.phase == Announcing || s.phase == Live || s.phase == Stopped)
    ensures var s' := Continue(s, es, opts); s'.phase == Announcing || s'.phase == Live || s'.phase == Stopped
    decreases |es|
  {
    hide Inv, Step;
    if es != [] {
      NoWayBack(s, es[..|es| - 1], opts);
      ContinueKeeps(s, es[..|es| - 1], opts);
      StepForward(Continue(s, es[..|es| - 1], opts), es[|es| - 1], opts);
    }
  }

  lemma {:induction false} ContinueKeeps(s: Server, es: seq<Event>, opts: Options)
    requires Inv(s, opts)
    ensures Inv(Continue(s, es, opts), opts)
  {
    hide Inv, Step;
    if es != [] {
      ContinueKeeps(s, es[..|es| - 1], opts);
      StepKeeps(Continue(s, es[..|es| - 1], opts), es[|es| - 1], opts);
    }
  }

  lemma StepForward(s: Server, e: Event, opts: Options)
    requires Inv(s, opts) && (s.phase == Announcing || s.phase == Live || s.phase == Stopped)
    ensures var s' := Step(s, e, opts); s'.phase == Announcing || s'.phase == Live || s'.phase == Stopped
  {
    hide BooksOk, AllEarly, AnyAnnounced, NameIn, Tries, TailCount;
  }

  /** "on_done fires when stop() is called" does not hold after a name conflict
      that ended the server: it stays silent whatever happens afterwards. */
  lemma {:induction false} ConflictIsSilent(s: Server, es: seq<Event>, opts: Options)
    requires s.phase == Stopped && s.stopped && !s.teardown && s.timer.None?
    ensures Continue(s, es, opts) == s
    decreases |es|
  {
    if es != [] {
      ConflictIsSilent(s, es[..|es| - 1], opts);
    }
  }

  /** Exactly when stop() and its teardown make on_done fire: a handler is waiting and
      the server has not already ended, as it has after a fatal conflict. */
  lemma DoneIsExact(name: Name, es: seq<Event>, opts: Options)
    ensures var s := Run(name, es, opts);
            var s' := Step(Step(s, StopEvent, opts), TeardownEvent, opts);
            Done in s'.out <==> Done in s.out || (s.onDone && s.phase != Stopped)
  {
    RunKeeps(name, es, opts);
    hide Run, History, AllEarly, AnyAnnounced, AnyReady, Ended, NameIn, Tries, TailCount;
  }

  lemma ConflictEndsSilently(name: Name, es: seq<Event>, opts: Options)
    requires var s := Run(name, es, opts); s.phase == Probing && !s.stopped
    ensures var s' := OnNameConflict(Run(name, es, opts), None);
            forall more :: Continue(s', more, opts) == s'
  {
    RunKeeps(name, es, opts);
    hide Run, History, AllEarly, AnyAnnounced, AnyReady, Ended, NameIn, Tries, TailCount;
    var s' := OnNameConflict(Run(name, es, opts), None);
    forall more
      ensures Continue(s', more, opts) == s'
    {
      ConflictIsSilent(s', more, opts);
    }
  }
}
