/** What a responder does, and not only what it never does: left to its timer it goes live,
    and every event has exactly its outputs
    (lib/mdnspp/include/mdnspp/basic_service_server.h). */
module ResponderProgress {
  import opened Bytes
  import opened Names
  import opened ResponderModel

  function Times<T>(n: nat, x: T): seq<T> { seq(n, _ => x) }

  /** The timer fires `n` times, and nothing else happens. */
  function Timers(n: nat): seq<Event> { Times(n, TimerEvent) }

  lemma OneMore<T>(before: seq<T>, n: nat, x: T)
    ensures before + Times(n, x) + [x] == before + Times(n + 1, x)
    ensures before + Times(0, x) == before
  {
  }

  lemma TimersConcat(p: nat, a: nat)
    ensures Timers(p + a) == Timers(p) + Timers(a)
  {
  }

  lemma TimersStep(s: Server, n: nat, opts: Options)
    ensures Continue(s, Timers(0), opts) == s
    ensures Continue(s, Timers(n + 1), opts) == Step(Continue(s, Timers(n), opts), TimerEvent, opts)
  {
    hide Step;
    assert Timers(n + 1)[..n] == Timers(n);
  }

  lemma {:induction false} ContinueConcat(s: Server, es: seq<Event>, more: seq<Event>, opts: Options)
    ensures Continue(s, es + more, opts) == Continue(Continue(s, es, opts), more, opts)
  {
    hide Step;
    if more == [] {
      assert es + more == es;
    } else {
      ContinueConcat(s, es, more[..|more| - 1], opts);
      assert (es + more)[..|es + more| - 1] == es + more[..|more| - 1];
    }
  }

  lemma ContinueOne(s: Server, e: Event, opts: Options)
    ensures Continue(s, [e], opts) == Step(s, e, opts)
  {
    hide Step;
    assert [e][..0] == [];
    assert Continue(s, [], opts) == s;
  }

  // ---------------------------------------------------------------- going live

  /** An attempt has just begun and nothing disturbs it. */
  predicate Fresh(s: Server) {
    s.phase == Probing && !s.stopped && s.probes == 0 && s.timer == Some(FirstProbe)
  }

  function Max1(n: byte): nat { if n < 1 then 1 else n }

  lemma {:induction false} ProbesGoOut(s: Server, k: nat, opts: Options)
    requires Fresh(s) && 1 <= k <= Max1(opts.probeCount)
    ensures Continue(s, Timers(k), opts)
         == s.(out := s.out + Times(k, Probed(s.name)), probes := k, timer := Some(NextProbe(k < opts.probeCount)))
    decreases k
  {
    hide Continue, Times;
    TimersStep(s, k - 1, opts);
    OneMore(s.out, k - 1, Probed(s.name));
    if k > 1 {
      ProbesGoOut(s, k - 1, opts);
    }
  }

  lemma {:induction false} AnnouncementsGoOut(s: Server, k: nat, opts: Options)
    requires s.phase == Probing && !s.stopped && s.timer == Some(NextProbe(false)) && 1 <= k < Max1(opts.announceCount)
    ensures Continue(s, Timers(k), opts)
         == s.(phase := Announcing, out := s.out + Times(k, Announced(s.name)), announces := k,
               timer := Some(NextAnnounce))
    decreases k
  {
    hide Continue, Times;
    TimersStep(s, k - 1, opts);
    OneMore(s.out, k - 1, Announced(s.name));
    if k > 1 {
      AnnouncementsGoOut(s, k - 1, opts);
    }
  }

  function ReadyCall(s: Server): seq<Out> { if s.onReady then [Ready(Outcome.Success)] else [] }

  lemma TurnsLive(s: Server, opts: Options)
    requires !s.stopped && s.announces < 255 && s.announces + 1 >= opts.announceCount
    requires s.phase == Announcing && s.timer == Some(NextAnnounce)
    ensures Step(s, TimerEvent, opts) ==
              s.(phase := Live, announces := s.announces + 1, timer := None, onReady := false,
                 out := s.out + [Announced(s.name)] + [WentLive] + ReadyCall(s))
  {
  }

  lemma TurnsLiveAtOnce(s: Server, opts: Options)
    requires !s.stopped && opts.announceCount <= 1
    requires s.phase == Probing && s.timer == Some(NextProbe(false))
    ensures Step(s, TimerEvent, opts) ==
              s.(phase := Live, announces := 1, timer := None, onReady := false,
                 out := s.out + [Announced(s.name)] + [WentLive] + ReadyCall(s))
  {
  }

  lemma LastAnnouncement(s: Server, opts: Options)
    requires s.phase == Probing && !s.stopped && s.timer == Some(NextProbe(false))
    ensures var a := Max1(opts.announceCount);
            Continue(s, Timers(a), opts) ==
              s.(phase := Live, announces := a, timer := None, onReady := false,
                 out := s.out + Times(a, Announced(s.name)) + [WentLive] + ReadyCall(s))
  {
    hide Continue, Times, Step;
    var a := Max1(opts.announceCount);
    TimersStep(s, a - 1, opts);
    OneMore(s.out, a - 1, Announced(s.name));
    if a > 1 {
      AnnouncementsGoOut(s, a - 1, opts);
      TurnsLive(Continue(s, Timers(a - 1), opts), opts);
    } else {
      TurnsLiveAtOnce(s, opts);
    }
  }

  /** What going live adds to the outputs: the probes, the announcements, on_ready. */
  function WayToLive(name: Name, ready: bool, opts: Options): seq<Out> {
    Times(Max1(opts.probeCount), Probed(name)) + Times(Max1(opts.announceCount), Announced(name))
    + [WentLive] + if ready then [Ready(Outcome.Success)] else []
  }

  /** An attempt that nothing disturbs sends its probes, then its announcements, and is live
      after exactly max(1, probe_count) + max(1, announce_count) firings of the timer. */
  lemma UndisturbedGoesLive(s: Server, opts: Options)
    requires Fresh(s)
    ensures var s' := Continue(s, Timers(Max1(opts.probeCount) + Max1(opts.announceCount)), opts);
            && s'.phase == Live && !s'.stopped && s'.name == s.name && s'.timer == None && !s'.onReady
            && s'.onDone == s.onDone && s'.attempts == s.attempts && s'.teardown == s.teardown
            && s'.out == s.out + WayToLive(s.name, s.onReady, opts)
  {
    hide Continue, Step, Times;
    var p, a := Max1(opts.probeCount), Max1(opts.announceCount);
    TimersConcat(p, a);
    ContinueConcat(s, Timers(p), Timers(a), opts);
    ProbesGoOut(s, p, opts);
    LastAnnouncement(Continue(s, Timers(p), opts), opts);
    var probed, announced := Times(p, Probed(s.name)), Times(a, Announced(s.name));
    assert s.out + probed + announced + [WentLive] + ReadyCall(s)
        == s.out + (probed + announced + [WentLive] + ReadyCall(s));
  }

  // ---------------------------------------------------------------- every event

  /** A server that is started and left alone goes live under its name. */
  lemma StartedGoesLive(name: Name, ready: bool, done: bool, opts: Options)
    ensures var s' := Continue(Created(name),
                               [Start(ready, done)] + Timers(Max1(opts.probeCount) + Max1(opts.announceCount)), opts);
            s'.phase == Live && s'.name == name && s'.onDone == done
            && s'.out == [Began(name)] + WayToLive(name, ready, opts)
  {
    hide Continue, WayToLive;
    var n := Max1(opts.probeCount) + Max1(opts.announceCount);
    ContinueConcat(Created(name), [Start(ready, done)], Timers(n), opts);
    ContinueOne(Created(name), Start(ready, done), opts);
    UndisturbedGoesLive(Step(Created(name), Start(ready, done), opts), opts);
  }

  /** After a conflict a probing server that is given a new name probes for it and, left
      alone, goes live under it; without one it ends and says so. */
  lemma ConflictTakesEffect(s: Server, newName: Option<Name>, opts: Options)
    requires s.phase == Probing && !s.stopped
    ensures var s' := Step(s, ConflictEvent(newName), opts);
            match newName
            case None =>
              && s'.phase == Stopped && s'.stopped && s'.timer == None && s'.name == s.name
              && s'.out == s.out + if s.onReady then [Ready(Conflict)] else []
            case Some(n) =>
              var s2 := Continue(s', Timers(Max1(opts.probeCount) + Max1(opts.announceCount)), opts);
              && s'.attempts == (s.attempts + 1) % 256
              && s2.phase == Live && s2.name == n && s2.onDone == s.onDone
              && s2.out == s.out + [Began(n)] + WayToLive(n, s.onReady, opts)
  {
    hide Continue, WayToLive;
    if newName.Some? {
      UndisturbedGoesLive(Step(s, ConflictEvent(newName), opts), opts);
    }
  }

  /** A probing server that loses a simultaneous probe starts over under the same name when
      its timer fires and, left alone, goes live. */
  lemma YieldedComesBack(s: Server, opts: Options)
    requires s.phase == Probing && !s.stopped
    ensures var s' := Step(Step(s, TiebreakEvent, opts), TimerEvent, opts);
            var s2 := Continue(s', Timers(Max1(opts.probeCount) + Max1(opts.announceCount)), opts);
            && s2.phase == Live && s2.name == s.name && s2.attempts == s.attempts && s2.onDone == s.onDone
            && s2.out == s.out + [Yielded, Began(s.name)] + WayToLive(s.name, s.onReady, opts)
  {
    hide Continue, WayToLive;
    UndisturbedGoesLive(Step(Step(s, TiebreakEvent, opts), TimerEvent, opts), opts);
  }

  lemma ReannouncedFirst(s: Server, name: Name, opts: Options)
    requires s.phase == Live && !s.stopped
    ensures Step(s, UpdateEvent(name), opts) ==
              s.(name := name, announces := 1, out := s.out + [Updated(name)] + [Reannounced(name)],
                 timer := if 1 < opts.announceCount then Some(NextUpdate) else s.timer)
  {
  }

  lemma ReannouncedAgain(s: Server, opts: Options)
    requires s.phase == Live && !s.stopped && s.timer == Some(NextUpdate) && s.announces < 255
    ensures Step(s, TimerEvent, opts) ==
              s.(announces := s.announces + 1, out := s.out + [Reannounced(s.name)],
                 timer := if s.announces + 1 < opts.announceCount then Some(NextUpdate) else None)
  {
  }

  lemma {:induction false} ReannouncementsGoOut(s: Server, name: Name, k: nat, opts: Options)
    requires s.phase == Live && !s.stopped && 1 <= k <= Max1(opts.announceCount)
    ensures var s' := Step(s, UpdateEvent(name), opts);
            Continue(s', Timers(k - 1), opts) ==
              s.(name := name, announces := k, out := s.out + [Updated(name)] + Times(k, Reannounced(name)),
                 timer := if k < opts.announceCount then Some(NextUpdate) else if k == 1 then s.timer else None)
    decreases k
  {
    hide Continue, Times, Step;
    var s' := Step(s, UpdateEvent(name), opts);
    OneMore(s.out + [Updated(name)], k - 1, Reannounced(name));
    TimersStep(s', if k == 1 then 0 else k - 2, opts);
    if k > 1 {
      ReannouncementsGoOut(s, name, k - 1, opts);
      ReannouncedAgain(Continue(s', Timers(k - 2), opts), opts);
    } else {
      ReannouncedFirst(s, name, opts);
    }
  }

  /** A live server announces an update max(1, announce_count) times; any other running
      server takes the new name over and goes on as it was. */
  lemma UpdateTakesEffect(s: Server, name: Name, opts: Options)
    requires !s.stopped
    ensures var s', a := Step(s, UpdateEvent(name), opts), Max1(opts.announceCount);
            if s.phase == Live then
              var s2 := Continue(s', Timers(a - 1), opts);
              && s2.phase == Live && s2.name == name
              && s2.out == s.out + [Updated(name)] + Times(a, Reannounced(name))
            else s' == s.(name := name, announces := 0, out := s.out + [Updated(name)])
  {
    hide Continue;
    if s.phase == Live {
      ReannouncementsGoOut(s, name, Max1(opts.announceCount), opts);
    }
  }

  /** What ending a server in this state says: on_ready if it was still under way, on_done. */
  function Endings(s: Server): seq<Out> {
    (if s.onReady && (s.phase == Probing || s.phase == Announcing) then [Ready(Canceled)] else [])
    + if s.onDone then [Done] else []
  }

  /** stop() sends a goodbye exactly if goodbyes are sent and something has been announced;
      its teardown then calls the handlers that still wait, and ends everything. */
  lemma StopTakesEffect(s: Server, opts: Options)
    requires Inv(s, opts) && !s.stopped
    ensures var s1 := Step(s, StopEvent, opts);
            var s2 := Step(s1, TeardownEvent, opts);
            && s1.stopped
            && s1.out == s.out + (if opts.sendGoodbye && AnyAnnounced(s.out) then [Goodbye] else [])
            && s2.out == s1.out + Endings(s)
            && s2.phase == Stopped && s2.stopped && !s2.teardown && s2.timer == None && s2.name == s.name
  {
    hide History, NameIn, Tries, TailCount, Ended, AnyReady;
    assert s.phase == Probing ==> !AnyAnnounced(s.out);
    assert s.phase == Idle ==> !AnyAnnounced(s.out);
    var s1 := Step(s, StopEvent, opts);
    var ready := if s.onReady && (s.phase == Probing || s.phase == Announcing) then [Ready(Canceled)] else [];
    assert s1.out + [] == s1.out;
    assert s1.out + ready + [Done] == s1.out + (ready + [Done]);
  }

  /** What is ignored: a second start, conflicts and lost tiebreaks outside probing, anything
      but the teardown once stop() was called, and a timer that is not set. */
  lemma IgnoredEvents(s: Server, e: Event, opts: Options)
    requires Inv(s, opts)
    requires match e
             case Start(_, _) => s.phase != Idle
             case TimerEvent => s.timer == None
             case ConflictEvent(_) => s.phase != Probing || s.stopped
             case TiebreakEvent => s.phase != Probing || s.stopped
             case UpdateEvent(_) => s.stopped
             case ReplyEvent => s.phase != Live || s.stopped
             case StopEvent => s.stopped
             case TeardownEvent => !s.teardown
    ensures Step(s, e, opts) == s
  {
  }

  /** Once stop() was called a firing of the timer does nothing but clear it. */
  lemma StoppedTimerIsIdle(s: Server, opts: Options)
    requires Inv(s, opts) && s.stopped
    ensures Step(s, TimerEvent, opts) == s.(timer := None)
  {
    hide History, NameIn, Tries, TailCount, Ended, AnyReady;
  }

  /** A reply of a live server takes its timer over and changes nothing else. */
  lemma ReplyTakesTimer(s: Server, opts: Options)
    requires s.phase == Live && !s.stopped
    ensures Step(s, ReplyEvent, opts) == s.(timer := None)
  {
  }
}
