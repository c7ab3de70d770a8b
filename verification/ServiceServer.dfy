/** The responder as an object: each method changes the fields the way the event
    handlers do, and computes the step of the same name. */
module ServiceServers {
  import opened Bytes
  import opened Names
  import opened ResponderModel

  class ServiceServer {
    const opts: Options
    var phase: Phase
    var probes: byte
    var announces: byte
    var attempts: byte
    var name: Name
    var timer: Option<Action>
    var stopped: bool
    var onReady: bool
    var onDone: bool
    var teardown: bool
    ghost var out: seq<Out>

    ghost function Abs(): Server
      reads this
    {
      Server(phase, probes, announces, attempts, name, timer, stopped, onReady, onDone, teardown, out)
    }

    ghost predicate Valid()
      reads this
    {
      Inv(Abs(), opts)
    }

    constructor (serviceName: Name, options: Options)
      ensures Valid() && Abs() == Created(serviceName) && opts == options
    {
      opts := options;
      phase, probes, announces, attempts := Idle, 0, 0, 0;
      name, timer, stopped, onReady, onDone, teardown := serviceName, None, false, false, false, false;
      out := [];
      new;
      CreatedOk(serviceName, options);
    }

    method FireReadyHandler(ghost o: Outcome)
      modifies this
      ensures Abs() == FireReady(old(Abs()), o)
    {
      if onReady {
        onReady := false;
        out := out + [Ready(o)];
      }
    }

    method BeginProbing()
      modifies this
      ensures Abs() == StartProbing(old(Abs()))
    {
      phase, probes := Probing, 0;
      timer := Some(FirstProbe);
      out := out + [Began(name)];
    }

    method SendOneProbe()
      modifies this
      ensures Abs() == SendProbe(old(Abs()), opts)
    {
      if phase != Probing {
        return;
      }
      if stopped {
        return;
      }
      out := out + [Probed(name)];
      probes := (probes + 1) % 256;
      timer := Some(NextProbe(probes < opts.probeCount));
    }

    method SendOneAnnouncement()
      modifies this
      ensures Abs() == SendAnnounce(old(Abs()), opts)
    {
      if phase != Announcing {
        return;
      }
      if stopped {
        return;
      }
      out := out + [Announced(name)];
      announces := (announces + 1) % 256;
      if announces < opts.announceCount {
        timer := Some(NextAnnounce);
      } else {
        phase := Live;
        out := out + [WentLive];
        FireReadyHandler(Success);
      }
    }

    method AsyncStart(ready: bool, done: bool)
      requires Valid() && phase == Idle
      modifies this
      ensures Valid() && Abs() == Step(old(Abs()), Start(ready, done), opts)
    {
      hide Inv, StartProbing;
      StepKeeps(Abs(), Start(ready, done), opts);
      onReady, onDone := ready, done;
      BeginProbing();
    }

    method OnTimer()
      requires Valid()
      modifies this
      ensures Valid() && Abs() == Step(old(Abs()), TimerEvent, opts)
    {
      hide Inv, StartProbing, SendProbe, SendAnnounce, SendUpdate;
      StepKeeps(Abs(), TimerEvent, opts);
      if timer.None? {
        return;
      }
      var action := timer.value;
      timer := None;
      match action
      case FirstProbe => SendOneProbe();
      case NextProbe(more) =>
        if phase != Probing || stopped {
          return;
        }
        if more {
          SendOneProbe();
        } else {
          phase, announces := Announcing, 0;
          SendOneAnnouncement();
        }
      case NextAnnounce => SendOneAnnouncement();
      case Reprobe =>
        if stopped {
          return;
        }
        BeginProbing();
      case NextUpdate => SendUpdateAnnounce();
    }

    method SendUpdateAnnounce()
      modifies this
      ensures Abs() == SendUpdate(old(Abs()), opts)
    {
      if stopped {
        return;
      }
      if phase != Live {
        return;
      }
      out := out + [Reannounced(name)];
      announces := (announces + 1) % 256;
      if announces < opts.announceCount {
        timer := Some(NextUpdate);
      }
    }

    /** The work update_service_info posts; of the new data only the name matters here. */
    method UpdateServiceInfo(newName: Name)
      requires Valid()
      modifies this
      ensures Valid() && Abs() == Step(old(Abs()), UpdateEvent(newName), opts)
    {
      hide Inv, SendUpdate;
      StepKeeps(Abs(), UpdateEvent(newName), opts);
      if stopped {
        return;
      }
      name := newName;
      announces := 0;
      out := out + [Updated(newName)];
      SendUpdateAnnounce();
    }

    /** handle_conflict for a name conflict; `newName` is what on_conflict supplies, if it accepts. */
    method HandleNameConflict(newName: Option<Name>)
      requires Valid()
      modifies this
      ensures Valid() && Abs() == Step(old(Abs()), ConflictEvent(newName), opts)
    {
      hide Inv, StartProbing, FireReady;
      StepKeeps(Abs(), ConflictEvent(newName), opts);
      if stopped || phase != Probing {
        return;
      }
      timer := None;
      if newName.Some? {
        name := newName.value;
        attempts := (attempts + 1) % 256;
        BeginProbing();
        return;
      }
      phase := Stopped;
      stopped := true;
      FireReadyHandler(Conflict);
    }

    method HandleTiebreak()
      requires Valid()
      modifies this
      ensures Valid() && Abs() == Step(old(Abs()), TiebreakEvent, opts)
    {
      hide Inv;
      StepKeeps(Abs(), TiebreakEvent, opts);
      if stopped || phase != Probing {
        return;
      }
      phase, probes := Probing, 0;
      timer := Some(Reprobe);
      out := out + [Yielded];
    }

    method StopCall()
      requires Valid()
      modifies this
      ensures Valid() && Abs() == Step(old(Abs()), StopEvent, opts)
    {
      hide Inv;
      StepKeeps(Abs(), StopEvent, opts);
      if stopped {
        return;
      }
      stopped := true;
      if opts.sendGoodbye && (phase == Live || phase == Announcing) {
        out := out + [Goodbye];
      }
      teardown := true;
    }

    method RunTeardown()
      requires Valid()
      modifies this
      ensures Valid() && Abs() == Step(old(Abs()), TeardownEvent, opts)
    {
      hide Inv, FireReady;
      StepKeeps(Abs(), TeardownEvent, opts);
      if !teardown {
        return;
      }
      teardown := false;
      if phase == Probing || phase == Announcing {
        FireReadyHandler(Canceled);
      }
      phase := Stopped;
      timer := None;
      if onDone {
        onDone := false;
        out := out + [Done];
      }
    }
  }
}
