/** The process-lifetime surface over one-shot rotation controllers: single flight
    under factories and controllers that call back before they return. */
module RotationRuntime {
  import opened CredentialRotation
  import opened Options

  /** One published attempt. */
  datatype Attempt = Attempt(settlements: nat, result: Option<Code>, cut: bool)  // cut: ended by stop

  /** A controller obtained from the factory for an attempt, and how it was started. */
  datatype Ctl = Ctl(attempt: nat, stops: nat, run: Option<Mode>)

  /** How the birth of a controller goes. */
  datatype Birth = FactoryThrows | InvalidController | StartThrows | Works

  /** What a caller of trigger gets: an attempt to wait for, or an immediate status. */
  datatype Ticket = Join(attempt: nat) | Immediate(code: Code)

  datatype Phase = PhaseActive | PhaseRotating | PhaseOther | PhaseUnreadable

  predicate Unsettled(a: Attempt) { a.settlements == 0 }

  predicate SameController(before: Ctl, after: Ctl) {
    before.attempt == after.attempt && before.stops <= after.stops && before.run == after.run
  }

  /** A controller is stopped at most once, and surely if its attempt was cut; an
      unsettled attempt has only the current controller. */
  predicate CtlOk(c: Ctl, attempts: seq<Attempt>, isCurrent: bool) {
    && c.attempt < |attempts| && c.stops <= 1
    && (attempts[c.attempt].cut ==> c.stops == 1)
    && (Unsettled(attempts[c.attempt]) ==> isCurrent)
  }

  class Runtime {
    var current: Code
    var attempt: Option<nat>        // also the attempt #finishAttempt would settle
    var controller: Option<nat>
    var controllerStopped: bool
    var stopped: bool
    var attempts: seq<Attempt>
    var controllers: seq<Ctl>
    var promised: set<nat>          // attempts whose controller promise is still open
    var budget: nat

    /** At most one attempt is unsettled, and it is the published one. */
    ghost predicate SingleFlight()
      reads this
    {
      && (forall k :: 0 <= k < |attempts| ==> attempts[k].settlements <= 1)
      && (forall k :: 0 <= k < |attempts| ==> (attempts[k].settlements == 1 <==> attempts[k].result.Some?))
      && (forall k :: 0 <= k < |attempts| && attempts[k].cut ==> stopped && attempts[k].settlements == 1)
      && (forall k :: 0 <= k < |attempts| && Unsettled(attempts[k]) ==> attempt == Some(k))
      && (attempt.Some? ==> attempt.value < |attempts| && Unsettled(attempts[attempt.value]))
    }

    ghost predicate ControllersOk()
      reads this
    {
      && (forall c :: 0 <= c < |controllers| ==> CtlOk(controllers[c], attempts, controller == Some(c)))
      && (controller.Some? ==>
            && controller.value < |controllers|
            && (controllerStopped <==> controllers[controller.value].stops == 1)
            && (if stopped then controllerStopped else attempt == Some(controllers[controller.value].attempt)))
    }

    ghost predicate Inv()
      reads this
    {
      && SingleFlight() && ControllersOk()
      && (stopped ==> current == Stopped)
      && (forall p :: p in promised ==> p < |attempts|)
      && (forall p :: p in promised && !stopped ==>
            attempt == Some(p) && controller.Some? && controllers[controller.value].attempt == p)
    }

    /** Between calls: an open attempt has an open promise, and stop leaves none open. */
    ghost predicate Quiescent()
      reads this
    {
      Inv() && (attempt.Some? ==> !stopped && attempt.value in promised)
    }

    /** Re-entrant calls can join the attempt or stop the runtime, and nothing else. */
    twostate predicate Joined()
      reads this
    {
      && |attempts| == |old(attempts)| && |controllers| == |old(controllers)| && promised == old(promised)
      && (old(stopped) ==> stopped) && budget <= old(budget)
      && (!old(stopped) && stopped ==> attempt == None)
      && (!old(stopped) && stopped && old(attempt).Some? && old(attempt).value < |attempts| ==>
            attempts[old(attempt).value].result == Some(Stopped))
      && (old(stopped) ==> attempt == old(attempt) && attempts == old(attempts) && controllers == old(controllers))
      && (controller == old(controller) || controller == None)
      && (!stopped ==> current == old(current) && attempt == old(attempt) && controller == old(controller)
                       && controllerStopped == old(controllerStopped) && attempts == old(attempts)
                       && controllers == old(controllers))
      && (forall c :: 0 <= c < |controllers| ==>
            SameController(old(controllers)[c], controllers[c])
            && (old(controller) == Some(c) || controllers[c] == old(controllers)[c]))
      && (forall k :: 0 <= k < |attempts| ==> Unsettled(old(attempts)[k]) || attempts[k] == old(attempts)[k])
    }

    constructor (budget: nat)
      ensures Quiescent() && !stopped && current == Ready && attempts == []
    {
      current, attempt, controller, controllerStopped, stopped := Ready, None, None, false, false;
      attempts, controllers, promised := [], [], {};
      this.budget := budget;
    }

    /** Injected code runs: the factory, a controller's start, or a controller's stop. */
    method Reenter()
      requires Inv() && (attempt.Some? || stopped)
      modifies this
      ensures Inv() && Joined()
      decreases budget, 0
    {
      if budget == 0 { return; }
      var more: bool, stop: bool := *, *;
      if !more { return; }
      budget := budget - 1;
      if stop {
        Stop();
      } else {
        var ticket := JoinOrRefuse();
      }
      Reenter();
    }

    /** trigger() while an attempt is open or the runtime is stopped. */
    method JoinOrRefuse() returns (t: Ticket)
      requires attempt.Some? || stopped
      ensures stopped ==> t == Immediate(Stopped)
      ensures !stopped ==> t == Join(attempt.value)
    {
      if stopped { return Immediate(Stopped); }
      return Join(attempt.value);
    }

    /** Settles attempt `a` unless it already is. */
    method Finish(a: nat, code: Code, cut: bool)
      requires Inv() && a < |attempts| && (cut ==> stopped) && (!stopped ==> a !in promised)
      requires cut ==> forall c :: 0 <= c < |controllers| && controllers[c].attempt == a ==> controllers[c].stops == 1
      modifies this
      ensures Inv() && |attempts| == |old(attempts)| && !Unsettled(attempts[a]) && attempt != Some(a)
      ensures stopped == old(stopped) && controllers == old(controllers) && budget == old(budget)
                && promised == old(promised)
      ensures forall k :: 0 <= k < |attempts| && k != a ==> attempts[k] == old(attempts)[k]
      ensures controller == old(controller) || controller == None
      ensures Unsettled(old(attempts)[a]) ==> attempts[a] == Attempt(1, Some(if stopped then Stopped else code), cut)
      ensures Unsettled(old(attempts)[a]) ==> attempts[a].result == Some(current)
      ensures old(attempts)[a].settlements == 1 ==> unchanged(this)
    {
      if attempts[a].settlements > 0 { return; }
      current := if stopped then Stopped else code;
      attempts := attempts[a := Attempt(1, Some(current), cut)];
      if attempt == Some(a) {
        attempt, controller, controllerStopped := None, None, false;
      }
    }

    /** Fences the runtime, stops its controller, then settles the open attempt. */
    method Stop()
      requires Inv()
      modifies this
      ensures Inv() && Joined() && stopped
      ensures old(stopped) ==> unchanged(this)
      ensures !old(stopped) ==> attempt == None
      ensures !old(stopped) && old(attempt).Some? ==> attempts[old(attempt).value] == Attempt(1, Some(Stopped), true)
      decreases budget, 2
    {
      if stopped { return; }
      Fence();
      Reenter();  // the controller's stop, if there is one
      if attempt.Some? { Finish(attempt.value, Stopped, true); }
    }

    method Fence()
      requires Inv() && !stopped
      modifies this`stopped, this`current, this`controllers, this`controllerStopped
      ensures Inv() && stopped && |controllers| == |old(controllers)|
      ensures forall c :: 0 <= c < |controllers| ==>
                SameController(old(controllers)[c], controllers[c])
                && (controller == Some(c) || controllers[c] == old(controllers)[c])
    {
      stopped, current := true, Stopped;
      if controller.Some? && !controllerStopped { CountStop(); }
    }

    /** Marks the current controller as stopped, exactly once. */
    method CountStop()
      requires controller.Some? && controller.value < |controllers| && !controllerStopped
                && controllers[controller.value].stops == 0
      modifies this`controllers, this`controllerStopped
      ensures controllerStopped
      ensures controllers == old(controllers)[controller.value := old(controllers)[controller.value].(stops := 1)]
    {
      controllerStopped := true;
      var c := controller.value;
      controllers := controllers[c := controllers[c].(stops := controllers[c].stops + 1)];
    }

    method StopCurrentController()
      requires Inv() && (attempt.Some? || stopped)
      modifies this
      ensures Inv() && |attempts| == |old(attempts)| && |controllers| == |old(controllers)| && promised == old(promised)
      ensures budget <= old(budget) && (old(stopped) ==> stopped)
      ensures !stopped ==> attempt == old(attempt) && attempts == old(attempts)
      ensures attempt.Some? || stopped
      ensures !old(stopped) && stopped ==> attempt == None
      ensures !old(stopped) && stopped && old(attempt).Some? ==> attempts[old(attempt).value].result == Some(Stopped)
      ensures forall c :: 0 <= c < |controllers| ==> old(controller) == Some(c) || controllers[c] == old(controllers)[c]
      ensures old(stopped) && old(controllerStopped || controller == None) ==> unchanged(this)
      ensures old(controller).Some? ==> controllers[old(controller).value].stops == 1
      ensures forall k :: 0 <= k < |attempts| ==> Unsettled(old(attempts)[k]) || attempts[k] == old(attempts)[k]
      decreases budget, 2
    {
      if controller == None || controllerStopped { return; }
      CountStop();
      Reenter();
    }

    /** Publishes an attempt before any injected code runs. */
    method Publish() returns (a: nat)
      requires Quiescent() && !stopped && attempt == None
      modifies this`attempts, this`attempt
      ensures Inv() && a == |old(attempts)| && attempts == old(attempts) + [Attempt(0, None, false)]
                && attempt == Some(a)
    {
      a := |attempts|;
      attempts := attempts + [Attempt(0, None, false)];
      attempt := Some(a);
    }

    /** Takes the factory's controller; one obtained during a stop is stopped at once. */
    method Adopt(a: nat)
      requires Inv() && a < |attempts| && a !in promised
      requires controller == None && (!stopped ==> attempt == Some(a))
      requires forall c :: 0 <= c < |controllers| ==> controllers[c].attempt != a
      modifies this`controllers, this`controller, this`controllerStopped
      ensures Inv() && |controllers| == |old(controllers)| + 1
      ensures controller == Some(|old(controllers)|)
      ensures controllers == old(controllers) + [Ctl(a, if stopped then 1 else 0, None)]
      ensures !stopped ==> !controllerStopped
    {
      assert forall c :: 0 <= c < |controllers| ==> CtlOk(controllers[c], attempts, false);
      controllers := controllers + [Ctl(a, if stopped then 1 else 0, None)];
      controller, controllerStopped := Some(|controllers| - 1), stopped;
    }

    /** A synchronous failure of the factory or of the controller's start. */
    method Abandon(a: nat)
      requires Inv() && a < |attempts| && (attempt.Some? || stopped) && (attempt.Some? ==> attempt == Some(a))
      requires Unsettled(attempts[a]) ==> attempt == Some(a)
      requires !stopped ==> promised == {}
      modifies this
      ensures Inv() && |attempts| == |old(attempts)| && promised == old(promised) && budget <= old(budget)
      ensures !Unsettled(attempts[a]) && attempt == None && (old(stopped) ==> stopped)
      ensures Unsettled(old(attempts)[a]) ==> attempts[a].result == Some(if stopped then Stopped else StateError)
      ensures !Unsettled(old(attempts)[a]) ==> attempts[a] == old(attempts)[a]
      ensures !stopped && Unsettled(old(attempts)[a]) ==> current == StateError
      decreases budget, 3
    {
      StopCurrentController();
      Finish(a, StateError, false);
    }

    /** Runs the controller that was adopted for attempt `a`, as the mode says. */
    method Begin(a: nat, mode: Mode, threw: bool)
      requires Inv() && !stopped && attempt == Some(a) && promised == {} && controller.Some?
      requires controllers[controller.value] == Ctl(a, 0, None) && !controllerStopped
      modifies this
      ensures Quiescent() && |attempts| == |old(attempts)|
      ensures stopped ==> attempts[a].result == Some(Stopped) && attempt == None
      ensures !stopped && threw ==> attempts[a].result == Some(StateError) && attempt == None && current == StateError
      ensures !stopped && !threw ==> Running(a, mode)
      decreases budget, 4
    {
      current := RotatingNow;
      MarkRun(mode);
      Reenter();  // trigger() or resume()
      if threw {
        Abandon(a);
      } else {
        promised := promised + {a};
      }
    }

    /** Attempt `a` is open and its controller was started in this mode. */
    ghost predicate Running(a: nat, mode: Mode)
      reads this
    {
      && attempt == Some(a) && a in promised && current == RotatingNow
      && controller.Some? && controller.value < |controllers| && controllers[controller.value] == Ctl(a, 0, Some(mode))
    }

    method MarkRun(mode: Mode)
      requires Inv() && controller.Some? && !stopped
      modifies this`controllers
      ensures var c := controller.value;
              Inv() && controllers == old(controllers)[c := old(controllers)[c].(run := Some(mode))]
    {
      var c := controller.value;
      assert CtlOk(controllers[c], attempts, true);
      controllers := controllers[c := controllers[c].(run := Some(mode))];
    }

    /** Launches one controller for a freshly published attempt. Unless a stop comes in, the
        controller runs in the given mode, or its birth failed and so did the attempt. */
    method Launch(mode: Mode, birth: Birth) returns (t: Ticket)
      requires Quiescent() && !stopped && attempt == None
      modifies this
      ensures Quiescent() && t == Join(|old(attempts)|) && |attempts| == |old(attempts)| + 1
      ensures stopped ==> attempts[|old(attempts)|].result == Some(Stopped) && attempt == None
      ensures !stopped && birth == Works ==> Running(|old(attempts)|, mode)
      ensures !stopped && birth != Works ==>
                attempts[|old(attempts)|].result == Some(StateError) && attempt == None && current == StateError
      decreases budget, 5
    {
      var a := Publish();
      Reenter();  // the factory
      t := Join(a);
      if birth == FactoryThrows {
        Abandon(a);
        return;
      }
      Adopt(a);
      if stopped {
        Reenter();  // the controller's stop
      } else if birth == InvalidController {
        Abandon(a);
      } else {
        Begin(a, mode, birth == StartThrows);
      }
    }

    /** Joins the open attempt, or starts one if the durable phase allows it. */
    method Trigger(phase: Phase, birth: Birth) returns (t: Ticket)
      requires Quiescent()
      modifies this
      ensures Quiescent()
      ensures old(stopped) ==> t == Immediate(Stopped) && unchanged(this)
      ensures !old(stopped) && old(attempt).Some? ==> t == Join(old(attempt).value) && unchanged(this)
      ensures !old(stopped) && old(attempt) == None && phase !in {PhaseActive, PhaseRotating} ==>
                t == Immediate(current) && attempts == old(attempts) && !stopped
                && current == if phase == PhaseUnreadable then StateError else InvalidState
      ensures !old(stopped) && old(attempt) == None && phase in {PhaseActive, PhaseRotating} ==>
                && t == Join(|old(attempts)|) && |attempts| == |old(attempts)| + 1
                && (birth == Works && !stopped ==>
                      Running(|old(attempts)|, if phase == PhaseActive then Mode.Trigger else Mode.Resume))
      decreases budget, 6
    {
      if stopped || attempt.Some? {
        t := JoinOrRefuse();
        return;
      }
      match phase
      case PhaseUnreadable =>
        current := StateError;
        t := Immediate(StateError);
      case PhaseOther =>
        current := InvalidState;
        t := Immediate(InvalidState);
      case PhaseActive =>
        t := Launch(Mode.Trigger, birth);
      case PhaseRotating =>
        t := Launch(Mode.Resume, birth);
    }

    /** At startup: replays a rotation only when one is durably under way. */
    method ResumeDurableRotation(phase: Phase, birth: Birth)
      requires Quiescent()
      modifies this
      ensures Quiescent()
      ensures old(stopped) || old(attempt).Some? || phase in {PhaseActive, PhaseOther} ==> unchanged(this)
      ensures !old(stopped) && old(attempt) == None && phase == PhaseUnreadable ==>
                current == StateError && attempts == old(attempts)
      ensures !old(stopped) && old(attempt) == None && phase == PhaseRotating ==>
                && |attempts| == |old(attempts)| + 1
                && (birth == Works && !stopped ==> Running(|old(attempts)|, Mode.Resume))
    {
      if stopped || attempt.Some? { return; }
      if phase == PhaseUnreadable {
        current := StateError;
      } else if phase == PhaseRotating {
        var _ := Launch(Mode.Resume, birth);
      }
    }

    /** The promise of an attempt's controller settles, perhaps long after a stop. */
    method PromiseSettles(a: nat, fulfilled: bool, code: Code)
      requires Quiescent() && a in promised
      modifies this
      ensures Quiescent() && |attempts| == |old(attempts)| && !Unsettled(attempts[a]) && (old(stopped) ==> stopped)
      ensures old(attempts)[a].settlements == 1 ==>
                attempts == old(attempts) && controllers == old(controllers) && current == old(current)
      ensures |controllers| == |old(controllers)|
      ensures forall c :: 0 <= c < |controllers| && old(controllers)[c].attempt != a ==>
                controllers[c] == old(controllers)[c]
      ensures !old(stopped) && !stopped ==> attempts[a].result == Some(if fulfilled then code else StateError)
      ensures !old(stopped) && !fulfilled ==> old(controller).Some? && controllers[old(controller).value].stops == 1
    {
      promised := promised - {a};
      if !fulfilled { StopCurrentController(); }
      Finish(a, if fulfilled then code else StateError, false);
    }

    /** Any run: one unsettled attempt at most, each settled once, and stopped for good. */
    method Run(events: nat)
      requires Quiescent()
      modifies this
      ensures Quiescent()
      ensures old(stopped) ==>
                stopped && current == Stopped && attempts == old(attempts) && controllers == old(controllers)
    {
      for k := 0 to events
        invariant Quiescent()
        invariant old(stopped) ==> stopped && attempts == old(attempts) && controllers == old(controllers)
      {
        var which: int, a: nat, code: Code, phase: Phase := *, *, *, *;
        var calls: nat, fulfilled: bool, birth: Birth := *, *, *;
        budget := calls;
        if which == 0 {
          Stop();
        } else if which == 1 {
          ResumeDurableRotation(phase, birth);
        } else if a in promised {
          PromiseSettles(a, fulfilled, code);
        } else {
          var _ := Trigger(phase, birth);
        }
      }
    }
  }
}
