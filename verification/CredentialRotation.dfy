/** Rotation of a resident's Gateway credential: a durable two-step protocol that
    survives crashes between any two steps. */
module CredentialRotation {
  import opened Options

  type Token = nat
  type RequestId = nat

  /** The durable row, as its own consistency check admits it. */
  datatype Row =
    | Unenrolled  // idle or enrolling
    | Active(active: Token)
    | Rotating(active: Token, pending: Token, request: RequestId, proposed: bool)

  datatype RotationStep = Proposal | Activation

  /** What the outside world and the disk see, in order. */
  datatype Event =
    | Begun(pending: Token, request: RequestId)
    | Posted(step: RotationStep, bearer: Token, request: RequestId)
    | Confirmed
    | Activated

  datatype Mode = Trigger | Resume

  datatype Code =
    | Ready | RotatingNow | Rotated | InvalidState | NetworkError | HttpError
    | InvalidResponse | StateError | Timeout | Stopped

  /** A decoded rotation result. */
  datatype Reply = Reply(sameInstance: bool, credential: Token, previous: Token)

  datatype PostOutcome = Refused(code: Code) | Answered(reply: Reply)

  /** The signal that ends a run early: its deadline, or a call of stop. */
  datatype Abort = NoAbort | Deadline | StopCall

  /** What comes back for a post. */
  datatype Answer = NoNetwork | BadStatus | BadBody | Valid(reply: Reply)

  /** What happens around one post: whether the row can be read, where the run is aborted, what
      is answered, and whether the process dies while waiting or before the answer is recorded. */
  datatype Round = Round(
    unreadable: bool, before: Abort, answer: Answer, during: Abort, after: Abort,
    diesWaiting: bool, diesRecording: bool)

  /** Nothing goes wrong and the answer fits the row. */
  predicate Smooth(round: Round, row: Row)
    requires row.Rotating?
  {
    && !round.unreadable && round.before == NoAbort && round.during == NoAbort && round.after == NoAbort
    && !round.diesWaiting && !round.diesRecording
    && round.answer.Valid? && Matches(round.answer.reply, row)
  }

  predicate Aborted(round: Round) { round.before != NoAbort || round.during != NoAbort || round.after != NoAbort }

  predicate Dies(round: Round) { round.diesWaiting || round.diesRecording }

  /** A round that can end a run of this row with this code. */
  predicate Causes(round: Round, row: Row, code: Code)
    requires row.Rotating?
  {
    match code
    case Stopped => Aborted(round)
    case Timeout => Aborted(round)
    case NetworkError => round.answer == NoNetwork
    case HttpError => round.answer == BadStatus
    case InvalidResponse => round.answer == BadBody || (round.answer.Valid? && !Matches(round.answer.reply, row))
    case StateError => round.unreadable || Dies(round)
    case _ => false
  }

  datatype StoreOutcome = Done | Conflict | WrongState | Lost

  /** Where the protocol stands: the row, and whether the request that leads out of
      it has been posted since it was written. */
  datatype Protocol = Protocol(row: Row, asked: bool)

  /** The protocol, as an automaton over the visible events. */
  function Next(s: Protocol, e: Event): Option<Protocol> {
    match e
    case Begun(p, r) =>
      if s.row.Active? && p != s.row.active then Some(Protocol(Rotating(s.row.active, p, r, false), false)) else None
    case Posted(Proposal, b, r) =>
      if s.row.Rotating? && !s.row.proposed && b == s.row.active && r == s.row.request
      then Some(s.(asked := true)) else None
    case Posted(Activation, b, r) =>
      if s.row.Rotating? && s.row.proposed && b == s.row.pending && r == s.row.request
      then Some(s.(asked := true)) else None
    case Confirmed =>
      if s.row.Rotating? && !s.row.proposed && s.asked then Some(Protocol(s.row.(proposed := true), false)) else None
    case Activated =>
      if s.row.Rotating? && s.row.proposed && s.asked then Some(Protocol(Active(s.row.pending), false)) else None
  }

  function Replay(start: Row, log: seq<Event>): Option<Protocol> {
    if log == [] then Some(Protocol(start, false)) else
    match Replay(start, log[..|log| - 1])
    case None => None
    case Some(s) => Next(s, log[|log| - 1])
  }

  lemma ReplayAppend(start: Row, log: seq<Event>, e: Event)
    ensures Replay(start, log + [e]) == (match Replay(start, log) case None => None case Some(s) => Next(s, e))
  {
    assert (log + [e])[..|log|] == log;
  }

  /** A legal log has only legal prefixes. */
  lemma {:induction false} LegalPrefix(start: Row, log: seq<Event>, k: nat)
    requires Replay(start, log).Some? && k <= |log|
    ensures Replay(start, log[..k]).Some?
  {
    if k < |log| {
      assert log[..|log| - 1][..k] == log[..k];
      LegalPrefix(start, log[..|log| - 1], k);
    } else {
      assert log[..k] == log;
    }
  }

  /** The last credential begun, and where. */
  ghost predicate BegunAt(log: seq<Event>, i: nat, pending: Token, request: RequestId) {
    i < |log| && log[i] == Begun(pending, request) && forall k :: i < k < |log| ==> !log[k].Begun?
  }

  predicate ProposedAt(log: seq<Event>, i: nat, j: nat, active: Token, request: RequestId) {
    i < j < |log| && log[j] == Posted(Proposal, active, request)
  }

  predicate ConfirmedAt(log: seq<Event>, j: nat, l: nat) { j < l < |log| && log[l] == Confirmed }

  /** The row's rotation was begun at `i`; it was proposed with the active token before it
      counts as asked, and that proposal was confirmed before it counts as proposed. */
  ghost predicate Traced(log: seq<Event>, i: nat, s: Protocol)
    requires s.row.Rotating?
  {
    && BegunAt(log, i, s.row.pending, s.row.request)
    && (s.asked || s.row.proposed ==>
          exists j: nat :: ProposedAt(log, i, j, s.row.active, s.row.request) && (s.row.proposed ==> Settled(log, j)))
  }

  predicate Settled(log: seq<Event>, j: nat) { exists l :: 0 <= l < |log| && ConfirmedAt(log, j, l) }

  lemma TraceGrows(log: seq<Event>, i: nat, s: Protocol, e: Event)
    requires s.row.Rotating? && Traced(log, i, s) && Next(s, e).Some? && Next(s, e).value.row.Rotating?
    ensures Traced(log + [e], i, Next(s, e).value)
  {
    var more, t := log + [e], Next(s, e).value;
    assert BegunAt(more, i, t.row.pending, t.row.request);
    if s.asked || s.row.proposed {
      var j: nat :| ProposedAt(log, i, j, s.row.active, s.row.request) && (s.row.proposed ==> Settled(log, j));
      assert ProposedAt(more, i, j, t.row.active, t.row.request);
      if s.row.proposed {
        var l: nat :| l < |log| && ConfirmedAt(log, j, l);
        assert ConfirmedAt(more, j, l);
      } else if t.row.proposed {
        assert ConfirmedAt(more, j, |log|);
      }
    } else if t.asked {
      assert ProposedAt(more, i, |log|, t.row.active, t.row.request);
    }
  }

  /** Whatever is rotating has its trace in the run. */
  lemma {:induction false} RotatingIsTraced(start: Row, log: seq<Event>)
    requires !start.Rotating? && Replay(start, log).Some?
    ensures Replay(start, log).value.row.Rotating? ==> exists i: nat :: Traced(log, i, Replay(start, log).value)
  {
    if log != [] {
      var before, e := log[..|log| - 1], log[|log| - 1];
      RotatingIsTraced(start, before);
      var s, t := Replay(start, before).value, Replay(start, log).value;
      assert before + [e] == log;
      if t.row.Rotating? && s.row.Rotating? {
        var i: nat :| Traced(before, i, s);
        TraceGrows(before, i, s, e);
      } else if t.row.Rotating? {
        assert Traced(log, |before|, t);
      }
    }
  }

  /** Over every run, an activation carries the last credential begun, and comes after the
      proposal of the same request and after that proposal was durably confirmed. */
  lemma ActivationFollowsProposal(start: Row, log: seq<Event>, k: nat)
    requires !start.Rotating? && Replay(start, log).Some? && k < |log|
    requires log[k].Posted? && log[k].step == Activation
    ensures exists i: nat, j: nat, active ::
              BegunAt(log[..k], i, log[k].bearer, log[k].request)
              && ProposedAt(log[..k], i, j, active, log[k].request) && active != log[k].bearer && Settled(log[..k], j)
  {
    LegalPrefix(start, log, k);
    LegalPrefix(start, log, k + 1);
    assert log[..k + 1][..k] == log[..k];
    RotatingIsTraced(start, log[..k]);
    TokensDiffer(start, log[..k]);
    var s := Replay(start, log[..k]).value;
    var i: nat :| Traced(log[..k], i, s);
    var j: nat :| ProposedAt(log[..k], i, j, s.row.active, s.row.request) && Settled(log[..k], j);
    assert BegunAt(log[..k], i, log[k].bearer, log[k].request);
  }

  /** The pending token is never the active one. */
  lemma {:induction false} TokensDiffer(start: Row, log: seq<Event>)
    requires !start.Rotating? && Replay(start, log).Some?
    ensures var row := Replay(start, log).value.row; row.Rotating? ==> row.pending != row.active
  {
    if log != [] { TokensDiffer(start, log[..|log| - 1]); }
  }

  /** The resident's durable state, shared by every controller that ever runs. */
  class Store {
    ghost const start: Row
    var row: Row
    ghost var log: seq<Event>
    var nextSecret: nat
    var crashed: bool

    ghost predicate Valid()
      reads this
    {
      && Replay(start, log).Some? && Replay(start, log).value.row == row
      && (row.Active? ==> row.active < nextSecret)
      && (row.Rotating? ==> row.active < nextSecret && row.pending < nextSecret)
    }

    ghost predicate Asked()
      reads this
      requires Valid()
    {
      Replay(start, log).value.asked
    }

    constructor (row: Row, nextSecret: nat)
      requires row.Active? ==> row.active < nextSecret
      requires row.Rotating? ==> row.active < nextSecret && row.pending < nextSecret
      ensures Valid() && this.row == row && this.start == row && !crashed
    {
      this.row, this.start, this.nextSecret, crashed, log := row, row, nextSecret, false, [];
    }

    /** Appends one visible event together with its durable effect. */
    method Record(e: Event, after: Row)
      requires Valid() && Next(Replay(start, log).value, e).Some?
                && Next(Replay(start, log).value, e).value.row == after
      requires after.Active? ==> after.active < nextSecret
      requires after.Rotating? ==> after.active < nextSecret && after.pending < nextSecret
      modifies this`row, this`log
      ensures Valid() && row == after && log == old(log) + [e]
      ensures Replay(start, log) == Next(Replay(start, old(log)).value, e)
    {
      ReplayAppend(start, log, e);
      row, log := after, log + [e];
    }

    /** `dies` is the process dying before the durable write. */
    method BeginRotation(dies: bool) returns (r: StoreOutcome)
      requires Valid() && !crashed
      modifies this
      ensures Valid()
      ensures old(row).Active? && !dies ==>
                && r == Done && row == Rotating(old(row).active, old(nextSecret), old(nextSecret) + 1, false)
                && log == old(log) + [Begun(row.pending, row.request)]
      ensures !old(row).Active? || dies ==> row == old(row) && log == old(log)
      ensures r == if old(row).Rotating? then Done else if old(row).Unenrolled? then WrongState
                   else if dies then Lost else Done
      ensures crashed <==> r == Lost
    {
      if row.Rotating? { return Done; }
      if !row.Active? { return WrongState; }
      var token, request := nextSecret, nextSecret + 1;
      nextSecret := nextSecret + 2;
      if dies {
        crashed := true;
        return Lost;
      }
      Record(Begun(token, request), Rotating(row.active, token, request, false));
      return Done;
    }

    method MarkProposed(reply: Reply, dies: bool) returns (r: StoreOutcome)
      requires Valid() && !crashed && row.Rotating? && (!row.proposed ==> Asked())
      modifies this`row, this`log, this`crashed
      ensures Valid() && (log == old(log) || log == old(log) + [Confirmed])
      ensures r == if !Matches(reply, old(row)) then Conflict else if dies && !old(row).proposed then Lost else Done
      ensures row == if r == Done then old(row).(proposed := true) else old(row)
      ensures crashed <==> r == Lost
    {
      if !Matches(reply, row) { return Conflict; }
      if row.proposed { return Done; }
      if dies {
        crashed := true;
        return Lost;
      }
      Record(Confirmed, row.(proposed := true));
      return Done;
    }

    method ActivateRotation(reply: Reply, dies: bool) returns (r: StoreOutcome)
      requires Valid() && !crashed && row.Rotating? && Asked()
      modifies this`row, this`log, this`crashed
      ensures Valid() && (log == old(log) || log == old(log) + [Activated])
      ensures r == if !old(row).proposed then WrongState else if !Matches(reply, old(row)) then Conflict
                   else if dies then Lost else Done
      ensures row == if r == Done then Active(old(row).pending) else old(row)
      ensures crashed <==> r == Lost
    {
      if !row.proposed { return WrongState; }
      if !Matches(reply, row) { return Conflict; }
      if dies {
        crashed := true;
        return Lost;
      }
      Record(Activated, Active(row.pending));
      return Done;
    }
  }

  predicate Matches(reply: Reply, row: Row)
    requires row.Rotating?
  {
    reply.sameInstance && reply.credential == row.pending && reply.previous == row.active
  }

  function Posts(log: seq<Event>): nat {
    if log == [] then 0 else Posts(log[..|log| - 1]) + if log[|log| - 1].Posted? then 1 else 0
  }

  lemma PostsAppend(log: seq<Event>, e: Event)
    ensures Posts(log + [e]) == Posts(log) + if e.Posted? then 1 else 0
  {
    assert (log + [e])[..|log|] == log;
  }

  /** A one-shot controller over the store. */
  class Controller {
    const store: Store
    var current: Code
    var started: bool
    var stopRequested: bool

    constructor (store: Store)
      ensures this.store == store && current == Ready && !started && !stopRequested
    {
      this.store, current, started, stopRequested := store, Ready, false, false;
    }

    /** The status of a run that was aborted, by a stop or by its deadline. */
    method Cut(abort: Abort) returns (code: Code)
      requires abort != NoAbort
      modifies this`stopRequested
      ensures stopRequested <==> old(stopRequested) || abort == StopCall
      ensures code == if stopRequested then Stopped else Timeout
    {
      if abort == StopCall { stopRequested := true; }
      return if stopRequested then Stopped else Timeout;
    }

    /** Sends the request the row calls for and waits for an answer. */
    method Post(round: Round) returns (step: RotationStep, r: PostOutcome)
      requires store.Valid() && !store.crashed && store.row.Rotating?
      modifies store`log, store`row, store`crashed, this`stopRequested
      ensures store.Valid() && store.row == old(store.row) && store.Asked()
      ensures step == if store.row.proposed then Activation else Proposal
      ensures var bearer := if store.row.proposed then store.row.pending else store.row.active;
              store.log == old(store.log) + [Posted(step, bearer, store.row.request)]
      ensures (store.crashed <==> round.diesWaiting) && (store.crashed ==> r.Refused?)
      ensures r.Refused? ==> Causes(round, store.row, r.code)
      ensures r.Answered? ==> round.answer == Valid(r.reply)
      ensures round.answer.Valid? && round.during == NoAbort && !round.diesWaiting ==> r.Answered?
      ensures old(stopRequested) ==> stopRequested
      ensures stopRequested != old(stopRequested) ==> r == Refused(Stopped)
      ensures r == Refused(Stopped) ==> stopRequested
      ensures r == Refused(Timeout) ==> !stopRequested
    {
      step := if store.row.proposed then Activation else Proposal;
      var bearer := if step == Proposal then store.row.active else store.row.pending;
      store.Record(Posted(step, bearer, store.row.request), store.row);
      if round.diesWaiting {
        store.crashed := true;
        r := Refused(StateError);
      } else if round.during != NoAbort {
        var code := Cut(round.during);
        r := Refused(code);
      } else {
        match round.answer
        case NoNetwork => r := Refused(NetworkError);
        case BadStatus => r := Refused(HttpError);
        case BadBody => r := Refused(InvalidResponse);
        case Valid(reply) => r := Answered(reply);
      }
    }

    /** Applies one answer; None means the loop goes on with the activation. */
    method Apply(step: RotationStep, reply: Reply, dies: bool) returns (code: Option<Code>)
      requires store.Valid() && !store.crashed && store.row.Rotating? && store.Asked()
      requires step == if store.row.proposed then Activation else Proposal
      modifies store`log, store`row, store`crashed
      ensures store.Valid() && Posts(store.log) == Posts(old(store.log))
      ensures code == if !Matches(reply, old(store.row)) then Some(InvalidResponse)
                      else if dies then Some(StateError)
                      else if step == Proposal then None else Some(Rotated)
      ensures code == None ==> store.row == old(store.row).(proposed := true)
      ensures code == Some(Rotated) ==> store.row == Active(old(store.row).pending)
      ensures code.Some? && code != Some(Rotated) ==> store.row == old(store.row)
      ensures store.crashed <==> code == Some(StateError)
    {
      PostsAppend(store.log, Confirmed);
      PostsAppend(store.log, Activated);
      var o: StoreOutcome;
      if step == Proposal {
        o := store.MarkProposed(reply, dies);
        if o == Done { return None; }
      } else {
        o := store.ActivateRotation(reply, dies);
        if o == Done { return Some(Rotated); }
      }
      return Some(if o == Conflict then InvalidResponse else StateError);
    }

    /** One turn of the loop; None means that it goes on. */
    method Turn(round: Round) returns (code: Option<Code>)
      requires store.Valid() && !store.crashed && store.row.Rotating?
      modifies store`log, store`row, store`crashed, this`stopRequested
      ensures store.Valid() && Posts(old(store.log)) <= Posts(store.log) <= Posts(old(store.log)) + 1
      ensures code == None ==>
                !store.crashed && !old(store.row).proposed && store.row == old(store.row).(proposed := true)
      ensures code == None ==> stopRequested == old(stopRequested)
      ensures code == Some(Rotated) ==> old(store.row).proposed && store.row == Active(old(store.row).pending)
      ensures code.Some? && code != Some(Rotated) ==>
                store.row == old(store.row) && Causes(round, old(store.row), code.value)
      ensures Smooth(round, old(store.row)) ==>
                && Posts(store.log) == Posts(old(store.log)) + 1
                && code == (if old(store.row).proposed then Some(Rotated) else None)
      ensures code == Some(Stopped) ==> stopRequested
      ensures code == Some(Timeout) ==> !stopRequested
      ensures store.crashed ==> Dies(round)
    {
      if round.before != NoAbort {
        var cut := Cut(round.before);
        return Some(cut);
      }
      if round.unreadable { return Some(StateError); }
      ghost var row := store.row;
      var step, r := Post(round);
      PostsAppend(old(store.log), store.log[|old(store.log)|]);
      if r.Refused? { return Some(r.code); }
      if round.after != NoAbort {
        var cut := Cut(round.after);
        return Some(cut);
      }
      code := Apply(step, r.reply, round.diesRecording);
    }

    /** The loop. When nothing goes wrong the rotation completes, with a proposal and an
        activation, or with the activation alone if the proposal was durable already. Otherwise
        one of the rounds is the cause, the row keeps its rotation, and a durable proposal is
        kept too. At most two posts are made. */
    method Rotate(rounds: seq<Round>) returns (code: Code)
      requires store.Valid() && !store.crashed && store.row.Rotating? && |rounds| == 2
      modifies store`log, store`row, store`crashed, this`stopRequested
      ensures store.Valid() && Posts(old(store.log)) <= Posts(store.log) <= Posts(old(store.log)) + 2
      ensures AllSmooth(rounds, old(store.row)) ==>
                && code == Rotated
                && Posts(store.log) == Posts(old(store.log)) + (if old(store.row).proposed then 1 else 2)
      ensures code == Rotated ==> store.row == Active(old(store.row).pending)
      ensures code != Rotated ==> store.row == old(store.row) || store.row == old(store.row).(proposed := true)
      ensures code != Rotated ==> exists round <- rounds :: Causes(round, old(store.row), code)
      ensures code == Stopped ==> stopRequested
      ensures code == Timeout ==> !stopRequested
      ensures store.crashed ==> exists round <- rounds :: Dies(round)
    {
      var k := 0;
      while true
        invariant store.Valid() && !store.crashed && store.row.Rotating? && 0 <= k <= 1
        invariant k == 0 ==> store.row == old(store.row)
        invariant k == 1 ==> store.row == old(store.row).(proposed := true) && !old(store.row).proposed
        invariant Posts(old(store.log)) <= Posts(store.log) <= Posts(old(store.log)) + k
        invariant AllSmooth(rounds, old(store.row)) ==> Posts(store.log) == Posts(old(store.log)) + k
        decreases 1 - k
      {
        assert rounds[k] in rounds;
        var done := Turn(rounds[k]);
        if done.Some? { return done.value; }
        k := k + 1;
      }
    }

    /** Starts the one attempt of this controller. */
    method Start(mode: Mode, unreadable: bool, dies: bool, rounds: seq<Round>) returns (code: Code)
      requires store.Valid() && !store.crashed && |rounds| == 2
      modifies this, store
      ensures store.Valid() && started && code == current
      ensures Posts(store.log) <= Posts(old(store.log)) + 2
      ensures old(started) ==> store.log == old(store.log) && store.row == old(store.row) && code == old(current)
      ensures mode == Trigger && !old(store.row).Active? ==> store.row == old(store.row) && store.log == old(store.log)
      ensures mode == Resume && !old(store.row).Rotating? ==> store.row == old(store.row) && store.log == old(store.log)
      ensures !old(started) && old(stopRequested) ==> code == Stopped && store.log == old(store.log)
      ensures !old(started) && !old(stopRequested) && !unreadable && !Suits(mode, old(store.row)) ==>
                code == InvalidState
      ensures !old(started) && !old(stopRequested) && !unreadable && !dies && Suits(mode, old(store.row)) ==>
                var row := Rotation(old(store.row), old(store.nextSecret));
                && (AllSmooth(rounds, row) ==> code == Rotated)
                && (code == Rotated ==> store.row == Active(row.pending))
                && (code != Rotated ==> exists round <- rounds :: Causes(round, row, code))
    {
      if started { return current; }
      started := true;
      if stopRequested {
        current := Stopped;
        return current;
      }
      if unreadable {
        current := StateError;
        return current;
      }
      if !Suits(mode, store.row) {
        current := InvalidState;
        return current;
      }
      if mode == Trigger {
        var o := Begin(dies);
        if o != Done {
          current := StateError;
          return current;
        }
      }
      current := RotatingNow;
      current := Rotate(rounds);
      return current;
    }

    method Begin(dies: bool) returns (o: StoreOutcome)
      requires store.Valid() && !store.crashed && store.row.Active?
      modifies store
      ensures store.Valid() && Posts(store.log) == Posts(old(store.log)) && (store.crashed <==> dies)
      ensures o == if dies then Lost else Done
      ensures store.row == if dies then old(store.row) else Rotation(old(store.row), old(store.nextSecret))
    {
      o := store.BeginRotation(dies);
      if o == Done {
        PostsAppend(old(store.log), Begun(store.row.pending, store.row.request));
      }
    }
  }

  /** A trigger starts from the active phase, and a resume from the rotating one. */
  predicate Suits(mode: Mode, row: Row) {
    match mode case Trigger => row.Active? case Resume => row.Rotating?
  }

  /** The rotation that a run of this row works on. */
  function Rotation(row: Row, nextSecret: nat): (r: Row)
    requires !row.Unenrolled?
    ensures r.Rotating?
  {
    if row.Active? then Rotating(row.active, nextSecret, nextSecret + 1, false) else row
  }

  predicate AllSmooth(rounds: seq<Round>, row: Row)
    requires row.Rotating?
  {
    forall round <- rounds :: Smooth(round, row)
  }

  /** Any sequence of triggers, resumes, stops and crashes keeps to the protocol. */
  method Lifetime(store: Store, launches: nat)
    requires store.Valid()
    modifies store
    ensures store.Valid()
    ensures Posts(store.log) <= Posts(old(store.log)) + 2 * launches
  {
    for k := 0 to launches
      invariant store.Valid() && Posts(store.log) <= Posts(old(store.log)) + 2 * k
    {
      store.crashed := false;  // a new process
      var controller := new Controller(store);
      var mode: Mode, stop: bool, unreadable: bool, dies: bool := *, *, *, *;
      var first: Round, second: Round := *, *;
      controller.stopRequested := stop;
      var _ := controller.Start(mode, unreadable, dies, [first, second]);
    }
  }

  /** Two smooth rounds carry any enrolled row that suits the mode to its new credential. */
  method RotationCompletes(store: Store, mode: Mode, round: Round) returns (code: Code)
    requires store.Valid() && !store.crashed && Suits(mode, store.row)
    requires Smooth(round, Rotation(store.row, store.nextSecret))
    modifies store
    ensures code == Rotated && store.row == Active(Rotation(old(store.row), old(store.nextSecret)).pending)
  {
    var controller := new Controller(store);
    code := controller.Start(mode, false, false, [round, round]);
  }
}
