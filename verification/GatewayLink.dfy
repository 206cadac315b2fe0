/** The reconnecting outbound link of a resident: one live attempt at a time,
    a handshake timer, a retry timer, generation fencing, and a writer that stays
    in order when injected code calls back synchronously. */
module GatewayLink {
  import opened GatewayBackoff
  import opened Options

  const QUEUE_LIMIT: nat := 128

  datatype LinkState =
    | Idle | NotConfigured | WaitingForEnrollment | ConfigurationError
    | Connecting | Handshaking | Ready | Backoff | Faulted | Stopped

  datatype Status = Status(state: LinkState, failures: nat)

  /** How an attempt ended. */
  datatype Fate = Pending | Failed

  /** One serialized resident frame; sequence number 1 is the hello. */
  datatype Frame = Frame(seqNo: nat, payload: string)

  datatype Attempt = Attempt(
    generation: nat,
    timer: Option<nat>,
    hasOpened: bool,
    greeted: bool,        // the hello was handed to the transport
    ready: bool,
    fate: Fate,
    writing: bool,
    queue: seq<Frame>,
    created: seq<Frame>,  // what the session has numbered and encoded after the hello
    sent: seq<Frame>)     // what was handed to the transport, hello excluded

  /** What the clock calls back. */
  datatype Callback =
    | Retry(generation: nat, delay: int)
    | HandshakeTimeout(attempt: nat)

  /** The outcome of decoding one transport message. */
  datatype Inbound = BinaryFrame | InvalidText | Rejected | HelloAck | FatalError | OtherFrame

  /** What the durable store says about this resident. */
  datatype Enrollment = Unreadable | Inactive | OtherEndpoint | Active

  /** What one drive finds: the store read twice, the identity compared, the socket built and
      attached, and a clock that accepts a timer. */
  datatype Reading = Reading(
    first: Enrollment, second: Enrollment, sameIdentity: bool, built: bool, attaches: bool, accepts: bool)

  /** What the outside answers during one call: the store and the random source when an attempt
      fails, the clock, the session, and a transport that takes everything if `smooth`. */
  datatype Answers = Answers(enrollment: Enrollment, drawn: real, accepts: bool, encodable: bool, smooth: bool)

  /** What a suspended controller method still owes when injected code runs. */
  datatype Owed = Nothing | HandshakeTimer | RetryTimer | StopReport

  predicate Terminal(s: LinkState) {
    s == NotConfigured || s == ConfigurationError || s == Faulted
  }

  predicate Working(s: LinkState) { s == Connecting || s == Handshaking || s == Ready }

  /** Attempts that failed since the last validated acknowledgement. */
  function FailuresSinceAck(attempts: seq<Attempt>): nat {
    if attempts == [] then 0 else
    var last := attempts[|attempts| - 1];
    (if last.ready then 0 else FailuresSinceAck(attempts[..|attempts| - 1]))
    + (if last.fate == Failed then 1 else 0)
  }

  lemma {:induction false} FailuresFrame(attempts: seq<Attempt>, i: nat, a: Attempt)
    requires i < |attempts|
    requires a.ready == attempts[i].ready && a.fate == attempts[i].fate
    ensures FailuresSinceAck(attempts[i := a]) == FailuresSinceAck(attempts)
  {
    var n := |attempts| - 1;
    var after := attempts[i := a];
    if i < n {
      assert after[..n] == attempts[..n][i := a];
      FailuresFrame(attempts[..n], i, a);
    } else {
      assert after[..n] == attempts[..n];
    }
  }

  function Fresh(generation: nat): Attempt {
    Attempt(generation, None, false, false, false, Pending, false, [], [], [])
  }

  lemma FailuresAppend(attempts: seq<Attempt>, a: Attempt)
    requires !a.ready && a.fate == Pending
    ensures FailuresSinceAck(attempts + [a]) == FailuresSinceAck(attempts)
  {
    assert (attempts + [a])[..|attempts|] == attempts;
  }

  lemma FailureCounted(attempts: seq<Attempt>, i: nat)
    requires i + 1 == |attempts| && attempts[i].fate == Pending
    ensures FailuresSinceAck(attempts[i := attempts[i].(fate := Failed)]) == FailuresSinceAck(attempts) + 1
  {
    assert attempts[i := attempts[i].(fate := Failed)][..i] == attempts[..i];
  }

  predicate Numbered(frames: seq<Frame>) {
    forall k :: 0 <= k < |frames| ==> frames[k].seqNo == k + 2
  }

  /** The writer's invariant for one attempt. */
  predicate WriterOk(a: Attempt, current: bool) {
    && Numbered(a.created)
    && |a.queue| <= QUEUE_LIMIT
    && (!a.writing ==> a.queue == [])
    && (if current then a.created == a.sent + a.queue else a.sent <= a.created)
    && (!a.ready ==> a.created == [])
  }

  /** A message that ends the attempt it arrives on. */
  predicate Ending(m: Inbound, ready: bool) {
    m in {BinaryFrame, InvalidText, Rejected, FatalError} || (m != HelloAck && !ready)
  }

  /** What was numbered or sent stays so, and every write that began has ended. */
  predicate Extends(before: Attempt, after: Attempt) {
    && before.writing == after.writing && before.created <= after.created && before.sent <= after.sent
    && (before.ready ==> after.ready) && (before.hasOpened ==> after.hasOpened) && (before.greeted ==> after.greeted)
  }

  /** The payload was numbered next after what the session had created. */
  predicate Accepted(before: Attempt, after: Attempt, payload: string) {
    before.created + [Frame(|before.created| + 2, payload)] <= after.created
  }

  /** The oldest queued frame has gone to the transport. */
  function Shifted(a: Attempt): Attempt
    requires a.queue != []
  {
    a.(queue := a.queue[1..], sent := a.sent + [a.queue[0]])
  }

  function Drained(a: Attempt): Attempt { a.(queue := [], sent := a.sent + a.queue) }

  lemma DrainedShifted(a: Attempt)
    requires a.queue != []
    ensures Drained(Shifted(a)) == Drained(a)
  {
    assert a.sent + [a.queue[0]] + a.queue[1..] == a.sent + a.queue;
  }

  predicate AllExtend(before: seq<Attempt>, after: seq<Attempt>) {
    |after| == |before| && forall i :: 0 <= i < |after| ==> Extends(before[i], after[i])
  }

  lemma ExtendsChain(a: seq<Attempt>, b: seq<Attempt>, c: seq<Attempt>)
    requires AllExtend(a, b) && AllExtend(b, c)
    ensures AllExtend(a, c)
  {
    forall i | 0 <= i < |a|
      ensures Extends(a[i], c[i])
    {
      assert Extends(a[i], b[i]) && Extends(b[i], c[i]);
    }
  }

  lemma FlagsKept(before: seq<Attempt>, after: seq<Attempt>, i: nat)
    requires AllExtend(before, after) && i < |before|
    ensures before[i].hasOpened ==> after[i].hasOpened
    ensures before[i].greeted ==> after[i].greeted
    ensures before[i].ready ==> after[i].ready
  {
    assert Extends(before[i], after[i]);
  }

  lemma ExtendsUpdate(attempts: seq<Attempt>, i: nat, a: Attempt)
    requires i < |attempts| && Extends(attempts[i], a)
    ensures AllExtend(attempts, attempts[i := a])
  {}

  /** Every attempt's writer is right; only the live one may hold queued frames. */
  predicate WritersOk(attempts: seq<Attempt>, live: Option<nat>) {
    forall i :: 0 <= i < |attempts| ==> WriterOk(attempts[i], live == Some(i))
  }

  lemma WritersUpdate(attempts: seq<Attempt>, live: Option<nat>, i: nat, a: Attempt)
    requires WritersOk(attempts, live) && i < |attempts| && WriterOk(a, live == Some(i))
    ensures WritersOk(attempts[i := a], live)
  {}

  lemma WritersReleased(attempts: seq<Attempt>, live: Option<nat>)
    requires WritersOk(attempts, live)
    ensures WritersOk(attempts, None)
  {
    forall i | 0 <= i < |attempts|
      ensures WriterOk(attempts[i], false)
    {
      assert WriterOk(attempts[i], live == Some(i));
    }
  }

  lemma WritersAppend(attempts: seq<Attempt>, generation: nat)
    requires WritersOk(attempts, None)
    ensures WritersOk(attempts + [Fresh(generation)], Some(|attempts|))
  {
    var after := attempts + [Fresh(generation)];
    forall i | 0 <= i < |after|
      ensures WriterOk(after[i], i == |attempts|)
    {
      if i < |attempts| { assert WriterOk(attempts[i], false); }
    }
  }

  /** No attempt but the live one, or the one being released, has a timer. */
  predicate Released(attempts: seq<Attempt>, live: Option<nat>, leaving: Option<nat>) {
    forall i :: 0 <= i < |attempts| && live != Some(i) && leaving != Some(i) ==> attempts[i].timer == None
  }

  lemma ReleasedUpdate(attempts: seq<Attempt>, live: Option<nat>, i: nat, a: Attempt)
    requires i < |attempts| && Released(attempts, live, Some(i))
    requires a.timer == None || live == Some(i)
    ensures Released(attempts[i := a], live, None)
  {}

  predicate NoneWriting(attempts: seq<Attempt>) {
    forall i :: 0 <= i < |attempts| ==> !attempts[i].writing
  }

  lemma NoneWritingKept(before: seq<Attempt>, after: seq<Attempt>)
    requires NoneWriting(before) && AllExtend(before, after)
    ensures NoneWriting(after)
  {
    forall i | 0 <= i < |after|
      ensures !after[i].writing
    {
      assert Extends(before[i], after[i]);
    }
  }

  /** No clock entry of this generation can drive the controller behind its back. */
  predicate ClockOk(clock: map<nat, Callback>, nextHandle: nat, generation: nat, stopped: bool, timer: Option<nat>) {
    && (forall h <- clock :: h < nextHandle)
    && (forall h <- clock :: clock[h].Retry? ==> clock[h].generation <= generation)
    && (forall h <- clock :: clock[h].Retry? && clock[h].generation == generation && !stopped ==> timer == Some(h))
  }

  lemma ClockAdds(clock: map<nat, Callback>, nextHandle: nat, generation: nat, stopped: bool, timer: Option<nat>,
                  callback: Callback, after: Option<nat>)
    requires ClockOk(clock, nextHandle, generation, stopped, timer)
    requires if callback.Retry? then timer == None && !stopped && callback.generation == generation else after == timer
    requires callback.Retry? ==> after == Some(nextHandle)
    ensures ClockOk(clock[nextHandle := callback], nextHandle + 1, generation, stopped, after)
  {}

  /** What the controller is configured with. */
  datatype Settings = Settings(
    configured: bool, configurationInvalid: bool, enrollmentPollMs: nat, retryBaseMs: nat, retryMaxMs: nat)

  /** The controller's fields together, and the clock that holds its callbacks. */
  datatype Link = Link(
    current: Status,
    started: bool,
    stopped: bool,
    generation: nat,
    failures: nat,
    timer: Option<nat>,
    live: Option<nat>,
    attempts: seq<Attempt>,
    clock: map<nat, Callback>,
    nextHandle: nat)

  predicate HandshakeArmed(attempts: seq<Attempt>, clock: map<nat, Callback>, i: nat)
    requires i < |attempts|
  {
    var t := attempts[i].timer;
    t.Some? && t.value in clock && clock[t.value] == HandshakeTimeout(i)
  }

  /** A delay that a state may be left after. */
  predicate RightDelay(c: Settings, state: LinkState, failures: nat, delay: int) {
    match state
    case Backoff => 1 <= failures && DelayWithin(delay, Ceiling(c.retryBaseMs, c.retryMaxMs, failures))
    case WaitingForEnrollment => delay == c.enrollmentPollMs
    case _ => false
  }

  predicate RetryArmed(c: Settings, l: Link) {
    && l.timer.Some? && l.timer.value in l.clock
    && l.clock[l.timer.value].Retry? && l.clock[l.timer.value].generation == l.generation
    && RightDelay(c, l.current.state, l.failures, l.clock[l.timer.value].delay)
  }

  /** What is going on: nothing after stop, one live attempt, one retry, or a terminal state. */
  predicate Steady(c: Settings, l: Link, owed: Owed) {
    match l
    case Link(current, started, stopped, generation, failures, timer, live, attempts, clock, _) =>
      && (stopped ==> live == None && timer == None && (current.state == Stopped || owed == StopReport))
      && (!started ==> live == None && timer == None && attempts == [] && (stopped || current.state == Idle))
      && (live.Some? ==>
            && live.value + 1 == |attempts| && attempts[live.value].generation == generation
            && attempts[live.value].fate == Pending
            && timer == None
            && Working(current.state)
            && (attempts[live.value].ready || HandshakeArmed(attempts, clock, live.value) || owed == HandshakeTimer))
      && (started && !stopped && live == None ==>
            if timer == None then Terminal(current.state) || owed == RetryTimer else RetryArmed(c, l))
  }

  /** Holds whenever injected code runs; `owed` names what is still to be done, and `leaving`
      the attempt that is being released. */
  predicate Good(c: Settings, l: Link, owed: Owed, leaving: Option<nat>) {
    match l
    case Link(_, _, stopped, generation, failures, timer, live, attempts, clock, nextHandle) =>
      && ValidBounds(c.retryBaseMs, c.retryMaxMs)
      && ClockOk(clock, nextHandle, generation, stopped, timer)
      && WritersOk(attempts, live)
      && Released(attempts, live, leaving)
      && failures == Saturate(FailuresSinceAck(attempts))
      && Steady(c, l, owed)
  }

  lemma NothingOwed(c: Settings, l: Link, owed: Owed)
    requires Good(c, l, Nothing, None)
    ensures Good(c, l, owed, None)
  {}

  lemma NoTimers(c: Settings, l: Link, owed: Owed)
    requires Good(c, l, owed, None) && l.live == None
    ensures forall i :: 0 <= i < |l.attempts| ==> l.attempts[i].timer == None
  {}

  lemma OwedWhileLive(c: Settings, l: Link, owed: Owed)
    requires Good(c, l, owed, None) && l.live.Some?
    ensures Good(c, l, HandshakeTimer, None)
  {}

  lemma LeavingNone(c: Settings, l: Link, owed: Owed, i: nat)
    requires Good(c, l, owed, None)
    ensures Good(c, l, owed, Some(i))
  {}

  /** What any controller method may do: attempts are never revived, nor others created. */
  predicate Progress(before: Link, after: Link) {
    match after
    case Link(_, started, stopped, generation, failures, _, live, attempts, _, _) =>
      && started == before.started
      && (before.stopped ==> stopped)
      && (live == before.live || live == None)
      && before.generation <= generation
      && (live.Some? ==> generation == before.generation)
      && (before.live == None ==> attempts == before.attempts && failures == before.failures)
      && AllExtend(before.attempts, attempts)
  }

  /** With no live attempt nothing but stop can move the controller. */
  predicate Asleep(before: Link, after: Link) {
    before.live == None && after.stopped == before.stopped ==>
      && after.timer == before.timer && after.current == before.current
      && after.generation == before.generation && after.clock == before.clock
  }

  lemma ProgressChain(a: Link, b: Link, c: Link)
    requires Progress(a, b) && Progress(b, c)
    ensures Progress(a, c)
    ensures Asleep(a, b) && Asleep(b, c) ==> Asleep(a, c)
  {
    ExtendsChain(a.attempts, b.attempts, c.attempts);
  }

  /** A live attempt may end: no other is revived. */
  lemma ProgressToEnd(a: Link, b: Link)
    requires a.live.Some? && b.live == None && b.started == a.started && (a.stopped ==> b.stopped)
    requires a.generation <= b.generation && AllExtend(a.attempts, b.attempts)
    ensures Progress(a, b)
  {}

  /** The outermost write marks its attempt, drains, and takes the mark off again. */
  lemma WriteIsProgress(a: Link, begun: Link, drained: Link, b: Link, i: nat)
    requires i < |a.attempts| && a.live.Some? && !a.attempts[i].writing
    requires |begun.attempts| == |a.attempts| && begun == a.(attempts := a.attempts[i := begun.attempts[i]])
    requires Extends(a.attempts[i], begun.attempts[i].(writing := false))
    requires Progress(begun, drained)
    requires b == drained.(attempts := drained.attempts[i := drained.attempts[i].(writing := false, queue := [])])
    ensures Progress(a, b) && begun.attempts[i].created <= b.attempts[i].created
  {
    assert Extends(begun.attempts[i], drained.attempts[i]);
    forall k | 0 <= k < |a.attempts|
      ensures Extends(a.attempts[k], b.attempts[k])
    {
      assert Extends(begun.attempts[k], drained.attempts[k]);
    }
  }

  /** The delay after a number of failures and a random draw. */
  function BackoffDelay(c: Settings, failures: nat, drawn: real): int
    requires 1 <= failures
  {
    Delay(Ceiling(c.retryBaseMs, c.retryMaxMs, failures), Jitter(drawn))
  }

  /** Some of the queued frames of attempt `i` have gone, and nothing else has happened. */
  predicate Draining(before: Link, after: Link, i: nat) {
    && i < |before.attempts| && i < |after.attempts|
    && after == before.(attempts := before.attempts[i := after.attempts[i]])
    && Drained(after.attempts[i]) == Drained(before.attempts[i])
  }

  lemma DrainGoesOn(a: Link, b: Link, c: Link, i: nat)
    requires Draining(a, b, i) && b.attempts[i].queue != []
    requires c == b.(attempts := b.attempts[i := Shifted(b.attempts[i])])
    ensures Draining(a, c, i)
  {
    DrainedShifted(b.attempts[i]);
    assert b.attempts[i := Shifted(b.attempts[i])] == a.attempts[i := Shifted(b.attempts[i])];
  }

  lemma DrainIsOver(a: Link, b: Link, i: nat)
    requires Draining(a, b, i) && b.attempts[i].queue == []
    ensures b == a.(attempts := a.attempts[i := Drained(a.attempts[i])])
  {
    assert Drained(b.attempts[i]) == b.attempts[i];
  }

  /** Where a failed attempt leaves an unstopped link. */
  predicate Scheduled(c: Settings, env: Answers, l: Link) {
    if env.enrollment == Unreadable || !env.accepts then l.current.state == Faulted
    else
      && RetryArmed(c, l)
      && if env.enrollment == Active && c.configured
         then l.current.state == Backoff && 1 <= l.failures
              && l.clock[l.timer.value].delay == BackoffDelay(c, l.failures, env.drawn)
         else l.current.state == WaitingForEnrollment
  }

  // ----- Single steps

  lemma Reported(c: Settings, l: Link, s: LinkState, before: Owed, after: Owed)
    requires Good(c, l, before, None) && (l.started || l.stopped)
    requires s == Stopped <==> l.stopped
    requires l.live.Some? ==> Working(s) && before == after
    requires !l.stopped && l.live == None ==> l.timer == None && (Terminal(s) || after == RetryTimer)
    ensures Good(c, l.(current := Status(s, l.failures)), after, None)
  {}

  lemma TimerCleared(c: Settings, l: Link, owed: Owed, i: nat, clock: map<nat, Callback>)
    requires Good(c, l, owed, Some(i)) && i < |l.attempts| && l.timer == None
    requires l.live == None || (l.live == Some(i) && (l.attempts[i].ready || owed == HandshakeTimer))
    requires clock == l.clock || (l.attempts[i].timer.Some? && clock == l.clock - {l.attempts[i].timer.value})
    ensures Good(c, l.(attempts := l.attempts[i := l.attempts[i].(timer := None)], clock := clock), owed, None)
    ensures AllExtend(l.attempts, l.attempts[i := l.attempts[i].(timer := None)])
  {
    var a := l.attempts[i].(timer := None);
    FailuresFrame(l.attempts, i, a);
    WritersUpdate(l.attempts, l.live, i, a);
    ReleasedUpdate(l.attempts, l.live, i, a);
    ExtendsUpdate(l.attempts, i, a);
  }

  lemma Fenced(c: Settings, l: Link, owed: Owed, clock: map<nat, Callback>)
    requires Good(c, l, owed, None) && !l.stopped
    requires clock == l.clock || (l.timer.Some? && clock == l.clock - {l.timer.value})
    ensures Good(c, l.(stopped := true, generation := l.generation + 1, timer := None, clock := clock, live := None),
                 StopReport, l.live)
  {
    WritersReleased(l.attempts, l.live);
  }

  lemma Detached(c: Settings, l: Link, owed: Owed)
    requires Good(c, l, owed, None) && owed != StopReport && l.live.Some? && l.started
    ensures Good(c, l.(generation := l.generation + 1, live := None), RetryTimer, l.live)
  {
    WritersReleased(l.attempts, l.live);
  }

  lemma RetryIsArmed(c: Settings, l: Link, delay: int)
    requires Good(c, l, RetryTimer, None) && l.started && !l.stopped && l.live == None && l.timer == None
    requires RightDelay(c, l.current.state, l.failures, delay)
    ensures Good(c, l.(clock := l.clock[l.nextHandle := Retry(l.generation, delay)],
                       timer := Some(l.nextHandle), nextHandle := l.nextHandle + 1), Nothing, None)
  {
    ClockAdds(l.clock, l.nextHandle, l.generation, l.stopped, l.timer, Retry(l.generation, delay), Some(l.nextHandle));
  }

  lemma FailureIsCounted(c: Settings, l: Link, i: nat)
    requires Good(c, l, RetryTimer, None) && l.live == None && l.timer == None
    requires i + 1 == |l.attempts| && l.attempts[i].fate == Pending
    ensures Good(c, l.(attempts := l.attempts[i := l.attempts[i].(fate := Failed)],
                       failures := Min(MAX_FAILURES, l.failures + 1)), RetryTimer, None)
    ensures AllExtend(l.attempts, l.attempts[i := l.attempts[i].(fate := Failed)])
  {
    var a := l.attempts[i].(fate := Failed);
    FailureCounted(l.attempts, i);
    WritersUpdate(l.attempts, l.live, i, a);
    ReleasedUpdate(l.attempts, l.live, i, a);
    ExtendsUpdate(l.attempts, i, a);
  }

  /** Overwriting an attempt without touching what the counters and timers depend on. */
  lemma Updated(c: Settings, l: Link, owed: Owed, i: nat, a: Attempt)
    requires Good(c, l, owed, None) && i < |l.attempts|
    requires a.ready == l.attempts[i].ready && a.fate == l.attempts[i].fate
    requires a.timer == l.attempts[i].timer && a.generation == l.attempts[i].generation
    requires WriterOk(a, l.live == Some(i))
    ensures Good(c, l.(attempts := l.attempts[i := a]), owed, None)
  {
    FailuresFrame(l.attempts, i, a);
    WritersUpdate(l.attempts, l.live, i, a);
    ReleasedUpdate(l.attempts, l.live, i, a);
  }

  lemma Acknowledged(c: Settings, l: Link, owed: Owed, i: nat)
    requires Good(c, l, owed, None) && l.live == Some(i)
    ensures Good(c, l.(attempts := l.attempts[i := l.attempts[i].(ready := true)], failures := 0), owed, None)
    ensures AllExtend(l.attempts, l.attempts[i := l.attempts[i].(ready := true)])
  {
    var a := l.attempts[i].(ready := true);
    ExtendsUpdate(l.attempts, i, a);
    WritersUpdate(l.attempts, l.live, i, a);
    ReleasedUpdate(l.attempts, l.live, i, a);
  }

  lemma HandshakeIsArmed(c: Settings, l: Link, i: nat)
    requires Good(c, l, HandshakeTimer, None) && l.live == Some(i)
    ensures Good(c, l.(attempts := l.attempts[i := l.attempts[i].(timer := Some(l.nextHandle))],
                       clock := l.clock[l.nextHandle := HandshakeTimeout(i)], nextHandle := l.nextHandle + 1),
                 Nothing, None)
    ensures AllExtend(l.attempts, l.attempts[i := l.attempts[i].(timer := Some(l.nextHandle))])
  {
    var a := l.attempts[i].(timer := Some(l.nextHandle));
    FailuresFrame(l.attempts, i, a);
    WritersUpdate(l.attempts, l.live, i, a);
    ReleasedUpdate(l.attempts, l.live, i, a);
    ExtendsUpdate(l.attempts, i, a);
    ClockAdds(l.clock, l.nextHandle, l.generation, l.stopped, l.timer, HandshakeTimeout(i), l.timer);
    assert HandshakeArmed(l.attempts[i := a], l.clock[l.nextHandle := HandshakeTimeout(i)], i);
  }

  lemma AttemptIsBuilt(c: Settings, l: Link)
    requires Good(c, l, RetryTimer, None) && l.started && !l.stopped && l.live == None && l.timer == None
    ensures Good(c, l.(attempts := l.attempts + [Fresh(l.generation + 1)], generation := l.generation + 1,
                       live := Some(|l.attempts|), current := Status(Connecting, l.failures)), HandshakeTimer, None)
  {
    FailuresAppend(l.attempts, Fresh(l.generation + 1));
    WritersAppend(l.attempts, l.generation + 1);
  }

  lemma StaleIsForgotten(c: Settings, l: Link, h: nat)
    requires Good(c, l, Nothing, None) && h in l.clock
    requires l.clock[h].Retry? ==> l.stopped || l.clock[h].generation != l.generation
    requires l.clock[h].HandshakeTimeout? ==> l.live != Some(l.clock[h].attempt)
    ensures Good(c, l.(clock := l.clock - {h}), Nothing, None)
  {}

  lemma RetryIsTaken(c: Settings, l: Link, h: nat)
    requires Good(c, l, Nothing, None) && h in l.clock && l.clock[h].Retry? && !l.stopped
    requires l.clock[h].generation == l.generation
    ensures Good(c, l.(clock := l.clock - {h}, timer := None), RetryTimer, None) && l.started && l.live == None
  {}

  lemma HandshakeIsTaken(c: Settings, l: Link, h: nat)
    requires Good(c, l, Nothing, None) && h in l.clock && l.clock[h].HandshakeTimeout?
    requires l.live == Some(l.clock[h].attempt)
    ensures Good(c, l.(clock := l.clock - {h}), HandshakeTimer, None) && l.started
  {}

  class Controller {
    const settings: Settings

    var current: Status
    var started: bool
    var stopped: bool
    var generation: nat
    var failures: nat
    var timer: Option<nat>
    var live: Option<nat>
    var attempts: seq<Attempt>  // every attempt ever built; its index is its identity
    var clock: map<nat, Callback>  // callbacks the clock still holds
    var nextHandle: nat
    var budget: nat  // synchronous calls the injected code will still make

    predicate IsCurrent(i: nat)
      reads this
    {
      !stopped && live == Some(i) && i < |attempts| && attempts[i].generation == generation
    }

    ghost function Now(): Link
      reads this
    {
      Link(current, started, stopped, generation, failures, timer, live, attempts, clock, nextHandle)
    }

    ghost predicate Inv(owed: Owed)
      reads this
    {
      Good(settings, Now(), owed, None)
    }

    /** No write is in progress on any attempt. */
    ghost predicate NoWrite()
      reads this
    {
      NoneWriting(attempts)
    }

    /** The never-stuck property, as observed between entry points. */
    ghost predicate Quiescent()
      reads this
    {
      Inv(Nothing) && NoWrite()
    }

    twostate predicate Progressed()
      reads this
    {
      Progress(old(Now()), Now()) && budget <= old(budget)
    }

    /** What injected code may have done while a method was suspended. */
    twostate predicate Interfered()
      reads this
    {
      Progressed() && Asleep(old(Now()), Now())
    }

    /** Everything but the environment's remaining budget is as it was. */
    twostate predicate Untouched()
      reads this
    {
      Now() == old(Now())
    }

    /** Attempt `i` failed: counted once, and the link goes on as the outside answers. */
    twostate predicate Ended(i: nat, env: Answers)
      reads this
    {
      && i < |attempts| && attempts[i].fate == Failed && live == None
      && failures == Min(MAX_FAILURES, old(failures) + 1)
      && (!stopped ==> Scheduled(settings, env, Now()))
    }

    constructor (settings: Settings, budget: nat)
      requires ValidBounds(settings.retryBaseMs, settings.retryMaxMs)
      ensures Quiescent() && !started && !stopped && this.budget == budget && this.settings == settings
    {
      this.settings, this.budget := settings, budget;
      current, started, stopped := Status(Idle, 0), false, false;
      generation, failures, timer, live := 0, 0, None, None;
      attempts, clock, nextHandle := [], map[], 0;
    }

    method Spend(ghost owed: Owed)
      requires Inv(owed) && budget > 0
      modifies this`budget
      ensures Inv(owed) && budget == old(budget) - 1
    {
      budget := budget - 1;
    }

    /** Injected code makes any number of calls into the controller. */
    method Reenter(ghost owed: Owed)
      requires Inv(owed) && (started || stopped)
      modifies this
      ensures Inv(owed) && Interfered()
      ensures budget == old(budget) ==> Untouched()
      decreases budget, 0
    {
      if budget == 0 { return; }
      var more: bool := *;
      if !more { return; }
      ghost var start := Now();
      Spend(owed);
      assert Now() == start;
      Perform(owed);
      ghost var between := Now();
      assert started || stopped;
      Reenter(owed);
      ProgressChain(start, between, Now());
    }

    /** One call of the public surface: lifecycle, socket handlers, effect sinks. */
    method Perform(ghost owed: Owed)
      requires Inv(owed) && (started || stopped)
      modifies this
      ensures Inv(owed) && Interfered()
      ensures old(stopped) ==> Untouched()
      decreases budget, 11
    {
      var i: nat := *;
      var which: int, env: Answers := *, *;
      if which == 0 {
        Stop(owed);
      } else if which == 1 {
        SocketOpen(i, owed, env);
      } else if which == 2 {
        var m: Inbound := *;
        SocketMessage(i, m, owed, env);
      } else if which == 3 {
        SocketEnded(i, owed, env);
      } else if which == 4 && i < |attempts| {
        var payload: string := *;
        var _ := WriteEffect(i, payload, owed, env);
      } else {
        // start is a no-op once started or stopped
      }
    }

    /** Reports a status; the observer may call back. */
    method Transition(s: LinkState, ghost before: Owed, ghost after: Owed)
      requires Inv(before) && (started || stopped)
      requires stopped ==> s == Stopped || before != StopReport
      requires s == Stopped ==> stopped
      requires live.Some? ==> Working(s) && before == after
      requires !stopped && live == None ==> timer == None && (Terminal(s) || after == RetryTimer)
      modifies this
      ensures Inv(after) && Progressed()
      ensures old(live) == None && stopped == old(stopped) ==>
                timer == old(timer) && generation == old(generation) && clock == old(clock)
                && (!stopped ==> current == Status(s, failures))
      ensures budget == old(budget) && (s == Stopped || !old(stopped)) ==>
                Now() == old(Now()).(current := Status(s, old(failures)))
      decreases budget, 1
    {
      if stopped && s != Stopped {
        return;
      }
      Reported(settings, Now(), s, before, after);
      if current == Status(s, failures) { return; }
      current := Status(s, failures);
      ghost var reported := Now();
      Reenter(after);
      ProgressChain(old(Now()), reported, Now());
    }

    /** Clears an attempt's timer; a clock may fail to forget the callback. */
    method ClearLiveTimer(i: nat, ghost owed: Owed)
      requires i < |attempts| && Good(settings, Now(), owed, Some(i)) && timer == None
      requires live == None || (live == Some(i) && (attempts[i].ready || owed == HandshakeTimer))
      modifies this`attempts, this`clock
      ensures Inv(owed) && AllExtend(old(attempts), attempts)
      ensures live.Some? ==> Progressed()
      ensures attempts == old(attempts)[i := old(attempts)[i].(timer := None)]
    {
      ghost var l, cleared := Now(), attempts[i := attempts[i].(timer := None)];
      var h := attempts[i].timer;
      attempts := attempts[i := attempts[i].(timer := None)];
      var forgotten: bool := *;
      if h.Some? && forgotten {
        clock := clock - {h.value};
      }
      TimerCleared(settings, l, owed, i, clock);
      assert Now() == l.(attempts := cleared, clock := clock);
    }

    /** Releases a superseded attempt; detach, close and terminate may call back. */
    method Dispose(i: nat, ghost owed: Owed)
      requires i < |attempts| && live == None && timer == None && started && Good(settings, Now(), owed, Some(i))
      modifies this
      ensures Inv(owed) && live == None && budget <= old(budget)
      ensures attempts == old(attempts)[i := old(attempts)[i].(timer := None)]
      ensures AllExtend(old(attempts), attempts)
      ensures failures == old(failures) && started == old(started) && (old(stopped) ==> stopped)
      ensures generation >= old(generation)
      ensures stopped == old(stopped) ==>
                timer == old(timer) && current == old(current) && generation == old(generation)
      decreases budget, 1
    {
      ClearLiveTimer(i, owed);
      Reenter(owed);
    }

    method Stop(ghost owed: Owed)
      requires Inv(owed)
      modifies this
      ensures Inv(owed) && Interfered() && stopped && live == None && timer == None
      ensures forall i :: 0 <= i < |attempts| ==> attempts[i].timer == None
      ensures old(stopped) ==> Untouched()
      decreases budget, 3
    {
      if !stopped {
        Shut();
        ghost var shut := Now();
        Transition(Stopped, StopReport, Nothing);
        ProgressChain(old(Now()), shut, Now());
        NothingOwed(settings, Now(), owed);
      }
      NoTimers(settings, Now(), owed);
    }

    /** Fences the link and releases its attempt; the stop has still to be reported. */
    method Shut()
      requires !stopped && exists owed :: Inv(owed)
      modifies this
      ensures Inv(StopReport) && Progressed() && stopped && live == None && timer == None
      decreases budget, 2
    {
      var was := Fence();
      if was.Some? {
        Dispose(was.value, StopReport);
        ProgressToEnd(old(Now()), Now());
      }
    }

    /** Stops accepting anything before the outside world is told. */
    method Fence() returns (was: Option<nat>)
      requires !stopped && exists owed :: Inv(owed)
      modifies this`stopped, this`generation, this`timer, this`clock, this`live
      ensures Good(settings, Now(), StopReport, was) && was == old(live) && live == None && timer == None && stopped
      ensures old(generation) < generation
    {
      ghost var l := Now();
      ghost var owed :| Inv(owed);
      stopped := true;
      generation := generation + 1;
      ClearControllerTimer();
      was := live;
      live := None;
      Fenced(settings, l, owed, clock);
    }

    method ClearControllerTimer()
      modifies this`timer, this`clock
      ensures timer == None
      ensures clock == old(clock) || (old(timer).Some? && clock == old(clock) - {old(timer).value})
      ensures old(timer) == None ==> clock == old(clock)
    {
      var h := timer;
      timer := None;
      var forgotten: bool := *;
      if h.Some? && forgotten {
        clock := clock - {h.value};
      }
    }

    /** Arms the retry timer; a clock that throws or fires at once faults the link. */
    method ArmControllerTimer(delay: int, accepts: bool)
      requires Inv(RetryTimer) && started && live == None && timer == None
      requires !stopped ==> RightDelay(settings, current.state, failures, delay)
      modifies this
      ensures Inv(Nothing) && live == None && budget <= old(budget)
      ensures attempts == old(attempts) && failures == old(failures) && started == old(started)
      ensures (old(stopped) ==> stopped) && old(generation) <= generation
      ensures !stopped && accepts ==>
                && current == old(current)
                && timer.Some? && timer.value in clock && clock[timer.value] == Retry(generation, delay)
      ensures !stopped && !accepts ==> current.state == Faulted
      decreases budget, 2
    {
      if stopped { return; }
      if accepts {
        ghost var l := Now();
        RetryIsArmed(settings, l, delay);
        clock := clock[nextHandle := Retry(generation, delay)];
        timer := Some(nextHandle);
        nextHandle := nextHandle + 1;
        assert Now() == l.(clock := l.clock[l.nextHandle := Retry(l.generation, delay)],
                           timer := Some(l.nextHandle), nextHandle := l.nextHandle + 1);
      } else {
        Transition(Faulted, RetryTimer, Nothing);
      }
    }

    /** Ends the current attempt for good; `i` is None when no attempt was built. */
    method Fault(i: Option<nat>, ghost owed: Owed)
      requires Inv(owed) && started && owed != StopReport
      requires i == None ==> live == None && timer == None
      modifies this
      ensures i == None ==> Inv(Nothing) && (!stopped ==> current.state == Faulted)
      ensures i.Some? && old(IsCurrent(i.value)) ==>
                Inv(Nothing) && live == None && (!stopped ==> current.state == Faulted)
      ensures i.Some? && !old(IsCurrent(i.value)) ==> Inv(owed) && Untouched()
      ensures started == old(started) && AllExtend(old(attempts), attempts) && budget <= old(budget)
      ensures (old(stopped) ==> stopped) && old(generation) <= generation && (live == old(live) || live == None)
      ensures old(live) == None ==> attempts == old(attempts) && failures == old(failures)
      decreases budget, 3
    {
      if stopped { return; }
      if i.Some? {
        if !IsCurrent(i.value) { return; }
        Detach(i.value);
        Dispose(i.value, RetryTimer);
      }
      Transition(Faulted, RetryTimer, Nothing);
    }

    method ScheduleAfterFailure(env: Answers)
      requires Inv(RetryTimer) && started && live == None && timer == None && 1 <= failures
      modifies this
      ensures Inv(Nothing) && live == None && budget <= old(budget)
      ensures attempts == old(attempts) && failures == old(failures) && started == old(started)
      ensures (old(stopped) ==> stopped) && old(generation) <= generation
      ensures !stopped ==> Scheduled(settings, env, Now())
      decreases budget, 4
    {
      if stopped { return; }
      if env.enrollment == Unreadable {
        Fault(None, RetryTimer);
      } else if env.enrollment != Active || !settings.configured {
        Transition(WaitingForEnrollment, RetryTimer, RetryTimer);
        ArmControllerTimer(settings.enrollmentPollMs, env.accepts);
      } else {
        BackOff(env.drawn, env.accepts);
      }
    }

    method BackOff(drawn: real, accepts: bool)
      requires Inv(RetryTimer) && started && !stopped && live == None && timer == None && 1 <= failures
      modifies this
      ensures Inv(Nothing) && live == None && budget <= old(budget)
      ensures attempts == old(attempts) && failures == old(failures) && started == old(started)
      ensures old(generation) <= generation
      ensures !stopped && !accepts ==> current.state == Faulted
      ensures !stopped && accepts ==>
                && current.state == Backoff && timer.Some? && timer.value in clock
                && clock[timer.value].delay == BackoffDelay(settings, failures, drawn)
      decreases budget, 3
    {
      var ceiling := Ceiling(settings.retryBaseMs, settings.retryMaxMs, failures);
      var delay := Delay(ceiling, Jitter(drawn));
      CeilingMonotone(settings.retryBaseMs, settings.retryMaxMs, failures, failures);
      DelayBounds(ceiling, drawn);
      Transition(Backoff, RetryTimer, RetryTimer);
      ArmControllerTimer(delay, accepts);
    }

    /** Fences the current attempt off: nothing it does counts from here on. */
    method Detach(i: nat)
      requires exists owed :: Inv(owed) && owed != StopReport
      requires IsCurrent(i) && started
      modifies this`generation, this`live
      ensures Good(settings, Now(), RetryTimer, Some(i)) && live == None && generation == old(generation) + 1
    {
      ghost var owed :| Inv(owed) && owed != StopReport;
      Detached(settings, Now(), owed);
      generation := generation + 1;
      live := None;
    }

    /** Fences the current attempt off and releases it. */
    method Supersede(i: nat)
      requires Inv(HandshakeTimer) && IsCurrent(i) && started
      modifies this
      ensures Inv(RetryTimer) && Progressed() && live == None && timer == None
      ensures failures == old(failures)
      ensures attempts == old(attempts)[i := old(attempts)[i].(timer := None)]
      decreases budget, 2
    {
      Detach(i);
      Dispose(i, RetryTimer);
    }

    method CountFailure(i: nat)
      requires Inv(RetryTimer) && live == None && timer == None && i + 1 == |attempts| && attempts[i].fate == Pending
      modifies this`attempts, this`failures
      ensures Inv(RetryTimer) && 1 <= failures && AllExtend(old(attempts), attempts)
      ensures failures == Min(MAX_FAILURES, old(failures) + 1)
      ensures attempts == old(attempts)[i := old(attempts)[i].(fate := Failed)]
    {
      FailureIsCounted(settings, Now(), i);
      attempts := attempts[i := attempts[i].(fate := Failed)];
      failures := Min(MAX_FAILURES, failures + 1);
    }

    /** Ends the current attempt and schedules the next one. */
    method AttemptFailed(i: nat, ghost owed: Owed, env: Answers)
      requires Inv(owed) && started
      modifies this
      ensures Inv(owed) && Progressed()
      ensures old(IsCurrent(i)) ==> Inv(Nothing) && Ended(i, env)
      ensures !old(IsCurrent(i)) ==> Untouched()
      decreases budget, 5
    {
      if !IsCurrent(i) { return; }
      OwedWhileLive(settings, Now(), owed);
      Supersede(i);
      ghost var superseded := attempts;
      CountFailure(i);
      ghost var counted := attempts;
      ScheduleAfterFailure(env);
      assert attempts == counted;
      ExtendsChain(old(attempts), superseded, attempts);
      ProgressToEnd(old(Now()), Now());
      NothingOwed(settings, Now(), owed);
    }

    /** Overwrites an attempt without touching what the counters depend on. */
    method Update(i: nat, a: Attempt, ghost owed: Owed)
      requires Inv(owed) && i < |attempts|
      requires a.ready == attempts[i].ready && a.fate == attempts[i].fate
      requires a.timer == attempts[i].timer && a.generation == attempts[i].generation
      requires WriterOk(a, IsCurrent(i))
      modifies this`attempts
      ensures Inv(owed) && attempts == old(attempts)[i := a]
      ensures old(live).Some? && Extends(old(attempts)[i], a) ==> Progressed()
    {
      ghost var l := Now();
      Updated(settings, l, owed, i, a);
      if Extends(attempts[i], a) { ExtendsUpdate(attempts, i, a); }
      attempts := attempts[i := a];
      assert Now() == l.(attempts := l.attempts[i := a]);
    }

    /** Sets an attempt's marks; none is ever taken back. */
    method Mark(i: nat, hasOpened: bool, greeted: bool, ghost owed: Owed)
      requires Inv(owed) && IsCurrent(i)
      requires (attempts[i].hasOpened ==> hasOpened) && (attempts[i].greeted ==> greeted)
      modifies this`attempts
      ensures Inv(owed) && Progressed() && IsCurrent(i)
      ensures attempts == old(attempts)[i := old(attempts)[i].(hasOpened := hasOpened, greeted := greeted)]
    {
      assert WriterOk(attempts[i], live == Some(i));
      Update(i, attempts[i].(hasOpened := hasOpened, greeted := greeted), owed);
    }

    method Opened(i: nat, ghost owed: Owed, env: Answers)
      requires Inv(owed) && IsCurrent(i) && started
      modifies this
      ensures Inv(owed) && Progressed() && attempts[i].hasOpened
      ensures old(attempts)[i].hasOpened ==> Ended(i, env)
      ensures !old(attempts)[i].hasOpened && env.smooth && budget == old(budget) ==>
                IsCurrent(i) && current.state == Handshaking
      ensures IsCurrent(i) ==> attempts[i].greeted
      decreases budget, 7
    {
      if attempts[i].hasOpened {
        AttemptFailed(i, owed, env);
        return;
      }
      Handshake(i, owed);
      ghost var shaken := Now();
      if IsCurrent(i) {
        SendHello(i, owed, env);
        ProgressChain(old(Now()), shaken, Now());
        assert Extends(shaken.attempts[i], attempts[i]);
      }
    }

    method Handshake(i: nat, ghost owed: Owed)
      requires Inv(owed) && IsCurrent(i) && started
      modifies this
      ensures Inv(owed) && Progressed() && attempts[i].hasOpened
      ensures budget == old(budget) ==> IsCurrent(i) && current.state == Handshaking
      decreases budget, 2
    {
      Mark(i, true, attempts[i].greeted, owed);
      ghost var marked := Now();
      Transition(Handshaking, owed, owed);
      ProgressChain(old(Now()), marked, Now());
      FlagsKept(marked.attempts, attempts, i);
    }

    method SendHello(i: nat, ghost owed: Owed, env: Answers)
      requires Inv(owed) && IsCurrent(i) && started
      modifies this
      ensures Inv(owed) && Progressed() && (IsCurrent(i) ==> attempts[i].greeted)
      ensures env.smooth && budget == old(budget) ==> IsCurrent(i) && current == old(current)
      decreases budget, 6
    {
      var room: bool, threw: bool := *, *;
      room, threw := room || env.smooth, threw && !env.smooth;
      if room {
        Greet(i, owed);
        ghost var greeted := Now();
        if threw {
          AttemptFailed(i, owed, env);
          ProgressChain(old(Now()), greeted, Now());
        }
      } else {
        AttemptFailed(i, owed, env);
      }
    }

    /** Hands the hello to sendText, which may call back. */
    method Greet(i: nat, ghost owed: Owed)
      requires Inv(owed) && IsCurrent(i) && started
      modifies this
      ensures Inv(owed) && Progressed() && attempts[i].greeted
      ensures budget == old(budget) ==> IsCurrent(i) && current == old(current)
      decreases budget, 1
    {
      Mark(i, attempts[i].hasOpened, true, owed);
      ghost var marked := Now();
      Reenter(owed);
      ProgressChain(old(Now()), marked, Now());
      FlagsKept(marked.attempts, attempts, i);
    }

    /** The sole reset of the failure count: the first validated acknowledgement. */
    method MarkReady(i: nat, ghost owed: Owed)
      requires Inv(owed) && IsCurrent(i)
      modifies this`attempts, this`failures
      ensures Inv(owed) && failures == 0 && Progressed()
      ensures attempts == old(attempts)[i := old(attempts)[i].(ready := true)]
    {
      Acknowledged(settings, Now(), owed, i);
      attempts := attempts[i := attempts[i].(ready := true)];
      failures := 0;
    }

    method Acknowledge(i: nat, ghost owed: Owed)
      requires Inv(owed) && IsCurrent(i) && started && !attempts[i].ready
      modifies this
      ensures Inv(owed) && Progressed() && attempts[i].ready
      ensures budget == old(budget) ==> IsCurrent(i) && current == Status(Ready, 0) && failures == 0
      decreases budget, 2
    {
      MarkReady(i, owed);
      ghost var marked := Now();
      LeavingNone(settings, marked, owed, i);
      ClearLiveTimer(i, owed);
      ghost var cleared := Now();
      ProgressChain(old(Now()), marked, cleared);
      Transition(Ready, owed, owed);
      ProgressChain(old(Now()), cleared, Now());
    }

    method Message(i: nat, m: Inbound, ghost owed: Owed, env: Answers)
      requires Inv(owed) && IsCurrent(i) && started
      modifies this
      ensures Inv(owed) && Progressed()
      ensures m == HelloAck ==> attempts[i].ready
      ensures m == HelloAck && !old(attempts)[i].ready && budget == old(budget) ==>
                IsCurrent(i) && current == Status(Ready, 0) && failures == 0
      ensures Ending(m, old(attempts)[i].ready) ==> Ended(i, env)
      ensures !Ending(m, old(attempts)[i].ready) && old(attempts)[i].ready && budget == old(budget) ==> Untouched()
      decreases budget, 6
    {
      if m in {BinaryFrame, InvalidText, Rejected} {
        AttemptFailed(i, owed, env);
      } else if !attempts[i].ready {
        if m == HelloAck {
          Acknowledge(i, owed);
        } else {
          AttemptFailed(i, owed, env);
        }
      } else if m == FatalError {
        AttemptFailed(i, owed, env);
      } else {
        Reenter(owed);  // onFrame
      }
    }

    /** Shifts the oldest queued frame into sendText, which may call back. */
    method SendText(i: nat, ghost owed: Owed)
      requires Inv(owed) && IsCurrent(i) && started && attempts[i].writing && attempts[i].queue != []
      modifies this
      ensures Inv(owed) && Progressed()
      ensures budget == old(budget) ==>
                Now() == old(Now()).(attempts := old(attempts)[i := Shifted(old(attempts)[i])])
      ensures budget < old(budget) || |attempts[i].queue| < |old(attempts)[i].queue|
      decreases budget, 1
    {
      var a := attempts[i];
      assert a.created == (a.sent + [a.queue[0]]) + a.queue[1..];
      Update(i, a.(queue := a.queue[1..], sent := a.sent + [a.queue[0]]), owed);
      ghost var shifted := Now();
      Reenter(owed);
      ProgressChain(old(Now()), shifted, Now());
    }

    /** Sends one queued frame; no room or a throwing transport ends the attempt. */
    method SendNext(i: nat, ghost owed: Owed, env: Answers) returns (proceed: bool)
      requires Inv(owed) && IsCurrent(i) && started && attempts[i].writing && attempts[i].queue != []
      modifies this
      ensures Inv(owed) && Progressed()
      ensures proceed ==> budget < old(budget) || |attempts[i].queue| < |old(attempts)[i].queue|
      ensures !proceed ==> !IsCurrent(i)
      ensures env.smooth ==> proceed
      ensures env.smooth && budget == old(budget) ==>
                Now() == old(Now()).(attempts := old(attempts)[i := Shifted(old(attempts)[i])])
      decreases budget, 6
    {
      var room: bool, threw: bool := *, *;
      room, threw := room || env.smooth, threw && !env.smooth;
      proceed := room && !threw;
      if room {
        SendText(i, owed);
        ghost var shifted := Now();
        if threw {
          AttemptFailed(i, owed, env);
          ProgressChain(old(Now()), shifted, Now());
        }
      } else {
        AttemptFailed(i, owed, env);
      }
    }

    /** Drains the queue in order for as long as the attempt is current. */
    method Drain(i: nat, ghost owed: Owed, env: Answers)
      requires Inv(owed) && IsCurrent(i) && started && attempts[i].writing
      modifies this
      ensures Inv(owed) && Progressed()
      ensures IsCurrent(i) ==> attempts[i].queue == []
      ensures env.smooth && budget == old(budget) ==>
                Now() == old(Now()).(attempts := old(attempts)[i := Drained(old(attempts)[i])])
      decreases budget, 7
    {
      var proceed := true;
      while proceed && IsCurrent(i) && attempts[i].queue != []
        invariant i < |attempts| && started
        invariant Inv(owed) && Progressed()
        invariant !proceed ==> !IsCurrent(i)
        invariant env.smooth ==> proceed
        invariant env.smooth && budget == old(budget) ==> Draining(old(Now()), Now(), i)
        decreases proceed, budget, |attempts[i].queue|
      {
        ghost var before := Now();
        proceed := SendNext(i, owed, env);
        ProgressChain(old(Now()), before, Now());
        if env.smooth && budget == old(budget) { DrainGoesOn(old(Now()), before, Now(), i); }
      }
      if env.smooth && budget == old(budget) { DrainIsOver(old(Now()), Now(), i); }
    }

    /** One effect of the sink bound to attempt `i`. */
    method WriteEffect(i: nat, payload: string, ghost owed: Owed, env: Answers) returns (written: bool)
      requires Inv(owed) && i < |attempts| && (started || stopped)
      modifies this
      ensures Inv(owed) && Interfered()
      ensures written ==> IsCurrent(i) && Accepted(old(attempts)[i], attempts[i], payload)
      ensures !old(IsCurrent(i)) ==> Untouched() && !written
      ensures !written && IsCurrent(i) ==> Untouched()
      ensures var a := old(attempts)[i];
              old(IsCurrent(i)) && a.ready ==>
                && (|a.queue| >= QUEUE_LIMIT ==> Ended(i, env))
                && (|a.queue| < QUEUE_LIMIT && env.encodable ==>
                      Accepted(a, attempts[i], payload) && (written <==> IsCurrent(i)))
                && (|a.queue| < QUEUE_LIMIT && env.encodable && env.smooth && !a.writing && budget == old(budget) ==>
                      written && attempts[i].sent == a.sent + [Frame(|a.created| + 2, payload)])
      decreases budget, 10
    {
      if !IsCurrent(i) || !attempts[i].ready { return false; }
      if |attempts[i].queue| >= QUEUE_LIMIT {
        AttemptFailed(i, owed, env);
        return false;
      }
      if !env.encodable { return false; }  // the session refused the effect
      written := Admit(i, payload, owed, env);
    }

    /** Numbers an effect and sends it, or queues it behind the write in progress. */
    method Admit(i: nat, payload: string, ghost owed: Owed, env: Answers) returns (written: bool)
      requires Inv(owed) && IsCurrent(i) && started && attempts[i].ready && |attempts[i].queue| < QUEUE_LIMIT
      modifies this
      ensures Inv(owed) && Progressed() && (written <==> IsCurrent(i))
      ensures Accepted(old(attempts)[i], attempts[i], payload)
      ensures env.smooth && !old(attempts)[i].writing && budget == old(budget) ==>
                && IsCurrent(i)
                && attempts[i].sent == old(attempts)[i].sent + [Frame(|old(attempts)[i].created| + 2, payload)]
      decreases budget, 9
    {
      var frame := Frame(|attempts[i].created| + 2, payload);
      if attempts[i].writing {
        Enqueue(i, frame, owed);
      } else {
        Pump(i, frame, owed, env);
      }
      return IsCurrent(i);
    }

    /** A write inside a write only queues its frame. */
    method Enqueue(i: nat, frame: Frame, ghost owed: Owed)
      requires Inv(owed) && IsCurrent(i) && attempts[i].ready && attempts[i].writing
      requires frame.seqNo == |attempts[i].created| + 2 && |attempts[i].queue| < QUEUE_LIMIT
      modifies this`attempts
      ensures Inv(owed) && Progressed()
      ensures attempts[i].created == old(attempts)[i].created + [frame]
    {
      var a := attempts[i];
      assert WriterOk(a, live == Some(i));
      Update(i, a.(queue := a.queue + [frame], created := a.created + [frame]), owed);
    }

    /** The outermost write: queues the frame and drains until nothing is left. */
    method Pump(i: nat, frame: Frame, ghost owed: Owed, env: Answers)
      requires Inv(owed) && IsCurrent(i) && started && attempts[i].ready && !attempts[i].writing
      requires frame.seqNo == |attempts[i].created| + 2
      modifies this
      ensures Inv(owed) && Progressed()
      ensures old(attempts)[i].created + [frame] <= attempts[i].created
      ensures env.smooth && budget == old(budget) ==>
                IsCurrent(i) && attempts[i].sent == old(attempts)[i].sent + [frame]
      decreases budget, 8
    {
      var a := attempts[i];
      BeginWrite(i, frame, owed);
      ghost var begun := Now();
      Drain(i, owed, env);
      ghost var drained := Now();
      assert Extends(begun.attempts[i], drained.attempts[i]);
      EndWrite(i, owed);
      WriteIsProgress(old(Now()), begun, drained, Now(), i);
    }

    method BeginWrite(i: nat, frame: Frame, ghost owed: Owed)
      requires Inv(owed) && IsCurrent(i) && attempts[i].ready && !attempts[i].writing
      requires frame.seqNo == |attempts[i].created| + 2
      modifies this`attempts
      ensures Inv(owed)
      ensures var a := old(attempts)[i];
              attempts == old(attempts)[i := a.(queue := [frame], created := a.created + [frame], writing := true)]
    {
      var a := attempts[i];
      assert WriterOk(a, live == Some(i));
      Update(i, a.(queue := [frame], created := a.created + [frame], writing := true), owed);
    }

    /** Frames left when the attempt has ended are dropped. */
    method EndWrite(i: nat, ghost owed: Owed)
      requires Inv(owed) && i < |attempts| && attempts[i].writing && (IsCurrent(i) ==> attempts[i].queue == [])
      modifies this`attempts
      ensures Inv(owed) && attempts == old(attempts)[i := old(attempts)[i].(writing := false, queue := [])]
    {
      assert WriterOk(attempts[i], live == Some(i));
      Update(i, attempts[i].(writing := false, queue := []), owed);
    }

    method SocketOpen(i: nat, ghost owed: Owed, env: Answers)
      requires Inv(owed) && (started || stopped)
      modifies this
      ensures Inv(owed) && Interfered()
      ensures !old(IsCurrent(i)) ==> Untouched()
      ensures old(IsCurrent(i)) ==> attempts[i].hasOpened && (old(attempts)[i].hasOpened ==> Ended(i, env))
      ensures old(IsCurrent(i)) && IsCurrent(i) ==> attempts[i].greeted
      decreases budget, 8
    {
      if IsCurrent(i) { Opened(i, owed, env); }
    }

    method SocketMessage(i: nat, m: Inbound, ghost owed: Owed, env: Answers)
      requires Inv(owed) && (started || stopped)
      modifies this
      ensures Inv(owed) && Interfered()
      ensures !old(IsCurrent(i)) ==> Untouched()
      ensures old(IsCurrent(i)) && Ending(m, old(attempts)[i].ready) ==> Ended(i, env)
      ensures old(IsCurrent(i)) && m == HelloAck ==> attempts[i].ready
      decreases budget, 8
    {
      if IsCurrent(i) { Message(i, m, owed, env); }
    }

    method SocketEnded(i: nat, ghost owed: Owed, env: Answers)
      requires Inv(owed) && (started || stopped)
      modifies this
      ensures Inv(owed) && Interfered()
      ensures !old(IsCurrent(i)) ==> Untouched()
      ensures old(IsCurrent(i)) ==> Ended(i, env)
      decreases budget, 8
    {
      if IsCurrent(i) { AttemptFailed(i, owed, env); }
    }

    /** Arms the handshake timer of the attempt being set up. */
    method ArmLiveTimer(i: nat, accepts: bool)
      requires Inv(HandshakeTimer) && started && IsCurrent(i)
      requires NoWrite()
      modifies this
      ensures Inv(Nothing) && started && NoWrite() && budget <= old(budget)
      ensures |attempts| == |old(attempts)|
      ensures accepts ==> live == Some(i) && current == old(current)
      decreases budget, 4
    {
      if attempts[i].ready { return; }
      if !accepts {
        Fault(Some(i), HandshakeTimer);
        return;
      }
      HandshakeIsArmed(settings, Now(), i);
      var a := attempts[i].(timer := Some(nextHandle));
      clock := clock[nextHandle := HandshakeTimeout(i)];
      attempts := attempts[i := a];
      nextHandle := nextHandle + 1;
    }

    /** Publishes a new attempt under the next generation. */
    method NewAttempt() returns (i: nat)
      requires Inv(RetryTimer) && started && !stopped && live == None && timer == None
      requires NoWrite()
      modifies this`attempts, this`generation, this`live, this`current
      ensures i < |attempts| && IsCurrent(i)
      ensures Inv(HandshakeTimer) && NoWrite()
      ensures i == |old(attempts)| && |attempts| == i + 1 && current.state == Connecting
    {
      ghost var l := Now();
      AttemptIsBuilt(settings, l);
      i := |attempts|;
      generation := generation + 1;
      attempts := attempts + [Fresh(generation)];
      live := Some(i);
      current := Status(Connecting, failures);
      assert Now() == l.(attempts := l.attempts + [Fresh(l.generation + 1)], generation := l.generation + 1,
                         live := Some(|l.attempts|), current := Status(Connecting, l.failures));
    }

    /** The state that a reading parks the link in, if it does not lead to an attempt. */
    predicate Parks(r: Reading, state: LinkState)
      reads this
    {
      if settings.configurationInvalid then state == ConfigurationError
      else if !settings.configured then state == NotConfigured
      else if r.first == Unreadable || (r.first == Active && r.second == Unreadable) then state == Faulted
      else if r.first == OtherEndpoint then state == ConfigurationError
      else if r.first == Inactive || r.second != Active || !r.sameIdentity
      then state == if r.accepts then WaitingForEnrollment else Faulted
      else !r.built && state == Faulted
    }

    predicate Connects(r: Reading)
      reads this
    {
      && !settings.configurationInvalid && settings.configured
      && r.first == Active && r.second == Active && r.sameIdentity && r.built
    }

    /** One attempt more, which is live if the outside lets it, or the state the reading calls for. */
    twostate predicate Drove(r: Reading)
      reads this
    {
      && |attempts| == |old(attempts)| + (if Connects(r) then 1 else 0)
      && (!Connects(r) && !stopped ==> Parks(r, current.state) && live == None)
      && (Connects(r) && r.attaches && r.accepts && budget == old(budget) ==>
            live == Some(|old(attempts)|) && current.state == Connecting)
    }

    /** Starts exactly one attempt, or parks the link in the state the reading calls for. */
    method Drive(r: Reading)
      requires Inv(RetryTimer) && started && !stopped && live == None && timer == None
      requires NoWrite()
      modifies this
      ensures Inv(Nothing) && started && NoWrite() && budget <= old(budget)
      ensures Drove(r)
      decreases budget, 5
    {
      if settings.configurationInvalid {
        Transition(ConfigurationError, RetryTimer, Nothing);
        return;
      }
      if !settings.configured {
        Transition(NotConfigured, RetryTimer, Nothing);
        return;
      }
      if r.first == Unreadable || (r.first == Active && r.second == Unreadable) {
        Fault(None, RetryTimer);
        return;
      }
      if r.first == OtherEndpoint {
        Transition(ConfigurationError, RetryTimer, Nothing);
        return;
      }
      if r.first == Inactive || r.second != Active || !r.sameIdentity {
        Transition(WaitingForEnrollment, RetryTimer, RetryTimer);
        ArmControllerTimer(settings.enrollmentPollMs, r.accepts);
        return;
      }
      if !r.built {
        Fault(None, RetryTimer);
        return;
      }
      Connect(r);
    }

    /** Publishes one attempt, then attaches it unless the observer ended it. */
    method Connect(r: Reading)
      requires Inv(RetryTimer) && started && !stopped && live == None && timer == None
      requires NoWrite()
      modifies this
      ensures Inv(Nothing) && started && NoWrite() && budget <= old(budget)
      ensures |attempts| == |old(attempts)| + 1
      ensures r.attaches && r.accepts && budget == old(budget) ==>
                live == Some(|old(attempts)|) && current.state == Connecting
      decreases budget, 5, 1
    {
      var i := NewAttempt();
      Reenter(HandshakeTimer);  // the status observer
      if IsCurrent(i) { Attach(i, r); }
    }

    /** Attaches the socket handlers and guards the handshake. */
    method Attach(i: nat, r: Reading)
      requires Inv(HandshakeTimer) && started && IsCurrent(i)
      requires NoWrite()
      modifies this
      ensures Inv(Nothing) && started && NoWrite() && budget <= old(budget)
      ensures |attempts| == |old(attempts)|
      ensures r.attaches && r.accepts && budget == old(budget) ==> live == Some(i) && current == old(current)
      ensures budget == old(budget) && !r.attaches && !stopped ==> current.state == Faulted
      decreases budget, 5, 0
    {
      Reenter(HandshakeTimer);  // attach may deliver events at once
      if !IsCurrent(i) { return; }
      if !r.attaches {
        Fault(Some(i), HandshakeTimer);
      } else {
        ArmLiveTimer(i, r.accepts);
      }
    }

    method Start(r: Reading)
      requires Quiescent()
      modifies this
      ensures Quiescent()
      ensures old(started) || old(stopped) ==> Untouched()
      ensures started || stopped
      ensures !old(started) && !old(stopped) ==> Drove(r)
      decreases budget, 6
    {
      if stopped || started { return; }
      started := true;
      Drive(r);
    }

    /** Nothing but the clock's own bookkeeping and the budget has changed. */
    twostate predicate Silent()
      reads this
    {
      Now() == old(Now()).(clock := clock, nextHandle := nextHandle)
    }

    /** The clock calls back once, possibly for a timer that was cleared. */
    method FireTimer(h: nat, r: Reading, env: Answers)
      requires Quiescent() && h in clock && (started || stopped)
      modifies this
      ensures Quiescent() && (started || stopped)
      ensures old(stopped) ==> Silent()
      ensures old(clock)[h].Retry? && old(clock)[h].generation != old(generation) ==> Silent()
      ensures old(clock)[h].HandshakeTimeout? && !old(IsCurrent(clock[h].attempt)) ==> Silent()
      ensures old(clock)[h].HandshakeTimeout? && old(IsCurrent(clock[h].attempt)) ==> Ended(old(clock)[h].attempt, env)
      ensures !old(stopped) && old(clock)[h].Retry? && old(clock)[h].generation == old(generation) ==>
                Drove(r)
    {
      if clock[h].HandshakeTimeout? {
        FireHandshake(h, env);
      } else if stopped || clock[h].generation != generation {
        ForgetStale(h);
      } else {
        TakeRetry(h);
        Drive(r);
      }
    }

    method FireHandshake(h: nat, env: Answers)
      requires Quiescent() && h in clock && clock[h].HandshakeTimeout? && (started || stopped)
      modifies this
      ensures Quiescent() && (started || stopped)
      ensures old(IsCurrent(clock[h].attempt)) ==> Ended(old(clock)[h].attempt, env)
      ensures !old(IsCurrent(clock[h].attempt)) ==> Silent()
    {
      var i := clock[h].attempt;
      if IsCurrent(i) {
        TakeHandshake(h);
        ghost var taken := attempts;
        AttemptFailed(i, HandshakeTimer, env);
        NoneWritingKept(taken, attempts);
      } else {
        ForgetStale(h);
      }
    }

    /** A callback that concerns nothing current is used up. */
    method ForgetStale(h: nat)
      requires Quiescent() && h in clock
      requires clock[h].Retry? ==> stopped || clock[h].generation != generation
      requires clock[h].HandshakeTimeout? ==> !IsCurrent(clock[h].attempt)
      modifies this`clock
      ensures Quiescent()
    {
      StaleIsForgotten(settings, Now(), h);
      clock := clock - {h};
    }

    /** The retry timer is used up: a drive is owed. */
    method TakeRetry(h: nat)
      requires Quiescent() && h in clock && clock[h].Retry? && !stopped && clock[h].generation == generation
      modifies this`clock, this`timer
      ensures Inv(RetryTimer) && NoWrite() && started && live == None && timer == None
    {
      RetryIsTaken(settings, Now(), h);
      clock := clock - {h};
      timer := None;
    }

    /** The live attempt's handshake timer is used up: its end is owed. */
    method TakeHandshake(h: nat)
      requires Quiescent() && h in clock && clock[h].HandshakeTimeout? && IsCurrent(clock[h].attempt)
      modifies this`clock
      ensures Inv(HandshakeTimer) && NoWrite() && started
    {
      HandshakeIsTaken(settings, Now(), h);
      clock := clock - {h};
    }

    /** One event of the outside world, at a moment when no method is running. */
    method Event()
      requires Quiescent()
      modifies this
      ensures Quiescent()
      ensures old(stopped) ==> Silent()
    {
      var calls: nat, h: nat := *, *;
      var fire: bool, r: Reading, env: Answers := *, *, *;
      budget := calls;
      if !started && !stopped {
        if fire { Start(r); } else { Stop(Nothing); }
      } else if fire && h in clock {
        FireTimer(h, r, env);
      } else {
        Perform(Nothing);
      }
    }

    /** Over every run the controller is never stuck, and a stopped one stays silent. */
    method Run(events: nat)
      requires Quiescent()
      modifies this
      ensures Quiescent()
      ensures old(stopped) ==> Silent()
    {
      for k := 0 to events
        invariant Quiescent()
        invariant old(stopped) ==> Silent()
      {
        Event();
      }
    }
  }

  /** Between events exactly one thing is going on, and it cannot be lost: a live
      attempt that is ready or guarded by its handshake timer, or a pending retry
      with a legal delay, or a terminal state. */
  lemma NeverStuck(c: Controller)
    requires c.Quiescent() && c.started && !c.stopped
    ensures var connected := c.live.Some?;
            var retrying := c.timer.Some?;
            var terminal := Terminal(c.current.state);
            && !(connected && retrying) && !(connected && terminal) && !(retrying && terminal)
            && (connected || retrying || terminal)
    ensures c.live.Some? ==> Working(c.current.state)
    ensures c.live.Some? ==>
              && c.IsCurrent(c.live.value)
              && (c.attempts[c.live.value].ready || HandshakeArmed(c.attempts, c.clock, c.live.value))
    ensures c.timer.Some? ==> RetryArmed(c.settings, c.Now())
  {}

  /** On every attempt the transport saw a gap-free prefix of what the session numbered. */
  lemma TransportOrder(c: Controller, i: nat)
    requires c.Quiescent() && i < |c.attempts|
    ensures c.attempts[i].sent <= c.attempts[i].created
    ensures Numbered(c.attempts[i].sent)
    ensures c.attempts[i].queue == []
    ensures c.IsCurrent(i) ==> c.attempts[i].sent == c.attempts[i].created
  {
    assert WriterOk(c.attempts[i], c.live == Some(i));
  }
}
