/** Remote console viewers of one resident: clients lent to the console hub, pending
    promises, and a generation that fences both off when the link ends. */
module ConsoleBridge {

  type ViewerId = nat

  /** A RemoteHubClient; its index in the bridge's table is its identity. */
  datatype Client = Client(
    viewer: ViewerId,
    generation: nat,   // the bridge generation that created it
    closed: bool,
    opening: bool,     // its open request is still being handled
    leaving: bool,     // closed by a detach that has still to tell the hub
    attached: bool,    // the hub broadcasts to it
    everAttached: bool)

  /** A promise reaction that has not run yet. */
  datatype Continuation =
    | Attach(client: nat)  // fenced by the client's own generation
    | Snapshot(client: nat, generation: nat)
    | Media(generation: nat)

  datatype Effect =
    | OpenResult(client: nat)       // a successful viewer.open
    | OperationResult(viewer: ViewerId, ok: bool)
    | Output(client: nat)
    | MediaResult(ok: bool)

  /** What the link's sink does with an effect: refuses it, takes it but ends before it is
      written, or writes it. */
  datatype Answer = Refused | Lost | Written

  /** What the hub does with a new client. */
  datatype Welcome = Throws | Attaches | Defers

  /** An emitted effect and the generation of the request or client behind it. */
  datatype Entry = Entry(effect: Effect, origin: nat)

  datatype Frame =
    | Open(viewer: ViewerId)
    | Close(viewer: ViewerId)
    | Resend(viewer: ViewerId)
    | Input(viewer: ViewerId)
    | MediaGet
    | Unknown

  /** Every console output follows the open result of the same client. */
  predicate Ordered(log: seq<Entry>) {
    forall k :: 0 <= k < |log| && log[k].effect.Output? ==> Opened(log[..k], log[k].effect.client)
  }

  predicate Opened(log: seq<Entry>, c: nat) {
    exists j :: 0 <= j < |log| && log[j].effect == OpenResult(c)
  }

  lemma OpenedGrows(log: seq<Entry>, more: seq<Entry>, c: nat)
    requires log <= more && Opened(log, c)
    ensures Opened(more, c)
  {
    var j :| 0 <= j < |log| && log[j].effect == OpenResult(c);
    assert more[j].effect == OpenResult(c);
  }

  lemma OrderedAppend(log: seq<Entry>, e: Entry)
    requires Ordered(log)
    requires e.effect.Output? ==> Opened(log, e.effect.client)
    ensures Ordered(log + [e]) && log <= log + [e]
    ensures e.effect.OpenResult? ==> Opened(log + [e], e.effect.client)
  {
    var more := log + [e];
    forall k | 0 <= k < |more| && more[k].effect.Output?
      ensures Opened(more[..k], more[k].effect.client)
    {
      assert more[..k] == if k < |log| then log[..k] else log;
    }
    assert more[|log|] == e;
  }

  /** The viewer map holds exactly the unclosed clients, all of this generation. */
  ghost predicate MapOk(viewers: map<ViewerId, nat>, clients: seq<Client>, generation: nat, stopped: bool) {
    && (forall v :: v in viewers ==>
          viewers[v] < |clients| && clients[viewers[v]].viewer == v && !clients[viewers[v]].closed)
    && (forall c :: 0 <= c < |clients| && !clients[c].closed ==>
          !stopped && clients[c].generation == generation
          && clients[c].viewer in viewers && viewers[clients[c].viewer] == c)
  }

  lemma MapUpdate(viewers: map<ViewerId, nat>, clients: seq<Client>, generation: nat, stopped: bool, c: nat, k: Client)
    requires MapOk(viewers, clients, generation, stopped) && c < |clients|
    requires k.viewer == clients[c].viewer && k.generation == clients[c].generation && k.closed == clients[c].closed
    ensures MapOk(viewers, clients[c := k], generation, stopped)
  {
    var after := clients[c := k];
    forall j | 0 <= j < |after| && !after[j].closed
      ensures !stopped && after[j].generation == generation
      ensures after[j].viewer in viewers && viewers[after[j].viewer] == j
    {
      assert !clients[j].closed;
    }
  }

  /** A hub attachment outlives its client only while the attach or a detach is pending. */
  predicate ClientOk(k: Client, attachPending: bool) {
    && (k.attached ==> k.everAttached)
    && (k.opening ==> !k.everAttached && !attachPending)
    && (k.leaving ==> k.closed)
    && (k.attached && k.closed ==> attachPending || k.leaving)
    && (!k.closed && k.everAttached ==> k.attached)
    && (!k.closed && !k.opening && !k.attached ==> attachPending)
  }

  ghost predicate HubOk(clients: seq<Client>, pending: multiset<Continuation>) {
    forall c :: 0 <= c < |clients| ==> ClientOk(clients[c], Attach(c) in pending)
  }

  lemma HubUpdate(clients: seq<Client>, pending: multiset<Continuation>, c: nat, k: Client)
    requires HubOk(clients, pending) && c < |clients| && ClientOk(k, Attach(c) in pending)
    ensures HubOk(clients[c := k], pending)
  {}

  /** A reaction that has run no longer accounts for an attachment. */
  lemma HubSettled(clients: seq<Client>, pending: multiset<Continuation>, c: nat)
    requires HubOk(clients, pending) && c < |clients| && ClientOk(clients[c], false)
    ensures HubOk(clients, pending - multiset{Attach(c)})
  {
    forall k | 0 <= k < |clients|
      ensures ClientOk(clients[k], Attach(k) in pending - multiset{Attach(c)})
    {
      assert k != c ==> (Attach(k) in pending - multiset{Attach(c)} <==> Attach(k) in pending);
    }
  }

  lemma HubAwaits(clients: seq<Client>, pending: multiset<Continuation>, c: nat, k: Client)
    requires HubOk(clients, pending) && c < |clients| && ClientOk(k, true)
    ensures HubOk(clients[c := k], pending + multiset{Attach(c)})
  {
    forall j | 0 <= j < |clients|
      ensures ClientOk(clients[c := k][j], Attach(j) in pending + multiset{Attach(c)})
    {
      assert j != c ==> (Attach(j) in pending + multiset{Attach(c)} <==> Attach(j) in pending);
    }
  }

  /** The clients once all doomed ones are closed; the hub has not been told yet. */
  function CloseAll(clients: seq<Client>, doomed: set<nat>): (after: seq<Client>)
    ensures |after| == |clients|
  {
    seq(|clients|, c requires 0 <= c < |clients| =>
      if c in doomed then clients[c].(closed := true, leaving := true) else clients[c])
  }

  lemma ClosingAllEmptiesTheMap(viewers: map<ViewerId, nat>, clients: seq<Client>, before: nat,
                                generation: nat, stopped: bool, pending: multiset<Continuation>)
    requires MapOk(viewers, clients, before, false) && HubOk(clients, pending)
    ensures MapOk(map[], CloseAll(clients, viewers.Values), generation, stopped)
    ensures HubOk(CloseAll(clients, viewers.Values), pending)
    ensures forall c :: 0 <= c < |clients| ==> CloseAll(clients, viewers.Values)[c].closed
  {
    forall c | 0 <= c < |clients|
      ensures CloseAll(clients, viewers.Values)[c].closed
      ensures ClientOk(CloseAll(clients, viewers.Values)[c], Attach(c) in pending)
    {
      if !clients[c].closed {
        assert viewers[clients[c].viewer] in viewers.Values;
      }
    }
  }

  /** The first loop of a detach: every client is closed before the hub hears of any. */
  method CloseEach(clients: seq<Client>, doomed: set<nat>) returns (after: seq<Client>)
    ensures after == CloseAll(clients, doomed)
  {
    after := clients;
    for c := 0 to |clients|
      invariant |after| == |clients|
      invariant forall k :: 0 <= k < c ==> after[k] == CloseAll(clients, doomed)[k]
      invariant forall k :: c <= k < |after| ==> after[k] == clients[k]
    {
      if c in doomed {
        after := after[c := after[c].(closed := true, leaving := true)];
      }
    }
  }

  lemma MapBack(viewers: map<ViewerId, nat>, v: ViewerId, c: nat)
    requires v !in viewers
    ensures viewers[v := c] - {v} == viewers
  {}

  /** The map without viewer `v`, if `c` is the client it names. */
  function Without(viewers: map<ViewerId, nat>, v: ViewerId, c: nat): map<ViewerId, nat> {
    if v in viewers && viewers[v] == c then viewers - {v} else viewers
  }

  lemma RemovalKeepsMap(viewers: map<ViewerId, nat>, clients: seq<Client>, generation: nat, stopped: bool, c: nat)
    requires MapOk(viewers, clients, generation, stopped) && c < |clients|
    ensures MapOk(Without(viewers, clients[c].viewer, c),
                  clients[c := clients[c].(closed := true, attached := false)], generation, stopped)
  {
    var after := clients[c := clients[c].(closed := true, attached := false)];
    forall k | 0 <= k < |after| && !after[k].closed
      ensures !stopped && after[k].generation == generation
              && after[k].viewer in Without(viewers, clients[c].viewer, c)
              && Without(viewers, clients[c].viewer, c)[after[k].viewer] == k
    {
      assert !clients[k].closed;
    }
  }

  predicate ContinuationOk(p: Continuation, clients: nat, generation: nat) {
    match p
    case Attach(c) => c < clients
    case Snapshot(c, g) => c < clients && g <= generation
    case Media(g) => g <= generation
  }

  ghost predicate Known(pending: multiset<Continuation>, clients: nat, generation: nat) {
    forall p :: p in pending ==> ContinuationOk(p, clients, generation)
  }

  /** Output follows the open result, and every client in use has one. */
  predicate LogOk(log: seq<Entry>, clients: seq<Client>) {
    && Ordered(log)
    && (forall c :: 0 <= c < |clients| && !clients[c].closed && !clients[c].opening ==> Opened(log, c))
  }

  lemma LogUpdate(log: seq<Entry>, clients: seq<Client>, c: nat, k: Client)
    requires LogOk(log, clients) && c < |clients| && (!k.closed && !k.opening ==> Opened(log, c))
    ensures LogOk(log, clients[c := k])
  {}

  predicate SameViewer(before: Client, after: Client) {
    before.viewer == after.viewer && before.generation == after.generation && (before.closed ==> after.closed)
  }

  /** Other requests leave a suspended open or detach alone, except that they may close the
      client, and leave none of their own behind. */
  ghost predicate KeptFrom(before: seq<Client>, after: seq<Client>) {
    Leaves(before, after, {})
  }

  /** The same, with the detaching of `gone` finished. */
  ghost predicate Leaves(before: seq<Client>, after: seq<Client>, gone: set<nat>) {
    && |before| <= |after|
    && (forall c :: |before| <= c < |after| ==> !after[c].opening && !after[c].leaving)
    && (forall c :: 0 <= c < |before| ==> StillThere(before[c], after[c], c in gone))
  }

  predicate StillThere(before: Client, after: Client, gone: bool) {
    SameViewer(before, after) && before.opening == after.opening && after.leaving == (before.leaving && !gone)
  }

  lemma LeavesChain(a: seq<Client>, b: seq<Client>, c: seq<Client>, gone: set<nat>)
    requires Leaves(a, b, gone) && KeptFrom(b, c)
    ensures Leaves(a, c, gone)
  {
    forall k | 0 <= k < |a|
      ensures StillThere(a[k], c[k], k in gone)
    {
      assert StillThere(a[k], b[k], k in gone) && StillThere(b[k], c[k], false);
    }
    forall k | |a| <= k < |c|
      ensures !c[k].opening && !c[k].leaving
    {
      if k < |b| { assert StillThere(b[k], c[k], false); }
    }
  }

  lemma LeavesStep(start: seq<Client>, before: seq<Client>, gone: set<nat>, c: nat, after: seq<Client>, now: set<nat>)
    requires Leaves(start, before, gone) && c < |start| && now == gone + {c}
    requires KeptFrom(before[c := before[c].(attached := false, leaving := false)], after)
    ensures Leaves(start, after, now)
  {
    var told := before[c := before[c].(attached := false, leaving := false)];
    forall k | 0 <= k < |start|
      ensures StillThere(start[k], told[k], k in now)
    {
      assert StillThere(start[k], before[k], k in gone);
    }
    LeavesChain(start, told, after, now);
  }

  lemma KeptUpdate(clients: seq<Client>, c: nat, k: Client)
    requires c < |clients| && StillThere(clients[c], k, false)
    ensures KeptFrom(clients, clients[c := k])
  {}

  /** The clients after an attach settled: its client stays as it was, or is closed and off the hub. */
  function Judged(clients: seq<Client>, c: nat, ok: bool): seq<Client>
    requires c < |clients|
  {
    if ok && !clients[c].closed then clients else clients[c := clients[c].(closed := true, attached := false)]
  }

  lemma JudgedIsKept(clients: seq<Client>, c: nat, ok: bool)
    requires c < |clients|
    ensures KeptFrom(clients, Judged(clients, c, ok))
  {
    KeptUpdate(clients, c, Judged(clients, c, ok)[c]);
    assert clients[c := clients[c]] == clients;
  }

  /** Closing the doomed and then finishing their detaches leaves nothing behind. */
  lemma DetachLeavesNothingBehind(start: seq<Client>, doomed: set<nat>, finished: seq<Client>)
    requires Leaves(CloseAll(start, doomed), finished, doomed)
    requires forall c :: 0 <= c < |start| && c in doomed ==> !start[c].closed && !start[c].leaving
    ensures KeptFrom(start, finished)
  {
    forall c | 0 <= c < |start|
      ensures StillThere(start[c], finished[c], false)
    {
      assert StillThere(CloseAll(start, doomed)[c], finished[c], c in doomed);
    }
  }

  lemma OpenLeavesNothingBehind(start: seq<Client>, registered: seq<Client>, resumed: seq<Client>,
                                finished: seq<Client>)
    requires |registered| == |start| + 1 && registered[..|start|] == start
    requires KeptFrom(registered, resumed)
    requires |finished| == |resumed| && !finished[|start|].opening && !finished[|start|].leaving
    requires forall k :: 0 <= k < |resumed| && k != |start| ==> finished[k] == resumed[k]
    ensures KeptFrom(start, finished)
  {
    forall c | 0 <= c < |start|
      ensures StillThere(start[c], finished[c], false)
    {
      assert registered[..|start|][c] == start[c];
      assert StillThere(registered[c], resumed[c], false);
    }
  }

  class Bridge {
    var viewers: map<ViewerId, nat>
    var generation: nat
    var stopped: bool
    var clients: seq<Client>
    var pending: multiset<Continuation>
    var log: seq<Entry>
    var budget: nat  // synchronous calls the transport will still make

    ghost predicate Inv()
      reads this
    {
      && MapOk(viewers, clients, generation, stopped) && HubOk(clients, pending)
      && Known(pending, |clients|, generation) && LogOk(log, clients)
    }

    /** Time only moves on: nothing reopens, and whatever is emitted from now on
        belongs to this generation or a later one. */
    twostate predicate Moved()
      reads this
    {
      && old(generation) <= generation
      && (old(stopped) ==> stopped && log == old(log))
      && |old(clients)| <= |clients|
      && old(log) <= log
      && (forall k :: |old(log)| <= k < |log| ==> old(generation) <= log[k].origin)
      && budget <= old(budget)
    }

    twostate predicate Kept()
      reads this
    {
      KeptFrom(old(clients), clients)
    }

    predicate IsCurrent(g: nat)
      reads this
    {
      !stopped && g == generation
    }

    constructor (budget: nat)
      ensures Inv() && Settled() && !stopped && log == []
    {
      viewers, generation, stopped, clients, pending, log := map[], 1, false, [], multiset{}, [];
      this.budget := budget;
    }

    /** No request and no detach is being handled. */
    ghost predicate Settled()
      reads this
    {
      forall c :: 0 <= c < |clients| ==> !clients[c].opening && !clients[c].leaving
    }

    /** Nothing but the reactions and the log has changed. */
    twostate predicate Still()
      reads this
    {
      viewers == old(viewers) && generation == old(generation) && stopped == old(stopped) && clients == old(clients)
    }

    /** The effect is the next one in the log unless the sink refused it, and the only one
        unless the sink called back. */
    twostate predicate Offered(effect: Effect, origin: nat, answer: Answer)
      reads this
    {
      && (answer != Refused ==> old(log) + [Entry(effect, origin)] <= log)
      && (budget == old(budget) ==> log == old(log) + if answer == Refused then [] else [Entry(effect, origin)])
    }

    /** The transport runs before a write returns. */
    method Reenter()
      requires Inv()
      modifies this
      ensures Inv() && Moved() && Kept()
      ensures budget == old(budget) ==> Still() && pending == old(pending) && log == old(log)
      decreases budget, 0
    {
      if budget == 0 { return; }
      var more: bool := *;
      if !more { return; }
      budget := budget - 1;
      Perform();
      Reenter();
    }

    /** One synchronous call: a frame, a lifecycle change, or work of the hub. */
    method Perform()
      requires Inv()
      modifies this
      ensures Inv() && Moved() && Kept()
      decreases budget, 9
    {
      var which: int, c: nat, f: Frame := *, *, *;
      var answer: Answer, welcome: Welcome := *, *;
      if which == 0 {
        Disconnect();
      } else if which == 1 {
        Stop();
      } else if which == 2 && c < |clients| {
        Send(c, answer);
      } else if which == 3 && Attach(c) in pending {
        HubAttach(c);
      } else {
        HandleFrame(f, answer, welcome);
      }
    }

    /** Forgets a client: unmapped, closed and removed from the hub. */
    method Remove(c: nat)
      requires Inv() && c < |clients|
      modifies this`viewers, this`clients
      ensures Inv() && Kept() && viewers == Without(old(viewers), old(clients)[c].viewer, c)
      ensures clients == old(clients)[c := old(clients)[c].(closed := true, attached := false)]
    {
      KeptUpdate(clients, c, clients[c].(closed := true, attached := false));
      RemovalKeepsMap(viewers, clients, generation, stopped, c);
      HubUpdate(clients, pending, c, clients[c].(closed := true, attached := false));
      LogUpdate(log, clients, c, clients[c].(closed := true, attached := false));
      viewers := Without(viewers, clients[c].viewer, c);
      clients := clients[c := clients[c].(closed := true, attached := false)];
    }

    /** Hands one effect to the link's sink, which may refuse it, and may call back either
        way. The session refuses output of a viewer whose open result it has not made. */
    method Emit(effect: Effect, origin: nat, answer: Answer) returns (written: bool)
      requires Inv() && IsCurrent(origin)
      requires effect.Output? ==> effect.client < |clients| && !clients[effect.client].closed
      modifies this
      ensures Inv() && Moved() && Kept() && (budget == old(budget) ==> Still() && pending == old(pending))
      ensures Offered(effect, origin, if old(Sendable(effect)) then answer else Refused)
      ensures written <==> answer == Written && old(Sendable(effect))
      decreases budget, 1
    {
      var taken := answer != Refused && Sendable(effect);
      if taken { Append(Entry(effect, origin)); }
      Reenter();
      return taken && answer == Written;
    }

    /** Output of a client whose open is still being handled needs its open result first. */
    predicate Sendable(effect: Effect)
      reads this
    {
      effect.Output? && effect.client < |clients| && clients[effect.client].opening ==> Opened(log, effect.client)
    }

    method Append(e: Entry)
      requires Inv() && IsCurrent(e.origin)
      requires e.effect.Output? ==> Opened(log, e.effect.client)
      modifies this`log
      ensures Inv() && Moved() && log == old(log) + [e]
    {
      OrderedAppend(log, e);
      forall c | 0 <= c < |clients| && !clients[c].closed && !clients[c].opening
        ensures Opened(log + [e], c)
      {
        OpenedGrows(log, log + [e], c);
      }
      log := log + [e];
    }

    method HandleFrame(f: Frame, answer: Answer, welcome: Welcome)
      requires Inv()
      modifies this
      ensures Inv() && Moved() && Kept()
      ensures !old(stopped) ==>
                match f
                case Open(v) => OpenHandled(v, answer, welcome)
                case Close(v) => CloseHandled(v, answer)
                case Resend(v) => ResendHandled(v, answer)
                case MediaGet => Still() && log == old(log) && pending == old(pending) + multiset{Media(generation)}
                case _ => Still() && log == old(log) && pending == old(pending)
      ensures old(stopped) ==> Still() && log == old(log) && pending == old(pending)
      decreases budget, 8
    {
      if stopped { return; }
      match f
      case Open(v) => OpenViewer(v, answer, welcome);
      case Close(v) => CloseViewer(v, answer);
      case Resend(v) => ResendSnapshot(v, answer);
      case Input(v) => // the hub may answer through Send
      case MediaGet => pending := pending + multiset{Media(generation)};
      case Unknown =>
    }

    /** A mapped viewer is refused. A new one gets a client whose success is reported first; the
        client is in use, with its attach awaited, when the report was written, the hub took it
        and nothing came in between, and is closed when the report was not written. */
    twostate predicate OpenHandled(v: ViewerId, answer: Answer, welcome: Welcome)
      reads this
    {
      var c := |old(clients)|;
      if v in old(viewers) then
        && Offered(OperationResult(v, false), old(generation), answer)
        && (budget == old(budget) ==> Still() && pending == old(pending))
      else
        && Offered(OpenResult(c), old(generation), answer)
        && c < |clients| && clients[c].viewer == v && clients[c].generation == old(generation)
        && (answer != Written ==> clients[c].closed)
        && (budget == old(budget) && answer == Written && welcome != Throws ==>
              && !clients[c].closed && clients[c].attached == (welcome == Attaches)
              && viewers == old(viewers)[v := c] && pending == old(pending) + multiset{Attach(c)})
        && (budget == old(budget) && (answer != Written || welcome == Throws) ==>
              clients[c].closed && viewers == old(viewers) && pending == old(pending))
    }

    /** Maps a client, reports success, and then lends the client to the hub, unless the
        report failed or re-entry overtook it. */
    method OpenViewer(v: ViewerId, answer: Answer, welcome: Welcome)
      requires Inv() && !stopped
      modifies this
      ensures Inv() && Moved() && Kept() && OpenHandled(v, answer, welcome)
      ensures v !in old(viewers) ==> clients[|old(clients)|].closed || Opened(log, |old(clients)|)
      decreases budget, 7
    {
      if v in viewers {
        var _ := Emit(OperationResult(v, false), generation, answer);
      } else {
        OpenFresh(v, answer, welcome);
      }
    }

    method OpenFresh(v: ViewerId, answer: Answer, welcome: Welcome)
      requires Inv() && !stopped && v !in viewers
      modifies this
      ensures Inv() && Moved() && Kept() && OpenHandled(v, answer, welcome)
      ensures clients[|old(clients)|].closed || Opened(log, |old(clients)|)
      decreases budget, 6
    {
      var c := Register(v);
      ghost var registered := clients;
      MapBack(old(viewers), v, c);
      var written := Report(c, answer);
      ghost var resumed := clients;
      FinishOpen(c, written, welcome);
      OpenLeavesNothingBehind(old(clients), registered, resumed, clients);
    }

    /** Reports the success of an open that is being handled. */
    method Report(c: nat, answer: Answer) returns (written: bool)
      requires Inv() && c < |clients| && clients[c].opening && !clients[c].leaving && IsCurrent(generation)
      modifies this
      ensures Inv() && Moved() && Kept() && Offered(OpenResult(c), old(generation), answer)
      ensures budget == old(budget) ==> Still() && pending == old(pending)
      ensures written <==> answer == Written
      ensures written ==> Opened(log, c)
      ensures c < |clients| && StillThere(old(clients)[c], clients[c], false)
      decreases budget, 5
    {
      written := Emit(OpenResult(c), generation, answer);
      assert written ==> log[|old(log)|].effect == OpenResult(c);
    }

    /** The client goes if its result was not written, and joins the hub if it was. */
    method FinishOpen(c: nat, written: bool, welcome: Welcome)
      requires Inv() && c < |clients| && clients[c].opening && !clients[c].leaving && (written ==> Opened(log, c))
      modifies this`clients, this`viewers, this`pending
      ensures Inv() && |clients| == |old(clients)| && !clients[c].opening && !clients[c].leaving
      ensures forall k :: 0 <= k < |clients| && k != c ==> clients[k] == old(clients)[k]
      ensures SameViewer(old(clients)[c], clients[c])
      ensures Joined(c, written && welcome != Throws, welcome)
    {
      if !written { Remove(c); }
      Join(c, welcome);
    }

    /** An unclosed client was lent to the hub, or removed. */
    twostate predicate Joined(c: nat, lent: bool, welcome: Welcome)
      reads this
      requires c < |old(clients)| && c < |clients|
    {
      var k := old(clients)[c];
      if !k.closed && lent then
        && !clients[c].closed && clients[c].attached == (welcome == Attaches)
        && viewers == old(viewers) && pending == old(pending) + multiset{Attach(c)}
      else
        && clients[c].closed && pending == old(pending)
        && viewers == if k.closed then old(viewers) else old(viewers) - {k.viewer}
    }

    /** Maps a fresh client; nothing has been reported yet. */
    method Register(v: ViewerId) returns (c: nat)
      requires Inv() && !stopped && v !in viewers
      modifies this`clients, this`viewers
      ensures Inv() && Moved() && c == |old(clients)| && |clients| == c + 1
      ensures clients == old(clients) + [Client(v, generation, false, true, false, false, false)]
      ensures clients[..c] == old(clients) && viewers == old(viewers)[v := c]
    {
      c := |clients|;
      viewers := viewers[v := c];
      clients := clients + [Client(v, generation, false, true, false, false, false)];
    }

    /** Attaches the client unless re-entry already closed or replaced it. */
    method Join(c: nat, welcome: Welcome)
      requires Inv() && c < |clients| && clients[c].opening && !clients[c].leaving
                && (clients[c].closed || Opened(log, c))
      modifies this`clients, this`viewers, this`pending
      ensures Inv() && |clients| == |old(clients)| && !clients[c].opening && !clients[c].leaving
      ensures forall k :: 0 <= k < |clients| && k != c ==> clients[k] == old(clients)[k]
      ensures SameViewer(old(clients)[c], clients[c])
      ensures Joined(c, welcome != Throws, welcome)
    {
      var k := clients[c];
      if !IsCurrent(k.generation) || k.closed || !(k.viewer in viewers && viewers[k.viewer] == c) {
        Put(c, k.(opening := false));
      } else if welcome == Throws {
        Remove(c);
        Put(c, clients[c].(opening := false));
      } else {
        Lend(c, welcome == Attaches);
      }
    }

    /** Changes a client without moving or closing it. */
    method Put(c: nat, k: Client)
      requires Inv() && c < |clients| && ClientOk(k, Attach(c) in pending)
      requires k.viewer == clients[c].viewer && k.generation == clients[c].generation && k.closed == clients[c].closed
      requires !k.closed && !k.opening ==> Opened(log, c)
      modifies this`clients
      ensures Inv() && clients == old(clients)[c := k]
    {
      HubUpdate(clients, pending, c, k);
      LogUpdate(log, clients, c, k);
      MapUpdate(viewers, clients, generation, stopped, c, k);
      clients := clients[c := k];
    }

    /** hub.addClient: attached now or later, and awaited either way. */
    method Lend(c: nat, now: bool)
      requires Inv() && c < |clients| && clients[c].opening && Opened(log, c)
      modifies this`clients, this`pending
      ensures Inv() && pending == old(pending) + multiset{Attach(c)}
      ensures clients == old(clients)[c := old(clients)[c].(opening := false, attached := now, everAttached := now)]
    {
      var k := clients[c].(opening := false, attached := now, everAttached := now);
      HubAwaits(clients, pending, c, k);
      LogUpdate(log, clients, c, k);
      MapUpdate(viewers, clients, generation, stopped, c, k);
      pending := pending + multiset{Attach(c)};
      clients := clients[c := k];
    }

    /** Closing answers whether the viewer was known, and takes its client off. */
    twostate predicate CloseHandled(v: ViewerId, answer: Answer)
      reads this
    {
      && Offered(OperationResult(v, v in old(viewers)), old(generation), answer)
      && (v in old(viewers) && old(viewers)[v] < |clients| ==> clients[old(viewers)[v]].closed)
      && (budget == old(budget) ==> viewers == old(viewers) - {v} && pending == old(pending))
    }

    method CloseViewer(v: ViewerId, answer: Answer)
      requires Inv() && !stopped
      modifies this
      ensures Inv() && Moved() && Kept() && CloseHandled(v, answer)
      ensures v in old(viewers) ==> old(viewers)[v] < |clients|
      decreases budget, 7
    {
      var known := v in viewers;
      if known { Remove(viewers[v]); }
      ghost var removed := clients;
      var _ := Emit(OperationResult(v, known), generation, answer);
      if known {
        LeavesChain(old(clients), removed, clients, {});
        assert StillThere(removed[old(viewers)[v]], clients[old(viewers)[v]], false);
      }
    }

    /** A known viewer's snapshot is awaited; an unknown viewer is refused. */
    twostate predicate ResendHandled(v: ViewerId, answer: Answer)
      reads this
    {
      if v in old(viewers)
      then Still() && log == old(log) && pending == old(pending) + multiset{Snapshot(old(viewers)[v], generation)}
      else
        && Offered(OperationResult(v, false), old(generation), answer)
        && (budget == old(budget) ==> Still() && pending == old(pending))
    }

    method ResendSnapshot(v: ViewerId, answer: Answer)
      requires Inv() && !stopped
      modifies this
      ensures Inv() && Moved() && Kept() && ResendHandled(v, answer)
      decreases budget, 7
    {
      if v !in viewers {
        var _ := Emit(OperationResult(v, false), generation, answer);
      } else {
        pending := pending + multiset{Snapshot(viewers[v], generation)};
      }
    }

    /** client.send, called by the hub on any client it was ever given. */
    method Send(c: nat, answer: Answer)
      requires Inv() && c < |clients|
      modifies this
      ensures Inv() && Moved() && Kept()
      ensures old(clients)[c].closed ==> Still() && log == old(log) && pending == old(pending)
      ensures !old(clients)[c].closed && old(Sendable(Output(c))) ==>
                && Offered(Output(c), old(clients)[c].generation, answer)
                && (answer != Written ==> clients[c].closed)
                && (answer == Written && budget == old(budget) ==> Still() && pending == old(pending))
      ensures !old(clients)[c].closed && !old(Sendable(Output(c))) ==> clients[c].closed
      decreases budget, 7
    {
      if clients[c].closed { return; }
      var written := Emit(Output(c), clients[c].generation, answer);
      if written { return; }
      ghost var resumed := clients;
      Drop(c);
      LeavesChain(old(clients), resumed, clients, {});
    }

    /** A client whose write failed goes, unless re-entry already replaced it. */
    method Drop(c: nat)
      requires Inv() && c < |clients|
      modifies this`viewers, this`clients
      ensures Inv() && Kept() && clients[c].closed && |clients| == |old(clients)|
    {
      var v := clients[c].viewer;
      if v in viewers && viewers[v] == c {
        Remove(c);
      } else {
        KeptUpdate(clients, c, clients[c]);
      }
    }

    /** A deferred hub attaches a client it was given earlier. */
    method HubAttach(c: nat)
      requires Inv() && Attach(c) in pending
      modifies this`clients
      ensures Inv() && Moved() && Kept()
    {
      Put(c, clients[c].(attached := true, everAttached := true));
    }

    /** Nothing of an earlier generation is emitted from here on, not even while the hub is
        told; only viewers opened meanwhile are mapped. */
    method Disconnect()
      requires Inv()
      modifies this
      ensures Inv() && Moved() && Kept()
      ensures !old(stopped) ==> old(generation) < generation
      ensures forall c :: 0 <= c < |old(clients)| ==> clients[c].closed
      ensures forall k :: |old(log)| <= k < |log| ==> old(generation) < log[k].origin
      decreases budget, 7
    {
      if stopped { return; }
      generation := generation + 1;
      DetachAll(old(generation));
    }

    method Stop()
      requires Inv()
      modifies this
      ensures Inv() && Moved() && Kept() && stopped && viewers == map[] && log == old(log)
      decreases budget, 7
    {
      if stopped { return; }
      stopped := true;
      generation := generation + 1;
      DetachAll(old(generation));
    }

    /** Closes every mapped client, and only then tells the hub of each. */
    method DetachAll(ghost before: nat)
      requires MapOk(viewers, clients, before, false) && HubOk(clients, pending)
      requires Known(pending, |clients|, generation) && LogOk(log, clients)
      modifies this
      ensures Inv() && Moved() && Kept()
      ensures forall c :: 0 <= c < |old(clients)| ==> clients[c].closed
      decreases budget, 6
    {
      var doomed := CloseMapped(before);
      ghost var closed := clients;
      DetachEach(doomed);
      DetachLeavesNothingBehind(old(clients), doomed, clients);
      forall c | 0 <= c < |old(clients)|
        ensures clients[c].closed
      {
        assert StillThere(closed[c], clients[c], c in doomed);
      }
    }

    method CloseMapped(ghost before: nat) returns (doomed: set<nat>)
      requires MapOk(viewers, clients, before, false) && HubOk(clients, pending)
      requires Known(pending, |clients|, generation) && LogOk(log, clients)
      modifies this`viewers, this`clients
      ensures Inv() && viewers == map[] && clients == CloseAll(old(clients), doomed)
      ensures forall c :: 0 <= c < |clients| ==> clients[c].closed
      ensures forall c <- doomed :: c < |clients| && !old(clients)[c].closed && !old(clients)[c].leaving
    {
      ClosingAllEmptiesTheMap(viewers, clients, before, generation, stopped, pending);
      doomed := viewers.Values;
      assert forall c <- doomed :: c < |clients| && ClientOk(clients[c], Attach(c) in pending);
      viewers := map[];
      clients := CloseEach(clients, doomed);
    }

    /** The second loop: the hub may call back at each removal. */
    method DetachEach(doomed: set<nat>)
      requires Inv() && forall c <- doomed :: c < |clients| && clients[c].leaving
      modifies this
      ensures Inv() && Moved() && Leaves(old(clients), clients, doomed)
      decreases budget, 5
    {
      var rest := doomed;
      ghost var gone: set<nat> := {};
      while rest != {}
        invariant gone + rest == doomed && gone !! rest && Inv() && Moved()
        invariant Leaves(old(clients), clients, gone)
        decreases rest
      {
        var c :| c in rest;
        assert StillThere(old(clients)[c], clients[c], false);
        ghost var before := clients;
        DetachHub(c);
        rest, gone := rest - {c}, gone + {c};
        LeavesStep(old(clients), before, gone - {c}, c, clients, gone);
      }
      assert gone == doomed;
    }

    method DetachHub(c: nat)
      requires Inv() && c < |clients| && clients[c].leaving
      modifies this
      ensures Inv() && Moved()
      ensures KeptFrom(old(clients)[c := old(clients)[c].(attached := false, leaving := false)], clients)
      decreases budget, 1
    {
      Put(c, clients[c].(attached := false, leaving := false));
      Reenter();
    }

    /** A pending reaction runs; `ok` tells whether its promise was fulfilled, and `sent` what a
        snapshot was fulfilled with. */
    method Resolve(p: Continuation, ok: bool, sent: bool, answer: Answer)
      requires Inv() && p in pending
      requires p.Attach? && ok ==> clients[p.client].everAttached
      modifies this
      ensures Inv() && Moved() && Kept()
      ensures !old(IsCurrent(OriginOf(p))) ==> log == old(log)
      ensures p.Media? && old(IsCurrent(p.generation)) ==> Offered(MediaResult(ok), p.generation, answer)
      ensures p.Snapshot? ==> SnapshotHandled(p.client, p.generation, ok, sent, answer)
      ensures p.Attach? ==> log == old(log) && clients == Judged(old(clients), p.client, ok)
    {
      match p
      case Attach(c) => ResolveAttach(c, ok);
      case Snapshot(c, g) => ResolveSnapshot(c, g, ok, sent, answer);
      case Media(g) =>
        Take(p);
        if IsCurrent(g) {
          var _ := Emit(MediaResult(ok), g, answer);
        }
    }

    ghost function OriginOf(p: Continuation): nat
      requires Inv() && p in pending
      reads this
    {
      match p
      case Attach(c) => clients[c].generation
      case Snapshot(_, g) => g
      case Media(g) => g
    }

    /** Takes a reaction that does not account for an attachment off the list. */
    method Take(p: Continuation)
      requires Inv() && p in pending && !p.Attach?
      modifies this`pending
      ensures Inv() && Moved() && Kept() && pending == old(pending) - multiset{p}
    {
      assert forall c :: Attach(c) in pending - multiset{p} <==> Attach(c) in pending;
      pending := pending - multiset{p};
    }

    /** The attach of a client that is accounted for has run. */
    method Await(c: nat)
      requires Inv() && Attach(c) in pending && ClientOk(clients[c], false)
      modifies this`pending
      ensures Inv() && pending == old(pending) - multiset{Attach(c)}
    {
      HubSettled(clients, pending, c);
      pending := pending - multiset{Attach(c)};
    }

    method ResolveAttach(c: nat, ok: bool)
      requires Inv() && Attach(c) in pending
      requires ok ==> clients[c].everAttached
      modifies this`viewers, this`clients, this`pending
      ensures Inv() && Moved() && Kept() && pending == old(pending) - multiset{Attach(c)}
      ensures clients == Judged(old(clients), c, ok)
    {
      assert ClientOk(clients[c], Attach(c) in pending);
      Review(c, ok);
      JudgedIsKept(old(clients), c, ok);
      Await(c);
    }

    /** Keeps the client of a settled attach if it is still the viewer's, and removes it if not. */
    method Review(c: nat, ok: bool)
      requires Inv() && c < |clients| && ClientOk(clients[c], true)
      requires ok ==> clients[c].everAttached
      modifies this`viewers, this`clients
      ensures Inv() && clients == Judged(old(clients), c, ok) && ClientOk(clients[c], false)
    {
      var k := clients[c];
      if !ok || !IsCurrent(k.generation) || k.closed || !(k.viewer in viewers && viewers[k.viewer] == c) {
        Remove(c);
      }
    }

    /** A snapshot of the current generation is answered once with whether it was sent, unless it
        was fulfilled for a client that is no longer the viewer's; if it was not sent its client
        goes. Any other is silent. */
    twostate predicate SnapshotHandled(c: nat, g: nat, ok: bool, sent: bool, answer: Answer)
      reads this
    {
      c < |old(clients)| && |old(clients)| <= |clients| ==>
        var v := old(clients)[c].viewer;
        var due := old(IsCurrent(g)) && (ok ==> v in old(viewers) && old(viewers)[v] == c);
        && (due ==> Offered(OperationResult(v, ok && sent), g, answer))
        && (due && !(ok && sent) ==> clients[c].closed)
        && (due && ok && sent && budget == old(budget) ==> Still())
        && (!due ==> Still() && log == old(log))
    }

    method ResolveSnapshot(c: nat, g: nat, ok: bool, sent: bool, answer: Answer)
      requires Inv() && Snapshot(c, g) in pending
      modifies this
      ensures Inv() && Moved() && Kept()
      ensures !old(IsCurrent(g)) ==> log == old(log)
      ensures SnapshotHandled(c, g, ok, sent, answer)
    {
      Take(Snapshot(c, g));
      var v := clients[c].viewer;
      if !IsCurrent(g) { return; }
      if ok && !(v in viewers && viewers[v] == c) { return; }
      Conclude(c, g, ok && sent, answer);
    }

    /** Reports a snapshot; a failed one takes its client along. */
    method Conclude(c: nat, g: nat, ok: bool, answer: Answer)
      requires Inv() && c < |clients| && IsCurrent(g)
      modifies this
      ensures Inv() && Moved() && Kept()
      ensures Offered(OperationResult(old(clients)[c].viewer, ok), g, answer)
      ensures |old(clients)| <= |clients| && (!ok ==> clients[c].closed)
      ensures ok && budget == old(budget) ==> Still()
    {
      if !ok { Remove(c); }
      ghost var removed := clients;
      var _ := Emit(OperationResult(clients[c].viewer, ok), g, answer);
      LeavesChain(old(clients), removed, clients, {});
      assert StillThere(removed[c], clients[c], false);
    }

    /** One event while no request is being handled. */
    method Event()
      requires Inv() && Settled()
      modifies this
      ensures Inv() && Settled() && old(log) <= log && old(generation) <= generation
      ensures forall k :: |old(log)| <= k < |log| ==> old(generation) <= log[k].origin
      ensures old(stopped) ==> stopped && log == old(log)
    {
      var calls: nat, react: bool, ok: bool, sent: bool := *, *, *, *;
      var p: Continuation, answer: Answer := *, *;
      budget := calls;
      if react && p in pending && (p.Attach? && ok ==> clients[p.client].everAttached) {
        Resolve(p, ok, sent, answer);
      } else {
        Perform();
      }
    }
  }

  /** Over any run, whatever is emitted belongs to a generation current since its start. */
  method Run(b: Bridge, events: nat)
    requires b.Inv() && b.Settled()
    modifies b
    ensures b.Inv() && b.Settled() && old(b.log) <= b.log && old(b.generation) <= b.generation
    ensures forall k :: |old(b.log)| <= k < |b.log| ==> old(b.generation) <= b.log[k].origin
    ensures old(b.stopped) ==> b.stopped && b.log == old(b.log)
  {
    for n := 0 to events
      invariant b.Inv() && b.Settled() && old(b.log) <= b.log && old(b.generation) <= b.generation
      invariant forall k :: |old(b.log)| <= k < |b.log| ==> old(b.generation) <= b.log[k].origin
      invariant old(b.stopped) ==> b.stopped && b.log == old(b.log)
    {
      b.Event();
    }
  }

  /** Once no reaction is pending, the hub broadcasts to exactly the mapped clients. */
  lemma HubMatchesViewers(b: Bridge)
    requires b.Inv() && b.Settled() && b.pending == multiset{}
    ensures forall c :: 0 <= c < |b.clients| ==>
              (b.clients[c].attached <==> !b.clients[c].closed)
              && (!b.clients[c].closed <==> c in b.viewers.Values)
  {
    forall c | 0 <= c < |b.clients|
      ensures (b.clients[c].attached <==> !b.clients[c].closed)
              && (!b.clients[c].closed <==> c in b.viewers.Values)
    {
      assert ClientOk(b.clients[c], false);
      if !b.clients[c].closed {
        assert b.clients[c].viewer in b.viewers;
      }
    }
  }
}
