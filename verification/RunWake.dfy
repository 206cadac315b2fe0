/** The durable one-shot wake of an agent run: armed, preempted or fired, and
    recovered after a crash between any two durable writes. */
module RunWake {
  import opened Options

  datatype WakeState = Armed | Preempted | Fired

  /** A scheduled-task payload, as the agent parses it. */
  datatype Payload = Wake(state: WakeState) | Malformed

  /** One durable scheduler row; `reserved` rows carry the run-wake name prefix. */
  datatype Task = Task(reserved: bool, payload: Payload, dueAt: int, done: bool)

  /** A queued message; ambient traffic never wakes the loop. */
  datatype Message = Message(ambient: bool)

  predicate IsArmed(t: Task) { t.reserved && !t.done && t.payload == Wake(Armed) }

  function ArmedIds(tasks: map<nat, Task>): set<nat> {
    set id | id in tasks && IsArmed(tasks[id])
  }

  ghost predicate AtMostOneArmed(tasks: map<nat, Task>) {
    forall a, b :: a in ArmedIds(tasks) && b in ArmedIds(tasks) ==> a == b
  }

  /** A payload changes at most once, from armed to preempted or fired, and a finished row
      stays finished. */
  predicate RowEvolves(before: Task, after: Task) {
    && before.reserved == after.reserved && before.dueAt == after.dueAt
    && (before.done ==> after.done)
    && (after.payload == before.payload
        || (before.payload == Wake(Armed) && (after.payload == Wake(Preempted) || after.payload == Wake(Fired))))
  }

  /** A wake that was durably armed and is finished was preempted or fired. */
  predicate RowSettles(before: Task, after: Task) {
    IsArmed(before) && after.done ==> after.payload != Wake(Armed)
  }

  ghost predicate Evolves(before: map<nat, Task>, after: map<nat, Task>) {
    forall id :: id in before ==> id in after && RowEvolves(before[id], after[id])
  }

  lemma EvolvesTransitive(a: map<nat, Task>, b: map<nat, Task>, c: map<nat, Task>)
    requires Evolves(a, b) && Evolves(b, c)
    ensures Evolves(a, c)
  {
    forall id | id in a
      ensures id in c && RowEvolves(a[id], c[id])
    {
      assert RowEvolves(a[id], b[id]) && RowEvolves(b[id], c[id]);
    }
  }

  ghost predicate Settles(before: map<nat, Task>, after: map<nat, Task>) {
    forall id :: id in before && id in after ==> RowSettles(before[id], after[id])
  }

  lemma SettlesTransitive(a: map<nat, Task>, b: map<nat, Task>, c: map<nat, Task>)
    requires Evolves(a, b) && Evolves(b, c) && Settles(a, b) && Settles(b, c)
    ensures Evolves(a, c) && Settles(a, c)
  {
    EvolvesTransitive(a, b, c);
    forall id | id in a && id in c
      ensures RowSettles(a[id], c[id])
    {
      assert RowEvolves(a[id], b[id]) && RowEvolves(b[id], c[id]);
      assert RowSettles(a[id], b[id]) && RowSettles(b[id], c[id]);
    }
  }

  /** Open, reserved, and not armed: left behind by an interrupted write. */
  predicate IsInvalid(t: Task) { t.reserved && !t.done && t.payload != Wake(Armed) }

  ghost predicate NoneWorse(before: map<nat, Task>, after: map<nat, Task>) {
    forall id :: id in after && IsInvalid(after[id]) ==> id in before && IsInvalid(before[id])
  }

  /** A reserved row that was armed and has been neither preempted nor fired. */
  predicate Held(tasks: map<nat, Task>, id: nat) {
    id in tasks && tasks[id].reserved && tasks[id].payload == Wake(Armed)
  }

  predicate HasWake(inbound: seq<Message>) {
    exists i :: 0 <= i < |inbound| && !inbound[i].ambient
  }

  lemma {:induction false} LargestExists(ids: set<nat>)
    requires ids != {}
    ensures exists m :: m in ids && forall id :: id in ids ==> id <= m
    decreases |ids|
  {
    var x :| x in ids;
    var rest := ids - {x};
    if rest == {} {
      assert ids == {x};
    } else {
      LargestExists(rest);
      var m :| m in rest && forall id :: id in rest ==> id <= m;
      var top := if x <= m then m else x;
      assert forall id :: id in ids ==> id == x || id in rest;
      assert top in ids && forall id :: id in ids ==> id <= top;
    }
  }

  /** The agent's part in run wakes, over the scheduler's durable table. */
  class Agent {
    const scheduled: bool  // a scheduler is configured

    // durable
    var tasks: map<nat, Task>
    var nextId: nat

    // lost in a crash
    var pending: Option<nat>
    var inbound: seq<Message>

    var crashed: bool
    var safe: bool  // the process survives the event being handled

    /** What holds of the durable table at every instant, crashed or not. */
    ghost predicate DurableOk()
      reads this
    {
      AtMostOneArmed(tasks) && forall id :: id in tasks ==> id < nextId
    }

    /** The pending wake's row was finished behind the agent's back. */
    predicate Dangling()
      reads this
    {
      pending.Some? && pending.value in tasks && tasks[pending.value].done
    }

    /** What holds of a running agent: the durably armed row is the pending wake, and no
        waking message is queued beside it. */
    ghost predicate LiveOk()
      reads this
    {
      Matched() && (pending.Some? && !Dangling() ==> !HasWake(inbound))
    }

    ghost predicate Matched()
      reads this
    {
      && ArmedIds(tasks) == (if pending.Some? && !Dangling() then {pending.value} else {})
      && (pending.Some? ==> scheduled && Held(tasks, pending.value))
      && (forall id :: id in tasks ==> id < nextId)
    }

    ghost predicate Ok()
      reads this
    {
      DurableOk() && (!crashed ==> LiveOk())
    }

    constructor (scheduled: bool)
      ensures Ok() && !crashed && tasks == map[] && pending == None && inbound == [] && this.scheduled == scheduled
    {
      this.scheduled := scheduled;
      tasks, nextId, pending, inbound, crashed, safe := map[], 0, None, [], false, true;
    }

    /** One durable write of an existing row; the process may die before it. */
    method Write(id: nat, t: Task)
      requires !crashed && id in tasks && RowEvolves(tasks[id], t) && (IsArmed(t) ==> IsArmed(tasks[id]))
      requires forall k :: k in tasks ==> k < nextId
      modifies this`tasks, this`crashed
      ensures safe ==> !crashed
      ensures Evolves(old(tasks), tasks) && tasks.Keys == old(tasks).Keys
      ensures crashed ==> tasks == old(tasks)
      ensures !crashed ==> tasks == old(tasks)[id := t]
      ensures ArmedIds(tasks) <= ArmedIds(old(tasks))
      ensures !crashed && !IsArmed(t) ==> ArmedIds(tasks) == ArmedIds(old(tasks)) - {id}
      ensures RowSettles(old(tasks)[id], t) ==> Settles(old(tasks), tasks)
    {
      var dies: bool := *;
      if dies && !safe {
        crashed := true;
      } else {
        tasks := tasks[id := t];
      }
    }

    /** Preempts an armed row: its state first, then the row itself. */
    method Retire(id: nat)
      requires !crashed && id in ArmedIds(tasks) && forall k :: k in tasks ==> k < nextId
      modifies this`tasks, this`crashed
      ensures safe ==> !crashed
      ensures Evolves(old(tasks), tasks) && Settles(old(tasks), tasks) && tasks.Keys == old(tasks).Keys
      ensures ArmedIds(tasks) <= ArmedIds(old(tasks))
      ensures !crashed ==> ArmedIds(tasks) == ArmedIds(old(tasks)) - {id}
      ensures !crashed ==> tasks[id].payload == Wake(Preempted) && tasks[id].done && NoneWorse(old(tasks), tasks)
      ensures forall k :: k in tasks && k != id ==> tasks[k] == old(tasks)[k]
    {
      Write(id, tasks[id].(payload := Wake(Preempted)));
      if crashed { return; }
      ghost var mid := tasks;
      Write(id, tasks[id].(done := true));
      SettlesTransitive(old(tasks), mid, tasks);
      assert !crashed ==> NoneWorse(old(tasks), tasks);
    }

    /** Gives up the pending wake; the scheduler refuses to update a finished row. */
    method Preempt() returns (threw: bool)
      requires !crashed && Matched()
      modifies this`tasks, this`crashed, this`pending
      ensures safe ==> !crashed
      ensures Evolves(old(tasks), tasks) && Settles(old(tasks), tasks) && DurableOk() && tasks.Keys == old(tasks).Keys
      ensures threw <==> old(Dangling())
      ensures threw || old(pending) == None ==> tasks == old(tasks) && pending == old(pending) && !crashed
      ensures !crashed ==> Matched()
      ensures !crashed && !threw ==> pending == None
      ensures !crashed && !threw && old(pending).Some? ==>
                tasks[old(pending).value].payload == Wake(Preempted) && tasks[old(pending).value].done
    {
      if pending == None || !scheduled { return false; }
      var id := pending.value;
      if tasks[id].done { return true; }
      assert id in ArmedIds(tasks);
      Retire(id);
      if !crashed { pending := None; }
      return false;
    }

    /** Arms a wake for `dueAt`, superseding an older one. */
    method Arm(dueAt: int, refused: bool) returns (armed: bool, threw: bool)
      requires !crashed && LiveOk()
      modifies this`tasks, this`nextId, this`pending, this`inbound, this`crashed
      ensures safe ==> !crashed
      ensures Ok() && Evolves(old(tasks), tasks) && Settles(old(tasks), tasks)
      ensures threw <==> scheduled && !HasWake(old(inbound)) && old(Dangling())
      ensures armed ==>
                !crashed && !threw && pending.Some? && tasks[pending.value] == Task(true, Wake(Armed), dueAt, false)
      ensures !armed && !crashed && !threw && scheduled && !HasWake(old(inbound)) ==> pending == None
      ensures threw || HasWake(old(inbound)) || !scheduled ==> tasks == old(tasks) && pending == old(pending) && !armed
      ensures !crashed && !threw && scheduled && !HasWake(old(inbound)) ==> (armed <==> !refused)
      ensures inbound == old(inbound)
    {
      if !scheduled || HasWake(inbound) { return false, false; }
      threw := Preempt();
      if crashed || threw { return false, threw; }
      if refused { return false, false; }
      var dies: bool := *;
      if dies && !safe {
        crashed := true;
        return false, false;
      }
      var id := nextId;
      ghost var before := tasks;
      tasks := tasks[id := Task(true, Wake(Armed), dueAt, false)];
      assert Evolves(before, tasks) && Settles(before, tasks);
      SettlesTransitive(old(tasks), before, tasks);
      nextId := nextId + 1;
      pending := Some(id);
      assert ArmedIds(tasks) == {id};
      return true, false;
    }

    /** Queues a message; a waking one makes a pending self-wake redundant, and then wakes the
        loop unless giving up that wake threw. */
    method Enqueue(m: Message) returns (woken: bool)
      requires !crashed && LiveOk()
      modifies this`tasks, this`crashed, this`pending, this`inbound
      ensures safe ==> !crashed
      ensures Ok() && Evolves(old(tasks), tasks) && Settles(old(tasks), tasks) && tasks.Keys == old(tasks).Keys
      ensures inbound == old(inbound) + [m]
      ensures !crashed ==> (woken <==> !m.ambient && !old(Dangling()))
      ensures woken ==> pending == None
      ensures old(pending) == None || old(Dangling()) || m.ambient ==>
                tasks == old(tasks) && pending == old(pending) && !crashed
    {
      inbound := inbound + [m];
      if m.ambient { return false; }
      var threw := Preempt();
      return !threw && !crashed;
    }

    /** The loop takes the oldest queued message. */
    method Dequeue() returns (m: Message)
      requires !crashed && LiveOk() && inbound != []
      modifies this`inbound
      ensures LiveOk() && [m] + inbound == old(inbound)
    {
      m := inbound[0];
      inbound := inbound[1..];
    }

    /** The scheduler hands over a due row; the agent fires it at most once. */
    method Notify(id: nat, later: int) returns (fired: bool)
      requires !crashed && LiveOk() && id in tasks && tasks[id].reserved
      modifies this`tasks, this`crashed, this`pending, this`inbound
      ensures safe ==> !crashed
      ensures Ok() && Evolves(old(tasks), tasks) && Settles(old(tasks), tasks) && tasks.Keys == old(tasks).Keys
      ensures fired ==> !crashed && old(IsArmed(tasks[id])) && tasks[id].payload == Wake(Fired) && pending == None
      ensures fired ==> inbound == old(inbound) + [Message(false)]
      ensures !fired && !crashed ==> tasks == old(tasks) && pending == old(pending) && inbound == old(inbound)
      ensures !crashed && old(IsArmed(tasks[id])) ==> (fired <==> old(tasks)[id].dueAt <= later)
    {
      var t := tasks[id];
      assert id in ArmedIds(tasks) <==> IsArmed(t);
      if t.done || t.dueAt > later { return false; }
      if t.payload != Wake(Armed) || (pending.Some? && pending.value != id) { return false; }
      Write(id, t.(payload := Wake(Fired)));
      if crashed { return false; }
      pending := None;
      ghost var mid := tasks;
      var _ := Enqueue(Message(false));
      return true;
    }

    /** The scheduler's own unconditional retirement of a one-shot row. */
    method MarkDone(id: nat)
      requires !crashed && id in tasks
      modifies this`tasks, this`crashed
      ensures safe ==> !crashed
      ensures tasks == if crashed then old(tasks) else old(tasks)[id := old(tasks)[id].(done := true)]
      ensures Evolves(old(tasks), tasks) && (!IsArmed(old(tasks)[id]) ==> Settles(old(tasks), tasks))
      ensures ArmedIds(tasks) == if crashed then ArmedIds(old(tasks)) else ArmedIds(old(tasks)) - {id}
    {
      var dies: bool := *;
      if dies && !safe {
        crashed := true;
      } else {
        tasks := tasks[id := tasks[id].(done := true)];
      }
    }

    /** One row that a scheduler poll found due at `now`: the agent is told, reading
        the clock again as `later`, then the row retires. The wake is delivered
        exactly when that second reading has not fallen behind the due time;
        otherwise the row is retired unfired and the pending wake dangles. */
    method HandleDue(id: nat, now: int, later: int)
      requires !crashed && LiveOk() && id in tasks && tasks[id].reserved
      requires !tasks[id].done && tasks[id].dueAt <= now
      modifies this`tasks, this`nextId, this`pending, this`inbound, this`crashed
      ensures safe ==> !crashed
      ensures Ok() && Evolves(old(tasks), tasks) && tasks.Keys == old(tasks).Keys
      ensures !crashed ==> tasks[id].done
      ensures !crashed && old(IsArmed(tasks[id])) && old(tasks)[id].dueAt <= later ==>
                tasks[id].payload == Wake(Fired) && inbound == old(inbound) + [Message(false)] && pending == None
      ensures !crashed && old(IsArmed(tasks[id])) && later < old(tasks)[id].dueAt ==>
                tasks[id].payload == Wake(Armed) && inbound == old(inbound) && pending == Some(id) && Dangling()
      ensures old(IsArmed(tasks[id])) && later < old(tasks)[id].dueAt ==> crashed || !Settles(old(tasks), tasks)
      ensures !old(IsArmed(tasks[id])) || old(tasks)[id].dueAt <= later ==>
                Settles(old(tasks), tasks) && (!crashed ==> Dangling() == old(Dangling()))
    {
      var fired := Notify(id, later);
      if crashed { return; }
      ghost var mid := tasks;
      assert id in ArmedIds(old(tasks)) <==> old(IsArmed(tasks[id]));
      MarkDone(id);
      EvolvesTransitive(old(tasks), mid, tasks);
      if !IsArmed(mid[id]) { SettlesTransitive(old(tasks), mid, tasks); }
      assert !crashed && IsArmed(mid[id]) ==> !RowSettles(old(tasks)[id], tasks[id]);
    }

    /** After such a slip a waking message is queued beside the pending wake and does not wake
        the loop, and no wake can be armed, until the process restarts. */
    method StrandedBySlip(id: nat, now: int, later: int, m: Message) returns (woken: bool)
      requires !crashed && LiveOk() && id in tasks && IsArmed(tasks[id])
      requires later < tasks[id].dueAt <= now && !m.ambient
      modifies this
      ensures Ok()
      ensures !crashed ==> !woken && pending == Some(id) && HasWake(inbound) && Dangling()
    {
      HandleDue(id, now, later);
      if crashed { return false; }
      woken := Enqueue(m);
      assert inbound[|inbound| - 1] == m;
    }

    /** Finishes every reserved row that is open but not armed. */
    method RetireInvalid()
      requires !crashed && forall k :: k in tasks ==> k < nextId
      modifies this`tasks, this`crashed
      ensures safe ==> !crashed
      ensures Evolves(old(tasks), tasks) && Settles(old(tasks), tasks) && tasks.Keys == old(tasks).Keys
      ensures ArmedIds(tasks) <= ArmedIds(old(tasks))
      ensures !crashed ==> ArmedIds(tasks) == ArmedIds(old(tasks))
      ensures !crashed ==> forall id :: id in tasks ==> !IsInvalid(tasks[id])
    {
      var invalid := set id | id in tasks && IsInvalid(tasks[id]);
      while invalid != {}
        invariant !crashed && tasks.Keys == old(tasks).Keys && Evolves(old(tasks), tasks) && Settles(old(tasks), tasks)
        invariant ArmedIds(tasks) == ArmedIds(old(tasks))
        invariant forall id :: id in invalid ==> id in tasks && IsInvalid(tasks[id])
        invariant forall id :: id in tasks && IsInvalid(tasks[id]) ==> id in invalid
        decreases |invalid|
      {
        var id: nat :| id in invalid;
        ghost var before := tasks;
        Write(id, tasks[id].(done := true));
        SettlesTransitive(old(tasks), before, tasks);
        if crashed { return; }
        invalid := invalid - {id};
      }
    }

    /** Preempts every armed row but one. */
    method RetireStale(current: nat)
      requires !crashed && current in ArmedIds(tasks) && forall k :: k in tasks ==> k < nextId
      modifies this`tasks, this`crashed
      ensures safe ==> !crashed
      ensures Evolves(old(tasks), tasks) && Settles(old(tasks), tasks) && tasks.Keys == old(tasks).Keys
      ensures ArmedIds(tasks) <= ArmedIds(old(tasks))
      ensures !crashed ==> ArmedIds(tasks) == {current}
      ensures !crashed ==> NoneWorse(old(tasks), tasks)
    {
      var stale := ArmedIds(tasks) - {current};
      while stale != {}
        invariant !crashed && tasks.Keys == old(tasks).Keys && Evolves(old(tasks), tasks) && Settles(old(tasks), tasks)
        invariant current in ArmedIds(tasks) && ArmedIds(tasks) - {current} == stale
        invariant ArmedIds(tasks) <= ArmedIds(old(tasks))
        invariant NoneWorse(old(tasks), tasks)
        decreases |stale|
      {
        var id: nat :| id in stale;
        ghost var before := tasks;
        Retire(id);
        SettlesTransitive(old(tasks), before, tasks);
        if crashed { return; }
        stale := stale - {id};
      }
    }

    /** A new process adopts the newest armed row of any table it finds. */
    method Boot()
      requires forall id :: id in tasks ==> id < nextId
      modifies this`tasks, this`nextId, this`pending, this`inbound, this`crashed
      ensures safe ==> !crashed
      ensures Evolves(old(tasks), tasks) && Settles(old(tasks), tasks) && nextId == old(nextId)
                && tasks.Keys == old(tasks).Keys
      ensures ArmedIds(tasks) <= ArmedIds(old(tasks))
      ensures !crashed && scheduled ==> LiveOk() && !Dangling() && AtMostOneArmed(tasks)
      ensures !crashed && scheduled ==> forall id :: id in tasks ==> !IsInvalid(tasks[id])
      ensures !crashed && scheduled && ArmedIds(old(tasks)) != {} ==>
                pending.Some? && pending.value in ArmedIds(old(tasks))
                && forall id :: id in ArmedIds(old(tasks)) ==> id <= pending.value
    {
      crashed, pending, inbound := false, None, [];
      if !scheduled { return; }
      RetireInvalid();
      if crashed { return; }
      if ArmedIds(tasks) == {} { return; }
      LargestExists(ArmedIds(tasks));
      var current :| current in ArmedIds(tasks) && forall id :: id in ArmedIds(tasks) ==> id <= current;
      ghost var mid := tasks;
      RetireStale(current);
      SettlesTransitive(old(tasks), mid, tasks);
      if crashed { return; }
      assert current in ArmedIds(tasks);
      pending := Some(current);
    }

    /** Over every run with crashes between durable writes and any clock: at most one wake is
        durably armed, a running agent holds exactly that one with no waking message queued
        beside it, and a row changes state at most once. If the clock never fell behind the due
        time of a wake being delivered, every finished wake was preempted or fired and none
        dangles. */
    method Run(events: nat) returns (ghost slipped: bool)
      requires scheduled && Ok()
      modifies this
      ensures Ok() && Evolves(old(tasks), tasks)
      ensures !slipped ==> Settles(old(tasks), tasks)
      ensures !slipped && (old(crashed) || !old(Dangling())) && !crashed ==> !Dangling()
    {
      slipped := false;
      for k := 0 to events
        invariant Ok() && Evolves(old(tasks), tasks)
        invariant !slipped ==> Settles(old(tasks), tasks)
        invariant !slipped && (old(crashed) || !old(Dangling())) && !crashed ==> !Dangling()
      {
        ghost var before := tasks;
        ghost var slips := Event();
        EvolvesTransitive(old(tasks), before, tasks);
        if !slipped && !slips { SettlesTransitive(old(tasks), before, tasks); }
        slipped := slipped || slips;
      }
    }

    method Event() returns (ghost slips: bool)
      requires scheduled && Ok()
      modifies this
      ensures Ok() && Evolves(old(tasks), tasks)
      ensures !slips ==> Settles(old(tasks), tasks)
      ensures !slips && !crashed ==> !Dangling() || (!old(crashed) && old(Dangling()))
    {
      slips := false;
      var which: int, id: nat, at: int, now: int, later: int := *, *, *, *, *;
      safe := *;
      if crashed || which == 0 {
        Boot();
      } else if which == 1 {
        var refused: bool := *;
        var _, _ := Arm(at, refused);
      } else if which == 2 {
        var m: Message := *;
        var _ := Enqueue(m);
      } else if which == 3 && inbound != [] {
        var _ := Dequeue();
      } else if id in tasks && tasks[id].reserved && !tasks[id].done && tasks[id].dueAt <= now {
        slips := IsArmed(tasks[id]) && later < tasks[id].dueAt;
        HandleDue(id, now, later);
      }
    }
  }
}
