/** A pool of workers that share one counter and one array of results. */
module MapConcurrent {
  import opened Options
  import opened Sets

  /** A worker about to claim, awaiting the item it claimed, returned, or rejected. */
  datatype Worker = Ready | Running(index: nat) | Returned | Rejected(index: nat)

  datatype Outcome<R> = Resolved(results: seq<Option<R>>) | Failed

  // ----- Work still to do

  function Cost(w: Worker): nat {
    match w case Ready => 1 case Running(_) => 2 case Returned => 0 case Rejected(_) => 0
  }

  function Costs(ws: seq<Worker>): nat {
    if ws == [] then 0 else Cost(ws[0]) + Costs(ws[1..])
  }

  lemma {:induction false} CostsUpdate(ws: seq<Worker>, k: nat, w: Worker)
    requires k < |ws|
    ensures Costs(ws[k := w]) + Cost(ws[k]) == Costs(ws) + Cost(w)
  {
    if k == 0 {
      assert ws[k := w][1..] == ws[1..];
    } else {
      assert ws[k := w][1..] == ws[1..][k - 1 := w];
      CostsUpdate(ws[1..], k - 1, w);
    }
  }

  // ----- What every interleaving keeps

  predicate Finished(w: Worker) { w.Returned? || w.Rejected? }

  /** Worker `w` holds the item `i`, now or when it failed. */
  predicate Has(w: Worker, i: nat) { (w.Running? || w.Rejected?) && w.index == i }

  predicate Held(ws: seq<Worker>, i: nat) { exists k :: 0 <= k < |ws| && Has(ws[k], i) }

  ghost predicate Inv<T, R>(items: seq<T>, f: T -> R, ws: seq<Worker>, next: nat, results: seq<Option<R>>,
                            claims: seq<nat>) {
    && |results| == |items|
    // The counter hands out each index once, in order.
    && |claims| == (if next < |items| then next else |items|) && (forall i :: 0 <= i < |claims| ==> claims[i] == i)
    // A claimed item is with exactly one worker until its own result is stored.
    && (forall k, l, i :: 0 <= k < |ws| && 0 <= l < |ws| && k != l && Has(ws[k], i) ==> !Has(ws[l], i))
    && (forall k :: 0 <= k < |ws| && (ws[k].Running? || ws[k].Rejected?) ==>
          ws[k].index < |claims| && results[ws[k].index] == None)
    && (forall i :: 0 <= i < |items| ==> results[i] == None || results[i] == Some(f(items[i])))
    && (forall i :: 0 <= i < |claims| && results[i] == None ==> Held(ws, i))
    && (forall i :: |claims| <= i < |items| ==> results[i] == None)
    && (forall k :: 0 <= k < |ws| && ws[k].Returned? ==> next > |items|)
  }

  lemma Claim<T, R>(items: seq<T>, f: T -> R, ws: seq<Worker>, next: nat, results: seq<Option<R>>, claims: seq<nat>,
                    k: nat)
    requires Inv(items, f, ws, next, results, claims) && k < |ws| && ws[k].Ready?
    ensures next < |items| ==> Inv(items, f, ws[k := Running(next)], next + 1, results, claims + [next])
    ensures next >= |items| ==> Inv(items, f, ws[k := Returned], next + 1, results, claims)
  {
    var w := if next < |items| then Running(next) else Returned;
    var after := ws[k := w];
    forall i | 0 <= i < |claims| && results[i] == None
      ensures Held(after, i)
    {
      var l :| 0 <= l < |ws| && Has(ws[l], i);
      assert Has(after[l], i);
    }
    assert next < |items| ==> Has(after[k], next);
  }

  lemma Complete<T, R>(items: seq<T>, f: T -> R, ws: seq<Worker>, next: nat, results: seq<Option<R>>,
                       claims: seq<nat>, k: nat)
    requires Inv(items, f, ws, next, results, claims) && k < |ws| && ws[k].Running?
    ensures ws[k].index < |items|
    ensures Inv(items, f, ws[k := Ready], next, results[ws[k].index := Some(f(items[ws[k].index]))], claims)
    ensures Inv(items, f, ws[k := Rejected(ws[k].index)], next, results, claims)
  {
    var j := ws[k].index;
    var ready, rejected := ws[k := Ready], ws[k := Rejected(j)];
    forall i | 0 <= i < |claims| && results[i] == None
      ensures i != j ==> Held(ready, i)
      ensures Held(rejected, i)
    {
      var l :| 0 <= l < |ws| && Has(ws[l], i);
      assert Has(rejected[l], i);
      if i != j { assert Has(ready[l], i); }
    }
  }

  predicate AnyRejected(ws: seq<Worker>) { exists k :: 0 <= k < |ws| && ws[k].Rejected? }

  /** Exactly the failing items reject their worker, and only the others get a result. */
  predicate Settles<R>(ws: seq<Worker>, results: seq<Option<R>>, failing: set<nat>) {
    && (forall k :: 0 <= k < |ws| && ws[k].Rejected? ==> ws[k].index in failing)
    && (forall i :: 0 <= i < |results| && results[i].Some? ==> i !in failing)
  }

  lemma Start<T, R>(items: seq<T>, f: T -> R, count: nat)
    ensures Inv(items, f, seq(count, _ => Ready), 0, seq(|items|, _ => None), [])
  {}

  /** When no worker is left and none failed, every result is there. */
  lemma AllStored<T, R>(items: seq<T>, f: T -> R, ws: seq<Worker>, next: nat, results: seq<Option<R>>, claims: seq<nat>)
    requires Inv(items, f, ws, next, results, claims) && (forall k :: 0 <= k < |ws| ==> Finished(ws[k]))
    requires !AnyRejected(ws) && ws != []
    ensures |claims| == |items| && forall i :: 0 <= i < |items| ==> results[i] == Some(f(items[i]))
  {
    assert ws[0].Returned?;
    forall i | 0 <= i < |items|
      ensures results[i] != None
    {
      assert !Held(ws, i);
    }
  }

  function HeldBy(ws: seq<Worker>): set<nat> {
    set k | 0 <= k < |ws| && (ws[k].Running? || ws[k].Rejected?) :: ws[k].index
  }

  lemma {:induction false} HeldAtMost(ws: seq<Worker>)
    ensures |HeldBy(ws)| <= |ws|
  {
    if ws != [] {
      var w, rest := ws[|ws| - 1], ws[..|ws| - 1];
      HeldAtMost(rest);
      assert HeldBy(ws) == HeldBy(rest) + if w.Running? || w.Rejected? then {w.index} else {};
    }
  }

  /** The items claimed whose calls have stored nothing yet. */
  function InFlight<R>(claims: seq<nat>, results: seq<Option<R>>): set<nat>
    requires |claims| <= |results|
  {
    set i: nat | i < |claims| && results[i].None?
  }

  /** No more items are claimed and unsettled than there are workers. */
  lemma InFlightAtMost<T, R>(items: seq<T>, f: T -> R, ws: seq<Worker>, next: nat, results: seq<Option<R>>,
                             claims: seq<nat>)
    requires Inv(items, f, ws, next, results, claims)
    ensures |InFlight(claims, results)| <= |ws|
  {
    var inFlight := InFlight(claims, results);
    forall i | i in inFlight
      ensures i in HeldBy(ws)
    {
      assert results[i] == None && Held(ws, i);
    }
    HeldAtMost(ws);
    SubsetSize(inFlight, HeldBy(ws));
  }

  /** One worker goes on: it claims the next index, or its awaited call settles. */
  method Step<T, R>(items: seq<T>, f: T -> R, ws: seq<Worker>, next: nat, results: seq<Option<R>>,
                    ghost claims: seq<nat>, k: nat, failing: set<nat>)
    returns (ws': seq<Worker>, next': nat, results': seq<Option<R>>, ghost claims': seq<nat>)
    requires Inv(items, f, ws, next, results, claims) && k < |ws| && !Finished(ws[k]) && Settles(ws, results, failing)
    ensures Inv(items, f, ws', next', results', claims') && |ws'| == |ws| && Settles(ws', results', failing)
    ensures |claims'| <= |results'| && |InFlight(claims', results')| <= |ws'|
    ensures 3 * (|items| - |claims'|) + Costs(ws') < 3 * (|items| - |claims|) + Costs(ws)
  {
    next', results', claims' := next, results, claims;
    var w := Ready;
    if ws[k].Ready? {
      Claim(items, f, ws, next, results, claims, k);
      next' := next + 1;
      if next >= |items| {
        w := Returned;
      } else {
        w, claims' := Running(next), claims + [next];
      }
    } else {
      Complete(items, f, ws, next, results, claims, k);
      var index := ws[k].index;
      if index in failing {
        w := Rejected(index);
      } else {
        results' := results[index := Some(f(items[index]))];
      }
    }
    CostsUpdate(ws, k, w);
    ws' := ws[k := w];
    InFlightAtMost(items, f, ws', next', results', claims');
  }

  /** Every interleaving of the workers, with any set of calls failing: no item is claimed
      twice, no more are in flight at any time (`peak`) than the limit, and the pool always
      ends. With a worker at all it fails exactly when some item's call does, and otherwise
      resolves with every item's own result. */
  method MapConcurrent<T, R>(items: seq<T>, concurrency: int, f: T -> R, failing: set<nat>)
    returns (outcome: Outcome<R>, ghost claims: seq<nat>, ghost peak: nat)
    ensures outcome.Failed? <==> concurrency >= 1 && exists i :: 0 <= i < |items| && i in failing
    ensures peak <= if concurrency < 0 then 0 else concurrency
    ensures forall i :: 0 <= i < |claims| ==> claims[i] == i < |items|
    ensures outcome.Resolved? && concurrency >= 1 ==>
              && |claims| == |items|
              && outcome.results == seq(|items|, i requires 0 <= i < |items| => Some(f(items[i])))
    ensures concurrency < 1 ==> outcome == Resolved(seq(|items|, _ => None)) && claims == []
  {
    var count: nat := if concurrency < 0 then 0 else if concurrency < |items| then concurrency else |items|;
    var next: nat, results: seq<Option<R>> := 0, seq(|items|, _ => None);
    var ws: seq<Worker> := seq(count, _ => Ready);
    claims, peak := [], 0;
    Start(items, f, count);
    while exists k :: 0 <= k < |ws| && !Finished(ws[k])
      invariant Inv(items, f, ws, next, results, claims) && |ws| == count && Settles(ws, results, failing)
      invariant peak <= count
      invariant count == 0 ==> claims == [] && results == seq(|items|, _ => None)
      decreases 3 * (|items| - |claims|) + Costs(ws)
    {
      var k :| 0 <= k < |ws| && !Finished(ws[k]);
      ws, next, results, claims := Step(items, f, ws, next, results, claims, k, failing);
      if |InFlight(claims, results)| > peak { peak := |InFlight(claims, results)|; }
    }
    if AnyRejected(ws) {
      outcome := Failed;
    } else {
      if count > 0 { AllStored(items, f, ws, next, results, claims); }
      outcome := Resolved(results);
    }
  }
}
