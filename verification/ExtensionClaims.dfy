/** Extensions that claim one namespace: all of them are refused, and only they. */
module ExtensionClaims {

  datatype Claim = Claim(file: string, namespace: string)

  datatype Failure = Failure(file: string, namespace: string, claimedBy: seq<string>)

  // ----- Order

  /** Comparison of texts by their character codes. */
  predicate TextLe(a: string, b: string) {
    a == "" || (b != "" && (a[0] < b[0] || (a[0] == b[0] && TextLe(a[1..], b[1..]))))
  }

  lemma {:induction false} TextLeAntisymmetric(a: string, b: string)
    requires TextLe(a, b) && TextLe(b, a)
    ensures a == b
  {
    if a != "" {
      TextLeAntisymmetric(a[1..], b[1..]);
      assert a == [a[0]] + a[1..] && b == [b[0]] + b[1..];
    }
  }

  predicate Sorted(claims: seq<Claim>) {
    forall i, j :: 0 <= i < j < |claims| ==> TextLe(claims[i].namespace, claims[j].namespace)
  }

  lemma EqualsAreTogether(claims: seq<Claim>, i: nat, j: nat, k: nat)
    requires Sorted(claims) && i < j < k < |claims| && claims[i].namespace == claims[k].namespace
    ensures claims[j].namespace == claims[i].namespace
  {
    TextLeAntisymmetric(claims[i].namespace, claims[j].namespace);
  }

  // ----- What is to be refused

  predicate Shared(claims: seq<Claim>, n: string) {
    exists i, j :: 0 <= i < j < |claims| && claims[i].namespace == n == claims[j].namespace
  }

  /** The files among the first `k` that claim `n`. */
  function FilesOf(claims: seq<Claim>, n: string, k: nat): seq<string>
    requires k <= |claims|
  {
    if k == 0 then []
    else FilesOf(claims, n, k - 1) + if claims[k - 1].namespace == n then [claims[k - 1].file] else []
  }

  function Files(claims: seq<Claim>): seq<string> {
    seq(|claims|, i requires 0 <= i < |claims| => claims[i].file)
  }

  /** For each of the first `k` claims whose namespace is shared, one failure naming all its
      claimants. */
  function Expected(claims: seq<Claim>, k: nat): seq<Failure>
    requires k <= |claims|
  {
    if k == 0 then []
    else
      var c := claims[k - 1];
      Expected(claims, k - 1) + if Shared(claims, c.namespace)
        then [Failure(c.file, c.namespace, FilesOf(claims, c.namespace, |claims|))] else []
  }

  // ----- The grouping loop

  /** `start..end` is the whole group of one namespace. */
  predicate Group(claims: seq<Claim>, start: nat, end: nat) {
    && start < end <= |claims|
    && (forall i :: start <= i < end ==> claims[i].namespace == claims[start].namespace)
    && (forall i :: 0 <= i < |claims| && !(start <= i < end) ==> claims[i].namespace != claims[start].namespace)
  }

  lemma {:induction false} NoFilesBefore(claims: seq<Claim>, start: nat, end: nat, k: nat)
    requires Group(claims, start, end) && k <= start
    ensures FilesOf(claims, claims[start].namespace, k) == []
  {
    if k > 0 { NoFilesBefore(claims, start, end, k - 1); }
  }

  lemma {:induction false} FilesWithin(claims: seq<Claim>, start: nat, end: nat, k: nat)
    requires Group(claims, start, end) && start <= k <= end
    ensures FilesOf(claims, claims[start].namespace, k) == Files(claims[start..k])
  {
    if k == start {
      NoFilesBefore(claims, start, end, k);
    } else {
      FilesWithin(claims, start, end, k - 1);
      assert claims[start..k] == claims[start..k - 1] + [claims[k - 1]];
      assert Files(claims[start..k]) == Files(claims[start..k - 1]) + [claims[k - 1].file];
    }
  }

  /** The files that claim a group's namespace are exactly the group's. */
  lemma {:induction false} GroupFiles(claims: seq<Claim>, start: nat, end: nat, k: nat)
    requires Group(claims, start, end) && end <= k <= |claims|
    ensures FilesOf(claims, claims[start].namespace, k) == Files(claims[start..end])
  {
    if k == end {
      FilesWithin(claims, start, end, k);
    } else {
      GroupFiles(claims, start, end, k - 1);
      assert claims[k - 1].namespace != claims[start].namespace;
    }
  }

  lemma GroupShared(claims: seq<Claim>, start: nat, end: nat)
    requires Group(claims, start, end)
    ensures Shared(claims, claims[start].namespace) <==> end - start > 1
  {
    var n := claims[start].namespace;
    if end - start > 1 { assert claims[start].namespace == n == claims[start + 1].namespace; }
  }

  /** Claim `k` of a group of several adds one failure. */
  predicate Adds(claims: seq<Claim>, k: nat, n: string, files: seq<string>)
    requires k < |claims|
  {
    Expected(claims, k + 1) == Expected(claims, k) + [Failure(claims[k].file, n, files)]
  }

  lemma GroupAdds(claims: seq<Claim>, start: nat, end: nat, k: nat)
    requires Group(claims, start, end) && end - start > 1 && start <= k < end
    ensures Adds(claims, k, claims[start].namespace, Files(claims[start..end]))
  {
    GroupShared(claims, start, end);
    GroupFiles(claims, start, end, |claims|);
  }

  /** The failures of one group, added to those before. */
  method Report(claims: seq<Claim>, start: nat, end: nat, files: seq<string>, before: seq<Failure>)
    returns (failures: seq<Failure>)
    requires start < end <= |claims| && before == Expected(claims, start)
    requires forall k :: start <= k < end ==> Adds(claims, k, claims[start].namespace, files)
    ensures failures == Expected(claims, end)
  {
    failures := before;
    for k := start to end
      invariant failures == Expected(claims, k)
    {
      assert Adds(claims, k, claims[start].namespace, files);
      failures := failures + [Failure(claims[k].file, claims[start].namespace, files)];
    }
  }

  method FindGroup(claims: seq<Claim>, start: nat) returns (end: nat)
    requires Sorted(claims) && start < |claims|
    requires forall i :: 0 <= i < start ==> claims[i].namespace != claims[start].namespace
    ensures Group(claims, start, end)
    ensures end < |claims| ==> forall i :: 0 <= i < end ==> claims[i].namespace != claims[end].namespace
  {
    end := start + 1;
    while end < |claims| && claims[end].namespace == claims[start].namespace
      invariant start < end <= |claims|
      invariant forall i :: start <= i < end ==> claims[i].namespace == claims[start].namespace
    {
      end := end + 1;
    }
    forall i | end <= i < |claims|
      ensures claims[i].namespace != claims[start].namespace
    {
      if claims[i].namespace == claims[start].namespace && end < i { EqualsAreTogether(claims, start, end, i); }
    }
    if end < |claims| {
      forall i | 0 <= i < start
        ensures claims[i].namespace != claims[end].namespace
      {
        if claims[i].namespace == claims[end].namespace { EqualsAreTogether(claims, i, start, end); }
      }
    }
  }

  /** Exactly the namespaces claimed more than once collide, every claimant of one is
      refused, and what remains has its namespace to itself. */
  method Collisions(claims: seq<Claim>) returns (collided: set<string>, failures: seq<Failure>)
    requires Sorted(claims)
    ensures forall n :: n in collided <==> Shared(claims, n)
    ensures failures == Expected(claims, |claims|)
    ensures forall i, j :: 0 <= i < j < |claims| && claims[i].namespace !in collided ==>
              claims[i].namespace != claims[j].namespace
  {
    collided, failures := {}, [];
    var start := 0;
    while start < |claims|
      invariant start <= |claims|
      invariant start < |claims| ==> forall i :: 0 <= i < start ==> claims[i].namespace != claims[start].namespace
      invariant forall n <- collided :: Shared(claims, n)
      invariant forall i :: 0 <= i < start && Shared(claims, claims[i].namespace) ==> claims[i].namespace in collided
      invariant failures == Expected(claims, start)
      decreases |claims| - start
    {
      var end := FindGroup(claims, start);
      GroupShared(claims, start, end);
      if end - start > 1 {
        forall k | start <= k < end
          ensures Adds(claims, k, claims[start].namespace, Files(claims[start..end]))
        {
          GroupAdds(claims, start, end, k);
        }
        failures := Report(claims, start, end, Files(claims[start..end]), failures);
        collided := collided + {claims[start].namespace};
      }
      start := end;
    }
  }
}
