/** Replacing the release-owned files together: staged copies, atomic renames, and a
    rollback, with a failure possible at every step. */
module ReleaseTransaction {

  /** A release-owned file, or a staged copy with a fresh random name. */
  datatype Path = Owned(name: string) | Staged(n: nat)

  datatype File = File(bytes: seq<bv8>, mode: nat)

  datatype Candidate = Candidate(name: string, bytes: seq<bv8>, original: seq<bv8>, mode: nat)

  datatype Outcome = Committed | Failed | RollbackFailed

  type Disk = map<Path, File>

  function New(c: Candidate): File { File(c.bytes, c.mode) }

  function Old(c: Candidate): File { File(c.original, c.mode) }

  predicate Distinct(cs: seq<Candidate>) {
    forall i, j :: 0 <= i < j < |cs| ==> cs[i].name != cs[j].name
  }

  /** The file of `c` on disk. */
  predicate Holds(d: Disk, c: Candidate, f: File) { Owned(c.name) in d && d[Owned(c.name)] == f }

  /** The first `k` files are replaced and the others are as they were. */
  predicate Mixed(d: Disk, cs: seq<Candidate>, k: int) {
    forall i :: 0 <= i < |cs| ==> Holds(d, cs[i], if i < k then New(cs[i]) else Old(cs[i]))
  }

  /** No file is ever anything but one of its two whole versions. */
  predicate Whole(d: Disk, cs: seq<Candidate>) {
    forall i :: 0 <= i < |cs| ==> Holds(d, cs[i], New(cs[i])) || Holds(d, cs[i], Old(cs[i]))
  }

  /** Owned files outside the transaction do not change. */
  ghost predicate OthersKept(before: Disk, after: Disk, cs: seq<Candidate>) {
    forall name :: !Named(cs, name) ==> SameFile(before, after, name)
  }

  predicate Named(cs: seq<Candidate>, name: string) {
    exists i :: 0 <= i < |cs| && cs[i].name == name
  }

  ghost predicate OwnedKept(before: Disk, after: Disk) {
    forall name :: SameFile(before, after, name)
  }

  predicate SameFile(before: Disk, after: Disk, name: string) {
    && (Owned(name) in before <==> Owned(name) in after)
    && (Owned(name) in before ==> before[Owned(name)] == after[Owned(name)])
  }

  /** Staged copy `ns[i]`, from `k` on, holds the new version of file `i`. */
  predicate Ready(d: Disk, cs: seq<Candidate>, ns: seq<nat>, k: nat)
    requires |ns| <= |cs|
  {
    forall i :: k <= i < |ns| ==> Staged(ns[i]) in d && d[Staged(ns[i])] == New(cs[i])
  }

  predicate Increasing(ns: seq<nat>) {
    forall i, j :: 0 <= i < j < |ns| ==> ns[i] < ns[j]
  }

  /** Nothing is staged except what was and the copies still waiting to be renamed. */
  ghost predicate Tidy(before: Disk, after: Disk, ns: seq<nat>, k: nat) {
    forall n: nat :: Staged(n) in after ==> Staged(n) in before || (exists i :: k <= i < |ns| && ns[i] == n)
  }

  /** Undoing, with `j` of the `k` replaced files still to visit; `clean` while no restore failed. */
  predicate RolledBack(d: Disk, cs: seq<Candidate>, j: int, clean: bool) {
    forall i :: 0 <= i < |cs| ==>
      || (i < j && Holds(d, cs[i], New(cs[i])))
      || (i >= j && Holds(d, cs[i], Old(cs[i])))
      || (i >= j && !clean && Holds(d, cs[i], New(cs[i])))
  }

  lemma OwnedKeptKeeps(before: Disk, after: Disk, cs: seq<Candidate>)
    requires OwnedKept(before, after)
    ensures forall k :: Mixed(before, cs, k) ==> Mixed(after, cs, k)
    ensures forall j, clean :: RolledBack(before, cs, j, clean) ==> RolledBack(after, cs, j, clean)
  {
    forall i | 0 <= i < |cs|
      ensures SameFile(before, after, cs[i].name)
    {}
  }

  lemma OthersKeptChain(a: Disk, b: Disk, c: Disk, cs: seq<Candidate>)
    requires OthersKept(a, b, cs) && OthersKept(b, c, cs)
    ensures OthersKept(a, c, cs)
  {
    forall name | !Named(cs, name)
      ensures SameFile(a, c, name)
    {
      assert SameFile(a, b, name) && SameFile(b, c, name);
    }
  }

  lemma OwnedKeptChain(a: Disk, b: Disk, c: Disk)
    requires OwnedKept(a, b) && OwnedKept(b, c)
    ensures OwnedKept(a, c)
  {
    forall name
      ensures SameFile(a, c, name)
    {
      assert SameFile(a, b, name) && SameFile(b, c, name);
    }
  }

  /** One more file replaced. */
  lemma RenameAdvances(before: Disk, after: Disk, cs: seq<Candidate>, ns: seq<nat>, k: nat)
    requires Distinct(cs) && Increasing(ns) && |ns| == |cs| && k < |cs|
    requires Mixed(before, cs, k) && Ready(before, cs, ns, k)
    requires after == (before - {Staged(ns[k])})[Owned(cs[k].name) := before[Staged(ns[k])]]
    ensures Mixed(after, cs, k + 1) && Ready(after, cs, ns, k + 1)
  {}

  /** One more file put back, or left when its restore failed. */
  lemma RestoreAdvances(before: Disk, after: Disk, cs: seq<Candidate>, j: nat, clean: bool, ok: bool)
    requires Distinct(cs) && 0 < j <= |cs| && RolledBack(before, cs, j, clean)
    requires forall name :: name != cs[j - 1].name ==> SameFile(before, after, name)
    requires Holds(after, cs[j - 1], Old(cs[j - 1])) || (!ok && Holds(after, cs[j - 1], New(cs[j - 1])))
    ensures RolledBack(after, cs, j - 1, clean && ok)
  {
    forall i | 0 <= i < |cs|
      ensures i != j - 1 ==> SameFile(before, after, cs[i].name)
    {}
  }

  class FileSystem {
    var disk: Disk
    var nextStaged: nat

    ghost predicate Valid()
      reads this
    {
      forall n: nat :: Staged(n) in disk ==> n < nextStaged
    }

    /** open, write, chmod, sync, close: any of them may fail, leaving a partial copy. */
    method Stage(f: File, healthy: bool) returns (ok: bool, n: nat)
      requires Valid()
      modifies this
      ensures Valid() && n == old(nextStaged) && nextStaged == n + 1
      ensures healthy ==> ok
      ensures ok ==> disk == old(disk)[Staged(n) := f]
      ensures OwnedKept(old(disk), disk)
      ensures disk - {Staged(n)} == old(disk) - {Staged(n)}
    {
      n := nextStaged;
      nextStaged := nextStaged + 1;
      var created: bool, failed: bool := *, *;
      var partial: File := *;
      created, failed := created || healthy, failed && !healthy;
      ok := created && !failed;
      if created {
        disk := disk[Staged(n) := if failed then partial else f];
      }
    }

    /** Atomic: either the target holds the staged file, or nothing happened. */
    method Rename(n: nat, name: string, healthy: bool) returns (ok: bool)
      requires Valid() && Staged(n) in disk
      modifies this`disk
      ensures Valid() && (healthy ==> ok)
      ensures ok ==> disk == (old(disk) - {Staged(n)})[Owned(name) := old(disk)[Staged(n)]]
      ensures !ok ==> disk == old(disk)
    {
      ok := *;
      ok := ok || healthy;
      if ok {
        disk := (disk - {Staged(n)})[Owned(name) := disk[Staged(n)]];
      }
    }

    /** rm with force: removing what is not there is not an error. */
    method Unstage(n: nat, healthy: bool) returns (ok: bool)
      requires Valid()
      modifies this`disk
      ensures healthy ==> ok
      ensures Valid() && disk == if ok then old(disk) - {Staged(n)} else old(disk)
    {
      ok := *;
      ok := ok || healthy;
      if ok { disk := disk - {Staged(n)}; }
    }

    /** Puts one file back through a staged copy of its own. */
    method RestoreFile(name: string, f: File, healthy: bool) returns (ok: bool)
      requires Valid() && Owned(name) in disk
      modifies this
      ensures Valid() && (healthy ==> ok)
      ensures forall other :: other != name ==> SameFile(old(disk), disk, other)
      ensures Owned(name) in disk && (disk[Owned(name)] == f || (!ok && disk[Owned(name)] == old(disk)[Owned(name)]))
    {
      var n;
      ok, n := Stage(f, healthy);
      assert SameFile(old(disk), disk, name);
      if ok {
        ok := Rename(n, name, healthy);
      }
      var cleaned := Unstage(n, healthy);
      ok := ok && cleaned;
    }

    /** Staging every candidate touches no owned file; a failed staging stops there. */
    method Prepare(cs: seq<Candidate>, healthy: bool) returns (ok: bool, ns: seq<nat>)
      requires Valid()
      modifies this
      ensures Valid() && OwnedKept(old(disk), disk)
      ensures |ns| <= |cs| && Increasing(ns) && Ready(disk, cs, ns, 0)
      ensures healthy ==> ok
      ensures ok ==> |ns| == |cs| && Tidy(old(disk), disk, ns, 0)
    {
      ok, ns := true, [];
      while ok && |ns| < |cs|
        invariant Valid() && OwnedKept(old(disk), disk)
        invariant |ns| <= |cs| && Increasing(ns) && Ready(disk, cs, ns, 0)
        invariant forall i :: 0 <= i < |ns| ==> ns[i] < nextStaged
        invariant healthy ==> ok
        invariant ok ==> Tidy(old(disk), disk, ns, 0)
        decreases |cs| - |ns|, ok
      {
        var resolved: bool := *;
        if !resolved && !healthy {
          ok := false;
        } else {
          ghost var before, done := disk, ns;
          var n;
          ok, n := Stage(New(cs[|ns|]), healthy);
          OwnedKeptChain(old(disk), before, disk);
          assert forall m: nat :: m < n && Staged(m) in before ==> Staged(m) in before - {Staged(n)};
          if ok {
            ns := ns + [n];
            assert ns[|done|] == n && forall i :: 0 <= i < |done| ==> ns[i] == done[i];
          }
        }
      }
    }

    /** Renames in order and stops at the first failure, after `k` replacements. */
    method Replace(cs: seq<Candidate>, ns: seq<nat>, healthy: bool) returns (ok: bool, k: nat)
      requires Valid() && Distinct(cs) && Mixed(disk, cs, 0)
      requires |ns| == |cs| && Increasing(ns) && Ready(disk, cs, ns, 0)
      modifies this`disk
      ensures Valid() && k <= |cs| && Mixed(disk, cs, k) && OthersKept(old(disk), disk, cs)
      ensures (healthy ==> ok) && (ok ==> k == |cs|)
      ensures forall d :: Tidy(d, old(disk), ns, 0) ==> Tidy(d, disk, ns, k)
    {
      ok, k := true, 0;
      while ok && k < |ns|
        invariant Valid() && k <= |cs| && Mixed(disk, cs, k) && OthersKept(old(disk), disk, cs)
        invariant healthy ==> ok
        invariant Ready(disk, cs, ns, k)
        invariant forall d :: Tidy(d, old(disk), ns, 0) ==> Tidy(d, disk, ns, k)
        decreases |cs| - k, ok
      {
        ghost var before := disk;
        ok := Rename(ns[k], cs[k].name, healthy);
        if ok {
          RenameAdvances(before, disk, cs, ns, k);
          assert Named(cs, cs[k].name);
          k := k + 1;
        }
      }
    }

    /** Restores the replaced files, last first, going on past failures. */
    method RollBack(cs: seq<Candidate>, k: nat, healthy: bool) returns (clean: bool)
      requires Valid() && Distinct(cs) && k <= |cs| && Mixed(disk, cs, k)
      modifies this
      ensures healthy ==> clean
      ensures Valid() && RolledBack(disk, cs, 0, clean) && OthersKept(old(disk), disk, cs)
    {
      clean := true;
      var j := k;
      while j > 0
        invariant healthy ==> clean
        invariant Valid() && j <= k && RolledBack(disk, cs, j, clean) && OthersKept(old(disk), disk, cs)
      {
        ghost var before := disk;
        var ok := RestoreFile(cs[j - 1].name, Old(cs[j - 1]), healthy);
        RestoreAdvances(before, disk, cs, j, clean, ok);
        assert Named(cs, cs[j - 1].name);
        OthersKeptChain(old(disk), before, disk, cs);
        clean := clean && ok;
        j := j - 1;
      }
    }

    method CleanUp(ns: seq<nat>)
      requires Valid()
      modifies this`disk
      ensures Valid() && OwnedKept(old(disk), disk)
      ensures forall d :: Tidy(d, old(disk), ns, |ns|) ==> Tidy(d, disk, ns, |ns|)
    {
      for i := 0 to |ns|
        invariant Valid() && OwnedKept(old(disk), disk)
        invariant forall d :: Tidy(d, old(disk), ns, |ns|) ==> Tidy(d, disk, ns, |ns|)
      {
        ghost var before := disk;
        var _ := Unstage(ns[i], false);
        assert forall name :: SameFile(before, disk, name);
        OwnedKeptChain(old(disk), before, disk);
      }
    }

    /** All or nothing, wherever a step fails. `forward` says that no step of the replacement
        fails, which then commits, and `backward` that none of the rollback does, which then
        succeeds. */
    method CommitCandidates(cs: seq<Candidate>, forward: bool, backward: bool) returns (outcome: Outcome)
      requires Valid() && Distinct(cs) && Mixed(disk, cs, 0)
      modifies this
      ensures Valid() && OthersKept(old(disk), disk, cs)
      ensures outcome == Committed ==> Mixed(disk, cs, |cs|) && Tidy(old(disk), disk, [], 0)
      ensures outcome == Failed ==> Mixed(disk, cs, 0)
      ensures Whole(disk, cs)
      ensures forward ==> outcome == Committed
      ensures backward ==> outcome != RollbackFailed
    {
      var ok, ns := Prepare(cs, forward);
      OwnedKeptKeeps(old(disk), disk, cs);
      ghost var staged := disk;
      var k := 0;
      if ok {
        ok, k := Replace(cs, ns, forward);
      }
      OthersKeptChain(old(disk), staged, disk, cs);
      var synced: bool := *;
      if ok && (synced || forward) {
        outcome := Committed;
      } else {
        ghost var replaced := disk;
        var clean := RollBack(cs, k, backward);
        OthersKeptChain(old(disk), replaced, disk, cs);
        var resynced: bool := *;
        outcome := if clean && (resynced || backward) then Failed else RollbackFailed;
      }
      ghost var before := disk;
      CleanUp(ns);
      OwnedKeptKeeps(before, disk, cs);
      OthersKeptChain(old(disk), before, disk, cs);
    }
  }
}
