/** Bounded custody of watched images: eviction oldest first, within a byte and a file budget. */
module WatchCustody {
  import opened Options

  const WATCH_FRAME_MAX_BYTES: nat := 10 * 1024 * 1024
  const WATCH_FRAME_MAX_COUNT: nat := 16
  const WATCH_CUSTODY_MAX_BYTES: nat := 256 * 1024 * 1024
  const WATCH_CUSTODY_MAX_FILES: nat := 256

  datatype Frame = Frame(size: nat, mtime: int)

  /** The regular files in the custody root, by name. */
  type Root = map<nat, Frame>

  datatype Listed = Listed(name: nat, frame: Frame)

  /** What the file system does during one frame: files whose lstat fails (all of them when the
      directory cannot be read), files whose deletion fails and leaves them there or finds them
      gone, and how the new file's own write ends. */
  datatype Conditions = Conditions(
    skipped: set<nat>, stuck: set<nat>, vanished: set<nat>, opens: bool, writes: bool, partial: nat, now: int)

  predicate Smooth(c: Conditions) { c.stuck == {} && c.vanished == {} && c.opens && c.writes }

  predicate AllSeen(conditions: seq<Conditions>) { forall c <- conditions :: c.skipped == {} }

  predicate DeletionFails(c: Conditions, name: nat) { name in c.stuck || name in c.vanished }

  /** How many of the first `n` sources are images of a legal size. */
  function Legal(sources: seq<Option<nat>>, n: nat): nat
    requires n <= |sources|
  {
    if n == 0 then 0
    else Legal(sources, n - 1) + match sources[n - 1]
      case None => 0
      case Some(size) => if 0 < size <= WATCH_FRAME_MAX_BYTES then 1 else 0
  }

  // ----- Bytes held

  ghost function Bytes(files: Root): nat
    decreases |files|
  {
    if files == map[] then 0
    else
      var name :| name in files;
      files[name].size + Bytes(files - {name})
  }

  /** Bytes can be counted in any order. */
  lemma {:induction false} BytesWithout(files: Root, name: nat)
    requires name in files
    ensures Bytes(files) == files[name].size + Bytes(files - {name})
    decreases |files|
  {
    var first :| first in files && Bytes(files) == files[first].size + Bytes(files - {first});
    if first != name {
      BytesWithout(files - {first}, name);
      BytesWithout(files - {name}, first);
      assert files - {first} - {name} == files - {name} - {first};
    }
  }

  lemma BytesPlus(files: Root, name: nat, frame: Frame)
    requires name !in files
    ensures Bytes(files[name := frame]) == Bytes(files) + frame.size
  {
    BytesWithout(files[name := frame], name);
    assert files[name := frame] - {name} == files;
  }

  function Sum(frames: seq<Listed>): nat {
    if frames == [] then 0 else frames[0].frame.size + Sum(frames[1..])
  }

  method Total(frames: seq<Listed>) returns (total: nat)
    ensures total == Sum(frames)
  {
    total := 0;
    for i := 0 to |frames|
      invariant total + Sum(frames[i..]) == Sum(frames)
    {
      assert frames[i..][1..] == frames[i + 1..];
      total := total + frames[i].frame.size;
    }
  }

  /** Files are only ever removed. */
  predicate Shrunk(before: Root, after: Root) {
    after.Keys <= before.Keys && forall name <- after :: after[name] == before[name]
  }

  predicate DistinctNames(frames: seq<Listed>) {
    forall i, j :: 0 <= i < j < |frames| ==> frames[i].name != frames[j].name
  }

  /** The listing holds exactly the files, each once. */
  predicate Lists(frames: seq<Listed>, files: Root) {
    && DistinctNames(frames)
    && (forall f <- frames :: f.name in files && files[f.name] == f.frame)
    && (forall name <- files :: Listed(name, files[name]) in frames)
  }

  lemma ListsTail(frames: seq<Listed>, files: Root)
    requires Lists(frames, files) && frames != []
    ensures Lists(frames[1..], files - {frames[0].name}) && frames[0].name in files
              && files[frames[0].name] == frames[0].frame
  {
    forall name | name in files && name != frames[0].name
      ensures Listed(name, files[name]) in frames[1..]
    {
      assert Listed(name, files[name]) in frames;
    }
  }

  lemma {:induction false} ListingCounts(frames: seq<Listed>, files: Root)
    requires Lists(frames, files)
    ensures Sum(frames) == Bytes(files) && |frames| == |files|
    decreases |frames|
  {
    if frames == [] {
      assert files == map[];
    } else {
      ListsTail(frames, files);
      ListingCounts(frames[1..], files - {frames[0].name});
      BytesWithout(files, frames[0].name);
      assert (files - {frames[0].name}).Keys == files.Keys - {frames[0].name};
    }
  }

  // ----- What has to go

  predicate OldestFirst(frames: seq<Listed>) {
    forall i, j :: 0 <= i < j < |frames| ==> frames[i].frame.mtime <= frames[j].frame.mtime
  }

  predicate Fits(frames: seq<Listed>, incoming: nat) {
    |frames| < WATCH_CUSTODY_MAX_FILES && Sum(frames) + incoming <= WATCH_CUSTODY_MAX_BYTES
  }

  /** `k` is the least number of oldest frames whose going makes room. */
  predicate LeastEviction(frames: seq<Listed>, incoming: nat, k: nat) {
    k <= |frames| && Fits(frames[k..], incoming) && forall j :: 0 <= j < k ==> !Fits(frames[j..], incoming)
  }

  // ----- What the accounting sees

  /** The files that no listing shows. */
  function Unseen(files: Root, skipped: set<nat>): Root { map n | n in files && n in skipped :: files[n] }

  /** Bytes of the first `k` frames that stay on the account, and of those that stay on disk. */
  function FailedBytes(frames: seq<Listed>, k: nat, c: Conditions): nat
    requires k <= |frames|
  {
    if k == 0 then 0
    else FailedBytes(frames, k - 1, c) + if DeletionFails(c, frames[k - 1].name) then frames[k - 1].frame.size else 0
  }

  function StuckBytes(frames: seq<Listed>, k: nat, c: Conditions): nat
    requires k <= |frames|
  {
    if k == 0 then 0
    else StuckBytes(frames, k - 1, c) + if frames[k - 1].name in c.stuck then frames[k - 1].frame.size else 0
  }

  lemma {:induction false} StuckIsAccounted(frames: seq<Listed>, k: nat, c: Conditions)
    requires k <= |frames|
    ensures StuckBytes(frames, k, c) <= FailedBytes(frames, k, c)
    ensures c.stuck == {} && c.vanished == {} ==> FailedBytes(frames, k, c) == 0
  {
    if k > 0 { StuckIsAccounted(frames, k - 1, c); }
  }

  /** After trying the first `k` frames, the account has room for the incoming one. */
  predicate Roomy(frames: seq<Listed>, k: nat, incoming: nat, c: Conditions) {
    && k <= |frames| && |frames| - k < WATCH_CUSTODY_MAX_FILES
    && Sum(frames[k..]) + FailedBytes(frames, k, c) + incoming <= WATCH_CUSTODY_MAX_BYTES
  }

  /** `k` frames are tried: the first number that makes room, or all. */
  predicate Stops(frames: seq<Listed>, k: nat, incoming: nat, c: Conditions) {
    && k <= |frames| && (Roomy(frames, k, incoming, c) || k == |frames|)
    && forall j :: 0 <= j < k ==> !Roomy(frames, j, incoming, c)
  }

  /** The files left when the first `k` listed were tried. */
  function Left(files: Root, frames: seq<Listed>, k: nat, c: Conditions): Root
    requires k <= |frames|
  {
    if k == 0 then files
    else if frames[k - 1].name in c.stuck then Left(files, frames, k - 1, c)
    else Left(files, frames, k - 1, c) - {frames[k - 1].name}
  }

  /** The listed bytes that are still on disk then. */
  function Counted(frames: seq<Listed>, k: nat, c: Conditions): nat
    requires k <= |frames|
  {
    Sum(frames[k..]) + StuckBytes(frames, k, c)
  }

  lemma {:induction false} LeftKeeps(files: Root, frames: seq<Listed>, k: nat, c: Conditions)
    requires DistinctNames(frames) && Present(frames, 0, files) && k <= |frames|
    ensures Present(frames, k, Left(files, frames, k, c)) && Shrunk(files, Left(files, frames, k, c))
  {
    if k > 0 { LeftKeeps(files, frames, k - 1, c); }
  }

  /** The listed frames from `k` on are on disk. */
  predicate Present(frames: seq<Listed>, k: nat, files: Root) {
    forall j :: k <= j < |frames| ==> frames[j].name in files && files[frames[j].name] == frames[j].frame
  }

  lemma SplitWithout(files: Root, skipped: set<nat>, name: nat)
    requires name in files
    ensures name in skipped ==> Unseen(files, skipped) - {name} == Unseen(files - {name}, skipped)
    ensures name in skipped ==> files - skipped == files - {name} - skipped
    ensures name !in skipped ==> Unseen(files, skipped) == Unseen(files - {name}, skipped)
    ensures name !in skipped ==> files - skipped - {name} == files - {name} - skipped
  {}

  lemma {:induction false} BytesSplit(files: Root, skipped: set<nat>)
    ensures Bytes(files) == Bytes(Unseen(files, skipped)) + Bytes(files - skipped)
    decreases |files|
  {
    if files == map[] {
      assert Unseen(files, skipped) == map[] && files - skipped == map[];
    } else {
      var name :| name in files;
      BytesSplit(files - {name}, skipped);
      SplitWithout(files, skipped, name);
      BytesWithout(files, name);
      BytesWithout(if name in skipped then Unseen(files, skipped) else files - skipped, name);
    }
  }

  /** What is on disk after the first `k` were tried: the unseen files and the counted ones. */
  lemma {:induction false} BytesLeft(files: Root, frames: seq<Listed>, k: nat, c: Conditions)
    requires Lists(frames, files - c.skipped) && k <= |frames|
    ensures Bytes(Left(files, frames, k, c)) == Bytes(Unseen(files, c.skipped)) + Counted(frames, k, c)
  {
    if k == 0 {
      BytesSplit(files, c.skipped);
      ListingCounts(frames, files - c.skipped);
      assert frames[0..] == frames;
    } else {
      BytesLeft(files, frames, k - 1, c);
      assert Present(frames, 0, files);
      LeftKeeps(files, frames, k - 1, c);
      assert frames[k - 1..][1..] == frames[k..];
      BytesWithout(Left(files, frames, k - 1, c), frames[k - 1].name);
    }
  }

  lemma ListsNext(frames: seq<Listed>, k: nat, left: Root)
    requires 0 < k <= |frames| && Lists(frames[k - 1..], left)
    ensures Lists(frames[k..], left - {frames[k - 1].name})
  {
    var rest := frames[k - 1..];
    ListsTail(rest, left);
    assert rest[1..] == frames[k..];
  }

  /** With everything listed and every deletion done, exactly the first `k` are gone. */
  lemma {:induction false} LeftCounts(files: Root, frames: seq<Listed>, k: nat, c: Conditions)
    requires Lists(frames, files) && k <= |frames| && c.stuck == {}
    ensures Lists(frames[k..], Left(files, frames, k, c))
    decreases k
  {
    if k == 0 {
      assert frames[0..] == frames;
    } else {
      LeftCounts(files, frames, k - 1, c);
      ListsNext(frames, k, Left(files, frames, k - 1, c));
    }
  }

  lemma ListsAppend(frames: seq<Listed>, files: Root, f: Listed)
    requires Lists(frames, files) && f.name !in files
    ensures Lists(frames + [f], files[f.name := f.frame])
  {
    var all := frames + [f];
    assert f in all && forall x <- frames :: x in all;
  }

  class Custody {
    var files: Root

    constructor (files: Root)
      ensures this.files == files
    {
      this.files := files;
    }

    /** Every file that could be examined, oldest first. */
    method ExistingFrames(skipped: set<nat>) returns (frames: seq<Listed>)
      ensures OldestFirst(frames) && Lists(frames, files - skipped)
    {
      frames := [];
      var seen := files - skipped;
      var rest := seen.Keys;
      while rest != {}
        invariant rest <= seen.Keys && OldestFirst(frames)
        invariant forall f <- frames, name <- rest :: f.frame.mtime <= seen[name].mtime
        invariant Lists(frames, seen - rest)
        decreases rest
      {
        var name := OldestOf(seen, rest);
        ListsAppend(frames, seen - rest, Listed(name, seen[name]));
        assert (seen - rest)[name := seen[name]] == seen - (rest - {name});
        frames := frames + [Listed(name, seen[name])];
        rest := rest - {name};
      }
      assert seen - {} == seen;
    }

    /** The loop over a listing, with any deletions failing: the first number of oldest frames
        whose trying makes room is tried, and those that can be are gone. */
    method Evict(frames: seq<Listed>, incoming: nat, c: Conditions) returns (room: bool, ghost k: nat)
      requires DistinctNames(frames) && Present(frames, 0, files)
      modifies this
      ensures Stops(frames, k, incoming, c) && (room <==> Roomy(frames, k, incoming, c))
      ensures files == Left(old(files), frames, k, c)
    {
      k := 0;
      var rest := frames;
      var total := Total(frames);
      while rest != [] && (|rest| >= WATCH_CUSTODY_MAX_FILES || total + incoming > WATCH_CUSTODY_MAX_BYTES)
        invariant k <= |frames| && rest == frames[k..] && files == Left(old(files), frames, k, c)
        invariant total == Sum(rest) + FailedBytes(frames, k, c)
        invariant forall j :: 0 <= j < k ==> !Roomy(frames, j, incoming, c)
        decreases |rest|
      {
        var oldest := rest[0];
        assert rest[1..] == frames[k + 1..] && !Roomy(frames, k, incoming, c);
        if oldest.name !in c.stuck { files := files - {oldest.name}; }
        if !DeletionFails(c, oldest.name) { total := total - oldest.frame.size; }
        rest, k := rest[1..], k + 1;
      }
      room := |rest| < WATCH_CUSTODY_MAX_FILES && total + incoming <= WATCH_CUSTODY_MAX_BYTES;
    }

    /** What is left on disk is the unseen files and the counted ones. When deletions succeed
        there is room for any legal frame, the fewest oldest frames go, and when nothing is
        unseen the number of files is within its limit too. */
    method MakeRoom(incoming: nat, c: Conditions) returns (room: bool, ghost frames: seq<Listed>, ghost k: nat)
      modifies this
      ensures Lists(frames, old(files) - c.skipped) && OldestFirst(frames)
      ensures Stops(frames, k, incoming, c) && (room <==> Roomy(frames, k, incoming, c))
      ensures files == Left(old(files), frames, k, c) && Shrunk(old(files), files)
      ensures Bytes(files) == Bytes(Unseen(old(files), c.skipped)) + Counted(frames, k, c)
      ensures room ==> Counted(frames, k, c) + incoming <= WATCH_CUSTODY_MAX_BYTES
      ensures c.stuck == {} && c.vanished == {} && incoming <= WATCH_FRAME_MAX_BYTES ==>
                room && LeastEviction(frames, incoming, k)
      ensures c.stuck == {} && c.skipped == {} && room ==> |files| < WATCH_CUSTODY_MAX_FILES
    {
      var found := ExistingFrames(c.skipped);
      frames := found;
      assert Present(frames, 0, files);
      room, k := Evict(found, incoming, c);
      LeftKeeps(old(files), frames, k, c);
      BytesLeft(old(files), frames, k, c);
      StuckIsAccounted(frames, k, c);
      if c.stuck == {} && c.vanished == {} && incoming <= WATCH_FRAME_MAX_BYTES { StopsLeast(frames, k, incoming, c); }
      if c.stuck == {} && c.skipped == {} && room {
        assert old(files) - c.skipped == old(files);
        LeftCounts(old(files), frames, k, c);
        ListingCounts(frames[k..], files);
      }
    }

    /** Room, an exclusive new file, its bytes; a failed write is removed again, if it can be.
        An accepted frame is within budget exactly when the unseen bytes fit into what the
        counted ones and the frame leave of it. */
    method TakeFrame(name: nat, size: nat, c: Conditions)
      returns (accepted: bool, ghost frames: seq<Listed>, ghost k: nat)
      requires name !in files && size <= WATCH_FRAME_MAX_BYTES
      modifies this
      ensures Lists(frames, old(files) - c.skipped) && OldestFirst(frames) && Stops(frames, k, size, c)
      ensures accepted <==> Roomy(frames, k, size, c) && c.opens && c.writes
      ensures Smooth(c) ==> accepted && LeastEviction(frames, size, k)
      ensures accepted ==> files == Left(old(files), frames, k, c)[name := Frame(size, c.now)]
      ensures accepted ==> Counted(frames, k, c) + size <= WATCH_CUSTODY_MAX_BYTES
      ensures accepted ==>
                (Bytes(files) <= WATCH_CUSTODY_MAX_BYTES <==>
                 Bytes(Unseen(old(files), c.skipped)) <= WATCH_CUSTODY_MAX_BYTES - size - Counted(frames, k, c))
      ensures !accepted && Bytes(Unseen(old(files), c.skipped)) == 0 ==>
                Bytes(files) <= Bytes(old(files)) || Bytes(files) <= WATCH_CUSTODY_MAX_BYTES
      ensures accepted && c.stuck == {} && c.skipped == {} ==> |files| <= WATCH_CUSTODY_MAX_FILES
      ensures Shrunk(old(files), files - {name})
    {
      var room;
      room, frames, k := MakeRoom(size, c);
      accepted := false;
      ShrunkBytes(old(files), files);
      assert files - {name} == files;
      if !room || !c.opens { return; }
      ghost var before := files;
      var written := if c.writes || c.partial > size then size else c.partial;
      BytesPlus(files, name, Frame(written, c.now));
      files := files[name := Frame(written, c.now)];
      assert files - {name} == before && files.Keys == before.Keys + {name};
      if c.writes {
        accepted := true;
      } else if name !in c.stuck {
        files := files - {name};
      }
    }

    /** Only legal frames among the first sixteen are taken, and all of them when no deletion
        and no write fails. When every file can be examined, the bytes stay in budget once a
        frame was accepted, and a budget that held before the call holds after it. */
    method CustodyWatchFrames(sources: seq<Option<nat>>, conditions: seq<Conditions>) returns (accepted: seq<nat>)
      requires |conditions| == |sources|
      modifies this
      ensures var legal := Legal(sources, if |sources| <= 16 then |sources| else 16);
              |accepted| <= legal && ((forall c <- conditions :: Smooth(c)) ==> |accepted| == legal)
      ensures AllSeen(conditions) && (accepted != [] || Bytes(old(files)) <= WATCH_CUSTODY_MAX_BYTES) ==>
                Bytes(files) <= WATCH_CUSTODY_MAX_BYTES
    {
      accepted := [];
      var considered := if |sources| < WATCH_FRAME_MAX_COUNT then |sources| else WATCH_FRAME_MAX_COUNT;
      for i := 0 to considered
        invariant |accepted| <= Legal(sources, i)
        invariant (forall c <- conditions :: Smooth(c)) ==> |accepted| == Legal(sources, i)
        invariant AllSeen(conditions) && (accepted != [] || Bytes(old(files)) <= WATCH_CUSTODY_MAX_BYTES) ==>
                    Bytes(files) <= WATCH_CUSTODY_MAX_BYTES
      {
        if sources[i].Some? && 0 < sources[i].value <= WATCH_FRAME_MAX_BYTES {
          var name := Unused(files.Keys);
          assert conditions[i] in conditions;
          assert conditions[i].skipped == {} ==> Unseen(files, conditions[i].skipped) == map[];
          var took;
          ghost var frames, k;
          took, frames, k := TakeFrame(name, sources[i].value, conditions[i]);
          if took { accepted := accepted + [name]; }
        }
      }
    }
  }

  method OldestOf(files: Root, names: set<nat>) returns (oldest: nat)
    requires names != {} && names <= files.Keys
    ensures oldest in names && forall name <- names :: files[oldest].mtime <= files[name].mtime
  {
    oldest :| oldest in names;
    var rest := names - {oldest};
    while rest != {}
      invariant oldest in names && rest <= names
      invariant forall name <- names - rest :: files[oldest].mtime <= files[name].mtime
      decreases rest
    {
      var name :| name in rest;
      if files[name].mtime < files[oldest].mtime { oldest := name; }
      rest := rest - {name};
    }
  }

  lemma {:induction false} StopsLeast(frames: seq<Listed>, k: nat, incoming: nat, c: Conditions)
    requires Stops(frames, k, incoming, c) && c.stuck == {} && c.vanished == {}
    requires incoming <= WATCH_FRAME_MAX_BYTES
    ensures Roomy(frames, k, incoming, c) && LeastEviction(frames, incoming, k)
  {
    forall j | 0 <= j <= |frames|
      ensures Roomy(frames, j, incoming, c) <==> Fits(frames[j..], incoming)
    {
      StuckIsAccounted(frames, j, c);
    }
    if k == |frames| { assert frames[k..] == []; }
  }

  ghost predicate AlwaysWithin(unseen: nat) {
    forall frames, size :: Fits(frames, size) ==> unseen + Sum(frames) + size <= WATCH_CUSTODY_MAX_BYTES
  }

  /** The budget is safe whatever is listed and whatever comes exactly when no bytes are unseen. */
  lemma UnseenBytesDecide(unseen: nat)
    ensures AlwaysWithin(unseen) <==> unseen == 0
  {
    var frames := [Listed(0, Frame(WATCH_CUSTODY_MAX_BYTES - 1, 0))];
    assert Sum(frames[1..]) == 0;
    assert Fits(frames, 1);
  }

  /** One lstat that fails is enough: the frame is accepted and the budget is exceeded. */
  method SkippedFileBreaksBudget(full: Frame, size: nat, now: int) returns (custody: Custody, accepted: bool)
    requires full.size == WATCH_CUSTODY_MAX_BYTES && 0 < size <= WATCH_FRAME_MAX_BYTES
    ensures accepted && Bytes(custody.files) > WATCH_CUSTODY_MAX_BYTES
  {
    custody := new Custody(map[0 := full]);
    var c := Conditions({0}, {}, {}, true, true, 0, now);
    ghost var before := custody.files;
    ghost var frames, k;
    accepted, frames, k := custody.TakeFrame(1, size, c);
    assert Unseen(before, {0}) == before;
    BytesWithout(before, 0);
    assert before - {0} == map[];
  }

  /** Whatever files with any bytes go unexamined, there is a custody holding them that accepts
      a frame and exceeds its budget. */
  method UnseenBytesBreakBudget(unseen: Root, now: int) returns (custody: Custody, accepted: bool)
    requires Bytes(unseen) > 0
    ensures accepted && Bytes(custody.files) > WATCH_CUSTODY_MAX_BYTES
    ensures forall name <- unseen :: name in custody.files && custody.files[name] == unseen[name]
  {
    var n := Unused(unseen.Keys);
    var name := Unused(unseen.Keys + {n});
    var large := Frame(WATCH_CUSTODY_MAX_BYTES - 1, 0);
    ghost var before := unseen[n := large];
    SeenAndUnseen(unseen, n, large);
    custody := new Custody(unseen[n := large]);
    var c := Conditions(unseen.Keys, {}, {}, true, true, 0, now);
    ghost var frames, k;
    accepted, frames, k := custody.TakeFrame(name, 1, c);
    AllFits(frames, k, n, large, c);
  }

  lemma SeenAndUnseen(unseen: Root, n: nat, frame: Frame)
    requires n !in unseen
    ensures unseen[n := frame] - unseen.Keys == map[n := frame] && Unseen(unseen[n := frame], unseen.Keys) == unseen
  {}

  lemma AllFits(frames: seq<Listed>, k: nat, n: nat, frame: Frame, c: Conditions)
    requires Lists(frames, map[n := frame]) && frame.size < WATCH_CUSTODY_MAX_BYTES && Stops(frames, k, 1, c)
    ensures k == 0 && Roomy(frames, k, 1, c) && Counted(frames, k, c) == frame.size
  {
    OnlyListed(frames, n, frame);
    assert frames[0..] == frames;
    assert Roomy(frames, 0, 1, c);
  }

  lemma OnlyListed(frames: seq<Listed>, n: nat, frame: Frame)
    requires Lists(frames, map[n := frame])
    ensures frames == [Listed(n, frame)] && Sum(frames) == frame.size
  {
    ListingCounts(frames, map[n := frame]);
    BytesWithout(map[n := frame], n);
    assert map[n := frame] - {n} == map[];
    assert frames[0] in frames;
  }

  /** Stands in for a random name. */
  method Unused(names: set<nat>) returns (name: nat)
    ensures name !in names
  {
    name := 0;
    var above := names;
    while above != {}
      invariant above <= names && forall n <- names :: n in above || n < name
      decreases above
    {
      var n :| n in above;
      if n >= name { name := n + 1; }
      above := above - {n};
    }
  }

  lemma {:induction false} ShrunkBytes(before: Root, after: Root)
    requires Shrunk(before, after)
    ensures Bytes(after) <= Bytes(before)
    decreases |before|
  {
    if after != map[] {
      var name :| name in after;
      BytesWithout(before, name);
      BytesWithout(after, name);
      ShrunkBytes(before - {name}, after - {name});
    }
  }
}
