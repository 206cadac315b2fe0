/** Instruction files and skills that must be read before files are touched: which are
    pending, which are loaded at which version, and what a compaction forgets. */
module ContextResources {
  import opened Options
  import opened Sets

  type Path = seq<string>
  type Text = seq<bv8>

  const AGENTS := "AGENTS.md"
  const MAX_AGENTS_BYTES := 65536
  const MAX_SKILL_BYTES := 65536
  const MAX_SKILL_TOTAL_BYTES := 196608
  const MAX_SKILLS_PER_CALL := 8
  const MAX_TREE_DIRECTORIES := 4096
  const MAX_TREE_AGENTS := 128

  datatype Stat = Regular | Directory | Special
  datatype EntryKind = PlainFile | Symlink | Folder | Device
  datatype Entry = Entry(name: string, kind: EntryKind)

  /** The file system as the process sees it; a missing key is a call that throws. */
  datatype World = World(resolved: map<Path, Path>, stat: map<Path, Stat>, text: map<Path, Text>,
                         entries: map<Path, seq<Entry>>)

  datatype Kind = AsFile | AsDirectory | Auto

  datatype Id = Skill(name: string) | Agents(path: Path)

  /** A version is a digest of the text, taken to be injective: here the text itself. */
  datatype Descriptor = Descriptor(id: Id, display: Path, version: Text)

  /** An instruction file as found, and where it really is. */
  datatype Ref = Ref(display: Path, key: Path)

  datatype Verdict = Passed | Interrupted(resource: Descriptor) | Unreadable | TooManyDirectories | TooManyAgents

  // ----- Finding the governing files

  function Dirname(p: Path): Path { if p == [] then [] else p[..|p| - 1] }

  function DirectoryFor(w: World, kind: Kind, p: Path): Path {
    if kind == AsDirectory || (kind == Auto && p in w.stat && w.stat[p] == Directory) then p else Dirname(p)
  }

  /** The instruction file directly in `dir`, when it resolves to a regular file not in `seen`. */
  function AgentsIn(w: World, dir: Path, seen: set<Path>): Option<Ref> {
    var p := dir + [AGENTS];
    if p in w.resolved && w.resolved[p] in w.stat && w.stat[w.resolved[p]] == Regular && w.resolved[p] !in seen
    then Some(Ref(p, w.resolved[p])) else None
  }

  function Nearest(w: World, dir: Path, seen: set<Path>): Option<Ref>
    decreases |dir|
  {
    if AgentsIn(w, dir, seen).Some? || dir == [] then AgentsIn(w, dir, seen) else Nearest(w, Dirname(dir), seen)
  }

  /** Depth `k` holds the deepest instruction file at or above `dir`. */
  predicate Deepest(w: World, dir: Path, seen: set<Path>, k: nat) {
    && k <= |dir| && AgentsIn(w, dir[..k], seen).Some?
    && forall j :: k < j <= |dir| ==> AgentsIn(w, dir[..j], seen).None?
  }

  lemma {:induction false} NearestIsDeepest(w: World, dir: Path, seen: set<Path>)
    ensures match Nearest(w, dir, seen)
            case None => forall j :: 0 <= j <= |dir| ==> AgentsIn(w, dir[..j], seen).None?
            case Some(ref) => exists k: nat :: Deepest(w, dir, seen, k) && AgentsIn(w, dir[..k], seen) == Some(ref)
    decreases |dir|
  {
    assert dir[..|dir|] == dir;
    if AgentsIn(w, dir, seen).Some? {
      assert Deepest(w, dir, seen, |dir|);
    } else if dir != [] {
      var up := Dirname(dir);
      NearestIsDeepest(w, up, seen);
      assert forall j :: 0 <= j <= |up| ==> up[..j] == dir[..j];
      if Nearest(w, up, seen).Some? {
        var k: nat :| Deepest(w, up, seen, k) && AgentsIn(w, up[..k], seen) == Nearest(w, up, seen);
        assert Deepest(w, dir, seen, k);
      }
    }
  }

  /** The directories whose ancestry governs a target: as written, and as resolved. */
  function Starts(w: World, target: Path, kind: Kind): seq<Path> {
    var lexical := DirectoryFor(w, kind, target);
    if target in w.resolved && DirectoryFor(w, kind, w.resolved[target]) != lexical
    then [lexical, DirectoryFor(w, kind, w.resolved[target])] else [lexical]
  }

  function Keys(refs: seq<Ref>): set<Path> { set ref | ref in refs :: ref.key }

  /** From each starting directory, the nearest file that no earlier start found. */
  function Collected(w: World, starts: seq<Path>): seq<Ref> {
    if starts == [] then []
    else
      var before := Collected(w, starts[..|starts| - 1]);
      var next := Nearest(w, starts[|starts| - 1], Keys(before));
      if next.Some? then before + [next.value] else before
  }

  function Governing(w: World, target: Path, kind: Kind): seq<Ref> { Collected(w, Starts(w, target, kind)) }

  lemma {:induction false} SkippingClimbsFurther(w: World, dir: Path, key: Path)
    ensures var all, rest := Nearest(w, dir, {}), Nearest(w, dir, {key});
            && (rest.Some? ==> all.Some? && |rest.value.display| <= |all.value.display|)
            && (all.Some? && all.value.key != key ==> rest == all)
            && (rest.Some? && all.value.key == key ==> |rest.value.display| < |all.value.display|)
    ensures Nearest(w, dir, {}).Some? ==> |Nearest(w, dir, {}).value.display| <= |dir| + 1
    decreases |dir|
  {
    if dir != [] { SkippingClimbsFurther(w, Dirname(dir), key); }
  }

  /** The resolved directory contributes its nearest file, unless the written one already
      found it. Then the climb goes on, and finds a file that is nearest to neither directory
      exactly when there is any other file at or above the resolved one. */
  lemma SharedFileIsClimbedPast(w: World, written: Path, actual: Path)
    requires Nearest(w, written, {}).Some? && Nearest(w, actual, {}).Some?
    ensures var first, second := Nearest(w, written, {}).value, Nearest(w, actual, {}).value;
            var found := Collected(w, [written, actual]);
            if first.key != second.key then found == [first, second]
            else
              && |found| > 0 && found[0] == first
              && (|found| == 2 <==> exists j :: 0 <= j <= |actual| && AgentsIn(w, actual[..j], {first.key}).Some?)
              && (|found| == 1 || |found| == 2)
              && (|found| == 2 ==> found[1].key != first.key && |found[1].display| < |second.display|)
  {
    assert [written, actual][..1] == [written] && [written][..0] == [];
    var first := Nearest(w, written, {}).value;
    assert Keys([]) == {};
    assert Keys([first]) == {first.key} by { assert first in [first]; }
    assert Collected(w, [written]) == [first];
    SkippingClimbsFurther(w, actual, first.key);
    NearestIsDeepest(w, actual, {first.key});
  }

  /** A link from one directory to its sibling: the file of their parent governs both, and the
      file at the top is found as well. */
  lemma SiblingLinkClimbsPast(a: string, link: string, target: string, file: string)
    requires link != target && file != AGENTS
    ensures var w := SiblingWorld(a, link, target, file);
            && Nearest(w, [a, link], {}) == Nearest(w, [a, target], {}) == Some(Ref([a, AGENTS], [a, AGENTS]))
            && Governing(w, [a, link, file], AsFile) == [Ref([a, AGENTS], [a, AGENTS]), Ref([AGENTS], [AGENTS])]
  {
    var w := SiblingWorld(a, link, target, file);
    var top: Path := [];
    assert top + [AGENTS] == [AGENTS] && [a] + [AGENTS] == [a, AGENTS];
    assert Dirname([a]) == top;
    SiblingClimb(w, a, link);
    SiblingClimb(w, a, target);
    assert Dirname([a, link, file]) == [a, link] && Dirname([a, target, file]) == [a, target];
    assert Starts(w, [a, link, file], AsFile) == [[a, link], [a, target]];
    var starts := [[a, link], [a, target]];
    assert starts[..1] == [[a, link]] && [[a, link]][..0] == [];
    var first := Ref([a, AGENTS], [a, AGENTS]);
    assert Keys([]) == {};
    assert Keys([first]) == {[a, AGENTS]} by { assert first in [first]; }
    assert Collected(w, [[a, link]]) == [first];
  }

  function SiblingWorld(a: string, link: string, target: string, file: string): World {
    World(map[[AGENTS] := [AGENTS], [a, AGENTS] := [a, AGENTS], [a, link, file] := [a, target, file]],
          map[[AGENTS] := Regular, [a, AGENTS] := Regular], map[], map[])
  }

  lemma SiblingClimb(w: World, a: string, d: string)
    requires [a, d, AGENTS] !in w.resolved
    requires AgentsIn(w, [a], {}) == Some(Ref([a, AGENTS], [a, AGENTS]))
    requires AgentsIn(w, [], {[a, AGENTS]}) == Some(Ref([AGENTS], [AGENTS]))
    ensures Nearest(w, [a, d], {}) == Some(Ref([a, AGENTS], [a, AGENTS]))
    ensures Nearest(w, [a, d], {[a, AGENTS]}) == Some(Ref([AGENTS], [AGENTS]))
  {
    assert [a, d] + [AGENTS] == [a, d, AGENTS] && [a] + [AGENTS] == [a, AGENTS];
    assert Dirname([a, d]) == [a] && Dirname([a]) == [];
    assert AgentsIn(w, [a], {[a, AGENTS]}) == None;
    assert Nearest(w, [], {[a, AGENTS]}) == Some(Ref([AGENTS], [AGENTS]));
    assert Nearest(w, [a], {[a, AGENTS]}) == Some(Ref([AGENTS], [AGENTS]));
  }

  /** `ref` is the instruction file in `dir`: its name there resolves to a regular file. */
  predicate IsFileOf(w: World, dir: Path, ref: Ref) {
    && ref.display == dir + ["AGENTS.md"] && ref.display in w.resolved && ref.key == w.resolved[ref.display]
    && ref.key in w.stat && w.stat[ref.key] == Regular
  }

  /** `ref` is in the deepest directory at or above `start` that has an instruction file. */
  ghost predicate IsNearest(w: World, start: Path, ref: Ref) {
    exists k :: 0 <= k <= |start| && IsFileOf(w, start[..k], ref) && NoneBelow(w, start, k)
  }

  ghost predicate NoneBelow(w: World, start: Path, k: int) {
    forall j, other :: 0 <= j <= |start| && k < j ==> !IsFileOf(w, start[..j], other)
  }

  lemma AgentsInIsFileOf(w: World, dir: Path, seen: set<Path>)
    ensures forall ref :: AgentsIn(w, dir, seen) == Some(ref) <==> IsFileOf(w, dir, ref) && ref.key !in seen
  {}

  lemma NearestMeans(w: World, start: Path, seen: set<Path>)
    ensures Nearest(w, start, {}).Some? ==> IsNearest(w, start, Nearest(w, start, {}).value)
    ensures Nearest(w, start, {}).None? ==> NoneBelow(w, start, -1)
    ensures Nearest(w, start, seen).Some? ==>
              exists k :: 0 <= k <= |start| && IsFileOf(w, start[..k], Nearest(w, start, seen).value)
  {
    NearestIsDeepest(w, start, {});
    NearestIsDeepest(w, start, seen);
    forall j | 0 <= j <= |start|
      ensures forall ref :: AgentsIn(w, start[..j], {}) == Some(ref) <==> IsFileOf(w, start[..j], ref)
      ensures forall ref :: AgentsIn(w, start[..j], seen) == Some(ref) ==> IsFileOf(w, start[..j], ref)
    {
      AgentsInIsFileOf(w, start[..j], {});
      AgentsInIsFileOf(w, start[..j], seen);
    }
    if Nearest(w, start, {}).Some? {
      var k: nat :| Deepest(w, start, {}, k) && AgentsIn(w, start[..k], {}) == Nearest(w, start, {});
      assert NoneBelow(w, start, k);
    }
  }

  /** A directory is searched from itself, and anything else from the directory it is in. */
  function SearchStart(w: World, kind: Kind, p: Path): Path {
    var isDirectory := kind == AsDirectory || (kind == Auto && p in w.stat && w.stat[p] == Directory);
    if isDirectory || p == [] then p else p[..|p| - 1]
  }

  /** The first file found is the nearest to where the search starts, if there is any, and every
      file found is at or above that directory or the one that the target resolves to. */
  ghost predicate RightlyFound(w: World, target: Path, kind: Kind, found: seq<Ref>) {
    var start := SearchStart(w, kind, target);
    && (NoneBelow(w, start, -1) || (found != [] && IsNearest(w, start, found[0])))
    && (target !in w.resolved ==> |found| <= 1 && forall ref <- found :: IsNearest(w, start, ref))
    && forall ref <- found ::
         AtOrAbove(w, start, ref)
         || (target in w.resolved && AtOrAbove(w, SearchStart(w, kind, w.resolved[target]), ref))
  }

  lemma SearchStartsAt(w: World, target: Path, kind: Kind)
    ensures RightlyFound(w, target, kind, Governing(w, target, kind))
  {
    var start := DirectoryFor(w, kind, target);
    var starts := Starts(w, target, kind);
    assert starts[..1] == [start] && [start][..0] == [];
    assert Keys([]) == {};
    NearestMeans(w, start, {});
    assert Collected(w, [start]) == if Nearest(w, start, {}).Some? then [Nearest(w, start, {}).value] else [];
    if |starts| == 2 {
      NearestMeans(w, starts[1], Keys(Collected(w, [start])));
    } else {
      assert starts == [start];
    }
  }

  /** A directory's own instruction file comes first, whichever way the directory is named. */
  lemma DirectoryReadsItsOwn(w: World, target: Path, kind: Kind)
    requires kind == AsDirectory || (kind == Auto && target in w.stat && w.stat[target] == Directory)
    requires var p := target + ["AGENTS.md"];
             p in w.resolved && w.resolved[p] in w.stat && w.stat[w.resolved[p]] == Regular
    ensures var p := target + ["AGENTS.md"];
            var found := Governing(w, target, kind);
            found != [] && found[0] == Ref(p, w.resolved[p])
  {
    var p := target + ["AGENTS.md"];
    SearchStartsAt(w, target, kind);
    assert target[..|target|] == target;
    assert IsFileOf(w, target[..|target|], Ref(p, w.resolved[p]));
  }

  /** A file reads the instructions of the directory it is in first. */
  lemma FileReadsItsDirectory(w: World, target: Path, kind: Kind)
    requires target != []
    requires kind == AsFile || (kind == Auto && (target !in w.stat || w.stat[target] != Directory))
    requires var p := target[..|target| - 1] + ["AGENTS.md"];
             p in w.resolved && w.resolved[p] in w.stat && w.stat[w.resolved[p]] == Regular
    ensures var p := target[..|target| - 1] + ["AGENTS.md"];
            var found := Governing(w, target, kind);
            found != [] && found[0] == Ref(p, w.resolved[p])
  {
    var dir := target[..|target| - 1];
    var p := dir + ["AGENTS.md"];
    SearchStartsAt(w, target, kind);
    assert dir[..|dir|] == dir;
    assert IsFileOf(w, dir[..|dir|], Ref(p, w.resolved[p]));
  }

  ghost predicate AtOrAbove(w: World, start: Path, ref: Ref) {
    exists k :: 0 <= k <= |start| && IsFileOf(w, start[..k], ref)
  }

  method NearestAgents(w: World, target: Path, kind: Kind) returns (found: seq<Ref>)
    ensures found == Governing(w, target, kind) && RightlyFound(w, target, kind, found)
  {
    SearchStartsAt(w, target, kind);
    var directories := [DirectoryFor(w, kind, target)];
    if target in w.resolved {
      var physical := DirectoryFor(w, kind, w.resolved[target]);
      if physical !in directories { directories := directories + [physical]; }
    }
    found := [];
    var seen: set<Path> := {};
    for i := 0 to |directories|
      invariant seen == Keys(found) && found == Collected(w, directories[..i])
    {
      assert directories[..i + 1][..i] == directories[..i];
      ghost var before := found;
      var current, climbing := directories[i], true;
      while climbing
        invariant climbing ==> found == before && seen == Keys(before)
        invariant climbing ==> Nearest(w, current, Keys(before)) == Nearest(w, directories[i], Keys(before))
        invariant !climbing ==> seen == Keys(found) && found == Collected(w, directories[..i + 1])
        decreases climbing, |current|
      {
        var candidate := current + [AGENTS];
        if candidate in w.resolved && w.resolved[candidate] in w.stat && w.stat[w.resolved[candidate]] == Regular
          && w.resolved[candidate] !in seen {
          seen := seen + {w.resolved[candidate]};
          found := found + [Ref(candidate, w.resolved[candidate])];
          climbing := false;
        } else if current == [] {
          climbing := false;
        } else {
          current := Dirname(current);
        }
      }
    }
    assert directories[..|directories|] == directories == Starts(w, target, kind);
  }

  // ----- Loaded resources

  function Bounded(w: World, p: Path, limit: nat): Option<Text> {
    if p in w.text && |w.text[p]| <= limit then Some(w.text[p]) else None
  }

  function Resource(w: World, ref: Ref): Descriptor
    requires ref.key in w.text
  {
    Descriptor(Agents(ref.key), ref.display, w.text[ref.key])
  }

  predicate Readable(w: World, ref: Ref) { Bounded(w, ref.key, MAX_AGENTS_BYTES).Some? }

  predicate Loaded(loaded: map<Id, Descriptor>, id: Id, version: Text) { id in loaded && loaded[id].version == version }

  /** The file is readable and loaded at the version it has now. */
  predicate Current(w: World, loaded: map<Id, Descriptor>, ref: Ref) {
    Readable(w, ref) && Loaded(loaded, Agents(ref.key), w.text[ref.key])
  }

  predicate Passes(w: World, loaded: map<Id, Descriptor>, refs: seq<Ref>) {
    forall ref <- refs :: Current(w, loaded, ref)
  }

  /** `r` is the current text of a file among `refs` that is not loaded at that version. */
  predicate Demands(w: World, loaded: map<Id, Descriptor>, ref: Ref, r: Descriptor) {
    Readable(w, ref) && !Current(w, loaded, ref) && r == Resource(w, ref)
  }

  /** File `i` is the first that does not pass: the one at `key`, or one that cannot be read. */
  predicate StopsAt(w: World, loaded: map<Id, Descriptor>, refs: seq<Ref>, i: nat, key: Option<Path>) {
    && i < |refs| && Passes(w, loaded, refs[..i])
    && (if key.Some? then refs[i].key == key.value && Readable(w, refs[i]) else !Readable(w, refs[i]))
  }

  // ----- Trees

  predicate HasFolder(w: World, dir: Path, name: string) {
    dir in w.entries && Entry(name, Folder) in w.entries[dir]
  }

  predicate IsAgents(e: Entry) { e.name == AGENTS && (e.kind == PlainFile || e.kind == Symlink) }

  predicate Met(es: seq<Entry>) { exists i :: 0 <= i < |es| && IsAgents(es[i]) }

  predicate HoldsAgents(w: World, dir: Path) {
    dir in w.entries && Met(w.entries[dir])
  }

  predicate IsPrefix(p: Path, d: Path) { |p| <= |d| && d[..|p|] == p }

  /** `d` is below `top`, through real directories only. */
  predicate Below(w: World, top: Path, d: Path) {
    IsPrefix(top, d) && forall i :: |top| <= i < |d| ==> HasFolder(w, d[..i], d[i])
  }

  /** The directory a tree access walks, if the target is one. */
  function Root(w: World, target: Path): Option<Path> {
    if target in w.resolved && w.resolved[target] in w.stat && w.stat[w.resolved[target]] == Directory
    then Some(w.resolved[target]) else None
  }

  /** The file governs the target, or lies in the target's tree. */
  ghost predicate Governs(w: World, target: Path, ref: Ref) {
    || ref in Governing(w, target, Auto)
    || (Root(w, target).Some? && exists d :: InTree(w, Root(w, target).value, d, ref))
  }

  /** The file is found for the instruction file of a directory in the tree. */
  predicate InTree(w: World, root: Path, d: Path, ref: Ref) {
    Below(w, root, d) && HoldsAgents(w, d) && ref in Governing(w, d + [AGENTS], AsFile)
  }

  function WithAgents(w: World, done: set<Path>): set<Path> { set d | d in done && HoldsAgents(w, d) }

  ghost predicate ManyBelow(w: World, root: Path, n: nat) {
    exists ds: set<Path> :: |ds| > n && forall d <- ds :: Below(w, root, d)
  }

  ghost predicate ManyAgentsBelow(w: World, root: Path, n: nat) {
    exists ds: set<Path> :: |WithAgents(w, ds)| > n && forall d <- ds :: Below(w, root, d)
  }

  lemma WithAgentsGrows(w: World, done: set<Path>, dir: Path)
    requires dir !in done
    ensures |WithAgents(w, done + {dir})| == |WithAgents(w, done)| + if HoldsAgents(w, dir) then 1 else 0
  {
    var grown := if HoldsAgents(w, dir) then WithAgents(w, done) + {dir} else WithAgents(w, done);
    assert WithAgents(w, done + {dir}) == grown;
  }

  predicate DirectoryPasses(w: World, loaded: map<Id, Descriptor>, d: Path) {
    HoldsAgents(w, d) ==> Passes(w, loaded, Governing(w, d + [AGENTS], AsFile))
  }

  ghost predicate GovernsAs(w: World, target: Path, key: Path) {
    exists ref :: Governs(w, target, ref) && ref.key == key
  }

  /** The governing files not loaded at their current version. */
  ghost function Stale(w: World, target: Path, loaded: map<Id, Descriptor>): set<Path> {
    set key | key in w.text && GovernsAs(w, target, key) && !Loaded(loaded, Agents(key), w.text[key])
  }

  predicate Unique(es: seq<Entry>) { forall i, j :: 0 <= i < j < |es| ==> es[i].name != es[j].name }

  /** A directory lists each name once. */
  predicate Sane(w: World) { forall d <- w.entries :: Unique(w.entries[d]) }

  function Folders(dir: Path, es: seq<Entry>): seq<Path> {
    if es == [] then []
    else
      var e := es[|es| - 1];
      Folders(dir, es[..|es| - 1]) + if e.kind == Folder then [dir + [e.name]] else []
  }

  predicate AllDifferent(ps: seq<Path>) { forall i, j :: 0 <= i < j < |ps| ==> ps[i] != ps[j] }

  predicate FolderOf(dir: Path, es: seq<Entry>, p: Path) {
    p != [] && Dirname(p) == dir && Entry(p[|p| - 1], Folder) in es
  }

  lemma {:induction false} FoldersListed(dir: Path, es: seq<Entry>)
    ensures forall p :: p in Folders(dir, es) <==> FolderOf(dir, es, p)
  {
    if es != [] {
      var e, before := es[|es| - 1], es[..|es| - 1];
      FoldersListed(dir, before);
      assert es == before + [e];
      forall p
        ensures p in Folders(dir, es) <==> FolderOf(dir, es, p)
      {
        assert FolderOf(dir, es, p) <==> FolderOf(dir, before, p) || FolderOf(dir, [e], p);
        assert FolderOf(dir, [e], p) <==> e.kind == Folder && p == dir + [e.name];
      }
    }
  }

  lemma {:induction false} FoldersDiffer(dir: Path, es: seq<Entry>)
    requires Unique(es)
    ensures AllDifferent(Folders(dir, es))
  {
    if es != [] {
      var e, before := es[|es| - 1], es[..|es| - 1];
      FoldersDiffer(dir, before);
      if e.kind == Folder {
        assert !FolderOf(dir, before, dir + [e.name]);
        FoldersListed(dir, before);
      } else {
        assert Folders(dir, es) == Folders(dir, before);
      }
    }
  }

  lemma FoldersPushed(w: World, dir: Path, before: seq<Path>)
    requires Sane(w) && dir in w.entries
    ensures var after := before + Folders(dir, w.entries[dir]);
            Pushed(w, dir, before, after) && AllPushed(w, dir, after)
  {
    var fs := Folders(dir, w.entries[dir]);
    FoldersListed(dir, w.entries[dir]);
    FoldersDiffer(dir, w.entries[dir]);
    var all := before + fs;
    assert forall i :: |before| <= i < |all| ==> all[i] == fs[i - |before|] && FolderOf(dir, w.entries[dir], all[i]);
    forall name | HasFolder(w, dir, name)
      ensures dir + [name] in before + fs
    {
      assert FolderOf(dir, w.entries[dir], dir + [name]);
    }
  }

  predicate ChildFolder(w: World, dir: Path, p: Path) {
    p != [] && Dirname(p) == dir && HasFolder(w, dir, p[|p| - 1])
  }

  /** The folders of `dir`, each once, pushed on top of `before`. */
  predicate Pushed(w: World, dir: Path, before: seq<Path>, after: seq<Path>) {
    && |before| <= |after| && after[..|before|] == before
    && (forall i :: |before| <= i < |after| ==> ChildFolder(w, dir, after[i]))
    && (forall i, j :: |before| <= i < j < |after| ==> after[i] != after[j])
  }

  ghost predicate AllPushed(w: World, dir: Path, stack: seq<Path>) {
    forall name :: HasFolder(w, dir, name) ==> dir + [name] in stack
  }

  /** No directory waiting is above another waiting or above a finished one. */
  predicate Apart(stack: seq<Path>, done: set<Path>) {
    && (forall i, j :: 0 <= i < |stack| && 0 <= j < |stack| && i != j ==> !IsPrefix(stack[i], stack[j]))
    && (forall i, d :: 0 <= i < |stack| && d in done ==> !IsPrefix(stack[i], d))
  }

  ghost predicate Explored(w: World, root: Path, stack: seq<Path>, done: set<Path>) {
    && (forall p <- stack :: Below(w, root, p)) && (forall d <- done :: Below(w, root, d))
    && forall d :: Below(w, root, d) ==> d in done || exists p <- stack :: Below(w, p, d)
  }

  lemma ApartStep(w: World, stack: seq<Path>, dir: Path, done: set<Path>, after: seq<Path>)
    requires Apart(stack + [dir], done) && Pushed(w, dir, stack, after)
    ensures dir !in done && Apart(after, done + {dir})
  {
    var all := stack + [dir];
    assert all[|stack|] == dir && forall i :: 0 <= i < |stack| ==> all[i] == stack[i] && after[i] == stack[i];
    assert IsPrefix(dir, dir);
    forall i, j | 0 <= i < |after| && 0 <= j < |after| && i != j
      ensures !IsPrefix(after[i], after[j])
    {
      if i < |stack| && j >= |stack| {
        assert !IsPrefix(all[i], all[|stack|]) && !IsPrefix(all[|stack|], all[i]);
        if IsPrefix(after[i], after[j]) { ChildPrefix(after[i], after[j]); }
      } else if i >= |stack| && j < |stack| {
        assert !IsPrefix(all[|stack|], all[j]);
        ParentPrefix(after[i], after[j]);
      } else if i < |stack| {
        assert !IsPrefix(all[i], all[j]);
      }
    }
    forall i, d | 0 <= i < |after| && d in done + {dir}
      ensures !IsPrefix(after[i], d)
    {
      if i < |stack| {
        assert !IsPrefix(all[i], if d in done then d else all[|stack|]);
      } else if d in done {
        assert !IsPrefix(all[|stack|], d);
        ParentPrefix(after[i], d);
      }
    }
  }

  lemma ChildPrefix(q: Path, child: Path)
    requires child != [] && IsPrefix(q, child)
    ensures q == child || IsPrefix(q, Dirname(child))
    ensures q == child ==> IsPrefix(Dirname(child), q)
  {}

  lemma ParentPrefix(child: Path, d: Path)
    requires child != []
    ensures IsPrefix(child, d) ==> IsPrefix(Dirname(child), d)
  {}

  lemma BelowChild(w: World, root: Path, child: Path)
    requires child != [] && Below(w, root, Dirname(child)) && HasFolder(w, Dirname(child), child[|child| - 1])
    ensures Below(w, root, child)
  {
    var dir := Dirname(child);
    forall i | |root| <= i < |child|
      ensures HasFolder(w, child[..i], child[i])
    {
      if i < |dir| { assert child[..i] == dir[..i] && child[i] == dir[i]; } else { assert child[..i] == dir; }
    }
  }

  lemma BelowFirstStep(w: World, dir: Path, d: Path)
    requires Below(w, dir, d) && d != dir
    ensures |dir| < |d| && HasFolder(w, dir, d[|dir|]) && Below(w, dir + [d[|dir|]], d)
  {
    assert d[..|d|] == d;
    assert d[..|dir| + 1] == dir + [d[|dir|]];
  }

  /** What waits and what is finished are different directories below the root. */
  lemma NextIsNew(w: World, root: Path, rest: seq<Path>, dir: Path, done: set<Path>)
    requires Explored(w, root, rest + [dir], done) && Apart(rest + [dir], done)
    ensures Below(w, root, dir) && dir !in done && |done + {dir}| == |done| + 1
    ensures forall d <- done + {dir} :: Below(w, root, d)
  {
    assert (rest + [dir])[|rest|] == dir && IsPrefix(dir, dir);
  }

  lemma ExploredStep(w: World, root: Path, stack: seq<Path>, dir: Path, done: set<Path>, after: seq<Path>)
    requires Explored(w, root, stack + [dir], done) && Pushed(w, dir, stack, after) && AllPushed(w, dir, after)
    ensures Explored(w, root, after, done + {dir})
  {
    assert dir in stack + [dir];
    forall p | p in after
      ensures Below(w, root, p)
    {
      if p in stack { assert p in stack + [dir]; } else { BelowChild(w, root, p); }
    }
    forall d | Below(w, root, d) && d !in done && d != dir
      ensures exists p <- after :: Below(w, p, d)
    {
      var p :| p in stack + [dir] && Below(w, p, d);
      if p == dir {
        BelowFirstStep(w, dir, d);
        assert dir + [d[|dir|]] in after;
      } else {
        assert p in after[..|stack|];
      }
    }
  }

  /** The walk so far: what waits and what is finished cover the tree, finished directories
      pass, and the counters count them. */
  ghost predicate Frontier(w: World, root: Path, loaded: map<Id, Descriptor>, stack: seq<Path>, done: set<Path>,
                           agents: nat) {
    && Explored(w, root, stack, done) && Apart(stack, done)
    && agents == |WithAgents(w, done)|
    && forall d <- done :: DirectoryPasses(w, loaded, d)
  }

  lemma FrontierStep(w: World, root: Path, loaded: map<Id, Descriptor>, rest: seq<Path>, dir: Path, done: set<Path>,
                     agents: nat, stack: seq<Path>)
    requires Frontier(w, root, loaded, rest + [dir], done, agents)
    requires Pushed(w, dir, rest, stack) && AllPushed(w, dir, stack) && DirectoryPasses(w, loaded, dir)
    ensures Frontier(w, root, loaded, stack, done + {dir}, if HoldsAgents(w, dir) then agents + 1 else agents)
  {
    NextIsNew(w, root, rest, dir, done);
    WithAgentsGrows(w, done, dir);
    ExploredStep(w, root, rest, dir, done, stack);
    ApartStep(w, rest, dir, done, stack);
  }

  lemma AgentsOverflow(w: World, root: Path, loaded: map<Id, Descriptor>, rest: seq<Path>, dir: Path, done: set<Path>,
                       agents: nat)
    requires Frontier(w, root, loaded, rest + [dir], done, agents) && HoldsAgents(w, dir)
    ensures ManyAgentsBelow(w, root, agents)
  {
    NextIsNew(w, root, rest, dir, done);
    WithAgentsGrows(w, done, dir);
  }

  lemma FrontierNext(w: World, root: Path, loaded: map<Id, Descriptor>, rest: seq<Path>, dir: Path, done: set<Path>,
                     agents: nat)
    requires Frontier(w, root, loaded, rest + [dir], done, agents)
    ensures Below(w, root, dir) && |done + {dir}| == |done| + 1 && ManyBelow(w, root, |done|)
  {
    NextIsNew(w, root, rest, dir, done);
  }

  lemma FrontierStart(w: World, root: Path, loaded: map<Id, Descriptor>)
    ensures Frontier(w, root, loaded, [root], {}, 0)
  {
    assert root in [root];
  }

  lemma FrontierDone(w: World, root: Path, loaded: map<Id, Descriptor>, done: set<Path>, agents: nat)
    requires Frontier(w, root, loaded, [], done, agents)
    ensures forall d :: Below(w, root, d) ==> DirectoryPasses(w, loaded, d)
    ensures !ManyBelow(w, root, |done|) && !ManyAgentsBelow(w, root, agents)
  {
    forall ds: set<Path> | forall d <- ds :: Below(w, root, d)
      ensures |ds| <= |done| && |WithAgents(w, ds)| <= |WithAgents(w, done)|
    {
      SubsetSize(ds, done);
      SubsetSize(WithAgents(w, ds), WithAgents(w, done));
    }
  }

  lemma ManyIsMonotone(w: World, root: Path, m: nat, n: nat)
    requires m <= n
    ensures ManyBelow(w, root, n) ==> ManyBelow(w, root, m)
    ensures ManyAgentsBelow(w, root, n) ==> ManyAgentsBelow(w, root, m)
  {}

  /** Every governing file can be read and the tree is within both limits. */
  ghost predicate Accessible(w: World, target: Path) {
    && (forall ref :: Governs(w, target, ref) ==> Readable(w, ref))
    && (Root(w, target).Some? ==> !TooLarge(w, Root(w, target).value))
  }

  ghost predicate TooLarge(w: World, root: Path) {
    ManyBelow(w, root, MAX_TREE_DIRECTORIES) || ManyAgentsBelow(w, root, MAX_TREE_AGENTS)
  }

  /** What a verdict on a target, other than an interrupt, says about the files. */
  ghost predicate Justified(w: World, target: Path, v: Verdict) {
    match v
    case Passed => Accessible(w, target)
    case Interrupted(_) => true
    case Unreadable => exists ref :: Governs(w, target, ref) && !Readable(w, ref)
    case TooManyDirectories => Root(w, target).Some? && ManyBelow(w, Root(w, target).value, MAX_TREE_DIRECTORIES)
    case TooManyAgents => Root(w, target).Some? && ManyAgentsBelow(w, Root(w, target).value, MAX_TREE_AGENTS)
  }

  /** What passing a tree means on disk: below a target that resolves to a directory, along
      folders that are listed as such, every instruction file that is listed and resolves to a
      regular file is loaded at the text it has. */
  lemma PassedMeansRead(w: World, target: Path, loaded: map<Id, Descriptor>, d: Path, e: Entry)
    requires forall ref :: Governs(w, target, ref) ==> Current(w, loaded, ref)
    requires target in w.resolved && w.resolved[target] in w.stat && w.stat[w.resolved[target]] == Directory
    requires IsPrefix(w.resolved[target], d)
    requires forall i :: |w.resolved[target]| <= i < |d| ==>
               d[..i] in w.entries && Entry(d[i], Folder) in w.entries[d[..i]]
    requires d in w.entries && e in w.entries[d] && e.name == "AGENTS.md" && (e.kind == PlainFile || e.kind == Symlink)
    requires var p := d + ["AGENTS.md"]; p in w.resolved && w.resolved[p] in w.stat && w.stat[w.resolved[p]] == Regular
    ensures var key := w.resolved[d + ["AGENTS.md"]];
            key in w.text && Agents(key) in loaded && loaded[Agents(key)].version == w.text[key]
  {
    var root, p := w.resolved[target], d + ["AGENTS.md"];
    assert Below(w, root, d) && HoldsAgents(w, d);
    assert p[..|p| - 1] == d;
    FileReadsItsDirectory(w, p, AsFile);
    var ref := Governing(w, p, AsFile)[0];
    assert InTree(w, root, d, ref);
    assert Root(w, target) == Some(root) && Governs(w, target, ref);
    assert Current(w, loaded, ref) && ref.key == w.resolved[p];
  }

  // ----- Acknowledgement, restoring

  predicate Mentions(rs: seq<Descriptor>, id: Id, version: Text) {
    exists r <- rs :: r.id == id && r.version == version
  }

  /** The pending resources that a list of acknowledgements names at their pending version. */
  function Taken(pending: map<Id, Descriptor>, rs: seq<Descriptor>): map<Id, Descriptor> {
    map id | id in pending && Mentions(rs, id, pending[id].version) :: pending[id]
  }

  lemma TakenAppend(pending: map<Id, Descriptor>, rs: seq<Descriptor>, r: Descriptor)
    ensures Taken(pending, rs + [r]) ==
            if r.id in pending && pending[r.id].version == r.version then Taken(pending, rs)[r.id := pending[r.id]]
            else Taken(pending, rs)
  {
    forall id, version
      ensures Mentions(rs + [r], id, version) <==> Mentions(rs, id, version) || (r.id == id && r.version == version)
    {
      assert r in rs + [r];
      assert forall x <- rs :: x in rs + [r];
    }
  }

  lemma TakenAlone(pending: map<Id, Descriptor>, r: Descriptor)
    requires r.id in pending && pending[r.id] == r
    ensures Taken(pending, [r]) == map[r.id := r]
  {
    assert r in [r];
  }

  /** Loading the text handed out removes exactly that file from the stale ones. */
  lemma ReadingOneIsProgress(w: World, target: Path, loaded: map<Id, Descriptor>, ref: Ref)
    requires Governs(w, target, ref) && Readable(w, ref) && !Current(w, loaded, ref)
    ensures ref.key in Stale(w, target, loaded)
    ensures Stale(w, target, loaded + map[Agents(ref.key) := Resource(w, ref)]) == Stale(w, target, loaded) - {ref.key}
  {
    assert GovernsAs(w, target, ref.key);
  }

  lemma AcknowledgeStep(loaded: map<Id, Descriptor>, pending: map<Id, Descriptor>, rs: seq<Descriptor>, r: Descriptor)
    ensures var t, u := Taken(pending, rs), Taken(pending, rs + [r]);
            var l, p := loaded + t, pending - t.Keys;
            if r.id in p && p[r.id].version == r.version
            then loaded + u == l[r.id := p[r.id]] && pending - u.Keys == p - {r.id}
            else loaded + u == l && pending - u.Keys == p
  {
    TakenAppend(pending, rs, r);
    var t, u := Taken(pending, rs), Taken(pending, rs + [r]);
    if r.id in pending && pending[r.id].version == r.version && r.id in t {
      assert t[r.id] == pending[r.id] && u == t;
    }
  }

  /** Acknowledging one version of each resource never replaces that version by another. */
  lemma TakenOrKept(loaded: map<Id, Descriptor>, pending: map<Id, Descriptor>, rs: seq<Descriptor>, r: Descriptor)
    requires Loaded(loaded, r.id, r.version) && forall x <- rs :: x.id == r.id ==> x == r
    ensures Loaded(loaded + Taken(pending, rs), r.id, r.version)
  {}

  /** A change of version by acknowledgement is always to the pending one. */
  lemma AcknowledgedIsPending(loaded: map<Id, Descriptor>, pending: map<Id, Descriptor>, rs: seq<Descriptor>, id: Id)
    requires id in loaded + Taken(pending, rs)
    ensures var after := (loaded + Taken(pending, rs))[id];
            || (id in loaded && after == loaded[id])
            || (id in pending && after == pending[id] && Mentions(rs, id, after.version))
  {}

  /** The last resource handed out under an id. */
  function Latest(delivered: seq<Descriptor>, id: Id): Option<Descriptor> {
    if delivered == [] then None
    else if delivered[|delivered| - 1].id == id then Some(delivered[|delivered| - 1])
    else Latest(delivered[..|delivered| - 1], id)
  }

  lemma LatestAppend(delivered: seq<Descriptor>, r: Descriptor)
    ensures forall id :: Latest(delivered + [r], id) == if id == r.id then Some(r) else Latest(delivered, id)
  {
    assert (delivered + [r])[..|delivered|] == delivered;
  }

  /** The text a resource has now, when it can still be read. */
  function TextOf(w: World, skills: map<string, Path>, id: Id): Option<Text> {
    match id
    case Skill(name) => if name in skills then Bounded(w, skills[name], MAX_SKILL_BYTES) else None
    case Agents(path) => Bounded(w, path, MAX_AGENTS_BYTES)
  }

  predicate Fresh(w: World, skills: map<string, Path>, r: Descriptor) { TextOf(w, skills, r.id) == Some(r.version) }

  /** What restoring leaves: an id mentioned is loaded exactly when its last mention is the
      version on disk, and an id not mentioned is as it was. */
  predicate Restored(w: World, skills: map<string, Path>, before: map<Id, Descriptor>, rs: seq<Descriptor>,
                     after: map<Id, Descriptor>) {
    && (forall id <- after :: match Latest(rs, id)
                              case None => id in before && after[id] == before[id]
                              case Some(r) => Fresh(w, skills, r) && after[id] == r)
    && (forall id <- before :: Latest(rs, id).None? ==> id in after)
    && (forall r <- rs :: Latest(rs, r.id) == Some(r) && Fresh(w, skills, r) ==> r.id in after)
  }

  predicate Keyed(m: map<Id, Descriptor>) { forall id <- m :: m[id].id == id }

  lemma {:induction false} LatestIsThere(rs: seq<Descriptor>, id: Id)
    ensures Latest(rs, id).Some? ==> Latest(rs, id).value.id == id && Latest(rs, id).value in rs
    ensures Latest(rs, id).None? <==> forall r <- rs :: r.id != id
  {
    if rs != [] {
      LatestIsThere(rs[..|rs| - 1], id);
      assert rs == rs[..|rs| - 1] + [rs[|rs| - 1]];
    }
  }

  /** Forget the id, then load it again if this mention is what is on disk. */
  lemma RestoredStep(w: World, skills: map<string, Path>, before: map<Id, Descriptor>, rs: seq<Descriptor>,
                     after: map<Id, Descriptor>, r: Descriptor)
    requires Restored(w, skills, before, rs, after)
    ensures Restored(w, skills, before, rs + [r], if Fresh(w, skills, r) then after[r.id := r] else after - {r.id})
  {
    LatestAppend(rs, r);
    var next := if Fresh(w, skills, r) then after[r.id := r] else after - {r.id};
    forall x | x in rs + [r] && Latest(rs + [r], x.id) == Some(x) && Fresh(w, skills, x)
      ensures x.id in next
    {
      if x.id != r.id { assert x in rs; }
    }
  }

  /** A survivor is loaded again exactly when its file, for a skill the one in the catalogue, can
      be read within its limit and still has the text it was loaded with. */
  lemma SurvivorIsRestoredIff(w: World, skills: map<string, Path>, r: Descriptor, file: Path,
                              after: map<Id, Descriptor>)
    requires r.id == Agents(file) || (r.id.Skill? && r.id.name in skills && skills[r.id.name] == file)
    requires Restored(w, skills, map[], [r], after)
    ensures r.id in after <==> file in w.text && |w.text[file]| <= 64 * 1024 && w.text[file] == r.version
  {
    LatestAppend([], r);
    assert [] + [r] == [r] && r in [r];
  }

  /** A display name is both listed as forgotten and still loaded. */
  predicate Overlap(before: map<Id, Descriptor>, after: map<Id, Descriptor>) {
    exists a <- before, b <- after :: a !in after && a.Skill? == b.Skill? && before[a].display == after[b].display
  }

  /** No loaded resource shows the name of another of its kind that is still as on disk. */
  predicate NamedApart(w: World, skills: map<string, Path>, loaded: map<Id, Descriptor>) {
    forall a <- loaded, b <- loaded ::
      a != b && a.Skill? == b.Skill? && Fresh(w, skills, loaded[b]) ==> loaded[a].display != loaded[b].display
  }

  /** A list of what survived, each resource mentioned last as it was loaded, and what
      restoring the list leaves. */
  ghost predicate Survival(w: World, skills: map<string, Path>, loaded: map<Id, Descriptor>, rs: seq<Descriptor>,
                           after: map<Id, Descriptor>) {
    && (forall r <- rs :: r.id in loaded && Latest(rs, r.id) == Some(loaded[r.id]))
    && Restored(w, skills, map[], rs, after)
  }

  ghost predicate NeverBoth(w: World, skills: map<string, Path>, loaded: map<Id, Descriptor>) {
    forall rs, after :: Survival(w, skills, loaded, rs, after) ==> !Overlap(loaded, after)
  }

  lemma SurvivorsAreLoaded(w: World, skills: map<string, Path>, loaded: map<Id, Descriptor>, rs: seq<Descriptor>,
                           after: map<Id, Descriptor>, id: Id)
    requires Survival(w, skills, loaded, rs, after) && id in after
    ensures id in loaded && after[id] == loaded[id] && Fresh(w, skills, loaded[id])
  {
    LatestIsThere(rs, id);
  }

  lemma ApartIsNeverBoth(w: World, skills: map<string, Path>, loaded: map<Id, Descriptor>, rs: seq<Descriptor>,
                         after: map<Id, Descriptor>)
    requires NamedApart(w, skills, loaded) && Survival(w, skills, loaded, rs, after)
    ensures !Overlap(loaded, after)
  {
    forall a, b | a in loaded && b in after && a !in after && a.Skill? == b.Skill?
      ensures loaded[a].display != after[b].display
    {
      SurvivorsAreLoaded(w, skills, loaded, rs, after, b);
    }
  }

  /** Of two that show one name, the one still as on disk can survive alone. */
  lemma SharedNameIsBoth(w: World, skills: map<string, Path>, loaded: map<Id, Descriptor>, a: Id, b: Id)
    requires Keyed(loaded) && a in loaded && b in loaded && a != b && a.Skill? == b.Skill?
    requires Fresh(w, skills, loaded[b]) && loaded[a].display == loaded[b].display
    ensures !NeverBoth(w, skills, loaded)
  {
    var rs, after := [loaded[b]], map[b := loaded[b]];
    LatestAppend([], loaded[b]);
    assert [] + rs == rs;
    assert Restored(w, skills, map[], rs, after);
    assert Survival(w, skills, loaded, rs, after) && Overlap(loaded, after);
  }

  /** By display name, "listed or loaded, never both" holds for every list of survivors exactly
      when no loaded resource shows the name of another that could be restored. */
  lemma NamesTellApartIff(w: World, skills: map<string, Path>, loaded: map<Id, Descriptor>)
    requires Keyed(loaded)
    ensures NeverBoth(w, skills, loaded) <==> NamedApart(w, skills, loaded)
  {
    if NamedApart(w, skills, loaded) {
      forall rs, after | Survival(w, skills, loaded, rs, after)
        ensures !Overlap(loaded, after)
      {
        ApartIsNeverBoth(w, skills, loaded, rs, after);
      }
    } else {
      var a, b :| a in loaded && b in loaded && a != b && a.Skill? == b.Skill? && Fresh(w, skills, loaded[b])
        && loaded[a].display == loaded[b].display;
      SharedNameIsBoth(w, skills, loaded, a, b);
    }
  }

  /** A world whose instruction file at the top is a link to `key`. */
  function LinkWorld(key: Path, other: Path, text: Text): World {
    World(map[[AGENTS] := key], map[key := Regular, other := Regular], map[key := text, other := text], map[])
  }

  lemma LinkWorldGoverns(key: Path, other: Path, text: Text, file: string)
    requires file != AGENTS
    ensures Governing(LinkWorld(key, other, text), [file], AsFile) == [Ref([AGENTS], key)]
  {
    var w, top: Path := LinkWorld(key, other, text), [];
    assert top + [AGENTS] == [AGENTS] && Dirname([file]) == top && [top][..0] == [];
    assert Starts(w, [file], AsFile) == [top];
    assert Keys([]) == {};
    assert Collected(w, [top]) == [Ref([AGENTS], key)];
  }

  /** One path whose link moves from one file to another between two accesses: both files are
      loaded under its name, and a reminder after which one of them survives both lists the
      name and leaves it loaded. */
  method RetargetedLinkIsNamedTwice(first: Path, second: Path, text: Text, file: string)
    returns (named: seq<Descriptor>, r: Resources)
    requires first != second && |text| <= MAX_AGENTS_BYTES && file != AGENTS
    ensures Descriptor(Agents(first), [AGENTS], text) in named
    ensures Agents(second) in r.loaded && r.loaded[Agents(second)].display == [AGENTS]
  {
    r := new Resources(map[]);
    LinkWorldGoverns(first, second, text, file);
    var one := r.AcceptOnly(LinkWorld(first, second, text), [file], Ref([AGENTS], first));
    var w := LinkWorld(second, first, text);
    LinkWorldGoverns(second, first, text, file);
    var two := r.AcceptOnly(w, [file], Ref([AGENTS], second));
    ghost var before := r.loaded;
    named := r.TakeCompactionReminder(w, [two]);
    LatestAppend([], two);
    assert [] + [two] == [two];
    assert two in [two] && Fresh(w, map[], two);
    assert Agents(first) in before && Agents(first) !in r.loaded;
  }

  // ----- Skills

  datatype SkillResult = Refused | Provided(bodies: seq<Descriptor>, resources: seq<Descriptor>)

  predicate Alphanumeric(c: char) { 'a' <= c <= 'z' || 'A' <= c <= 'Z' || '0' <= c <= '9' }

  predicate SkillName(name: string) {
    && 1 <= |name| <= 64 && Alphanumeric(name[0])
    && forall c <- name[1..] :: Alphanumeric(c) || c == '.' || c == '_' || c == '-'
  }

  function Sum(rs: seq<Descriptor>): nat {
    if rs == [] then 0 else Sum(rs[..|rs| - 1]) + |rs[|rs| - 1].version|
  }

  predicate SkillsReadable(w: World, skills: map<string, Path>, names: seq<string>) {
    forall name <- names :: TextOf(w, skills, Skill(name)).Some?
  }

  function SkillResources(w: World, skills: map<string, Path>, names: seq<string>): seq<Descriptor>
    requires SkillsReadable(w, skills, names)
  {
    seq(|names|, i requires 0 <= i < |names| =>
      Descriptor(Skill(names[i]), [names[i]], TextOf(w, skills, Skill(names[i])).value))
  }

  predicate Acceptable(w: World, skills: map<string, Path>, names: seq<string>) {
    && NamesOk(names)
    && SkillsReadable(w, skills, names) && Sum(SkillResources(w, skills, names)) <= MAX_SKILL_TOTAL_BYTES
  }

  predicate NamesOk(names: seq<string>) {
    && 0 < |names| <= MAX_SKILLS_PER_CALL
    && (forall name <- names :: SkillName(name))
    && (forall i, j :: 0 <= i < j < |names| ==> names[i] != names[j])
  }

  /** The number of names, each name, then duplicates. */
  method CheckNames(names: seq<string>) returns (ok: bool)
    ensures ok <==> NamesOk(names)
  {
    if |names| == 0 || |names| > MAX_SKILLS_PER_CALL { return false; }
    for i := 0 to |names|
      invariant forall j :: 0 <= j < i ==> SkillName(names[j])
    {
      if !SkillName(names[i]) {
        assert names[i] in names;
        return false;
      }
    }
    var seen: set<string> := {};
    for i := 0 to |names|
      invariant forall n :: n in seen <==> exists j :: 0 <= j < i && names[j] == n
      invariant forall j, k :: 0 <= j < k < i ==> names[j] != names[k]
    {
      if names[i] in seen { return false; }
      seen := seen + {names[i]};
    }
    return true;
  }

  /** Each name must be in the catalogue with a readable file, and the files not too long together. */
  method CheckFiles(w: World, skills: map<string, Path>, names: seq<string>) returns (ok: bool)
    ensures ok <==> SkillsReadable(w, skills, names) && Sum(SkillResources(w, skills, names)) <= MAX_SKILL_TOTAL_BYTES
  {
    for i := 0 to |names|
      invariant SkillsReadable(w, skills, names[..i])
    {
      if names[i] !in skills || Bounded(w, skills[names[i]], MAX_SKILL_BYTES).None? {
        assert names[i] in names;
        return false;
      }
      assert names[..i + 1] == names[..i] + [names[i]];
    }
    assert names[..|names|] == names;
    var total := 0;
    for i := 0 to |names|
      invariant total == Sum(SkillResources(w, skills, names)[..i])
    {
      var rs := SkillResources(w, skills, names);
      assert rs[..i + 1][..i] == rs[..i];
      total := total + |rs[i].version|;
    }
    assert SkillResources(w, skills, names)[..|names|] == SkillResources(w, skills, names);
    return total <= MAX_SKILL_TOTAL_BYTES;
  }

  predicate Coherent(rs: seq<Descriptor>) { forall a <- rs, b <- rs :: a.id == b.id ==> a == b }

  function NotLoaded(loaded: map<Id, Descriptor>, rs: seq<Descriptor>): seq<Descriptor> {
    if rs == [] then []
    else
      var r := rs[|rs| - 1];
      NotLoaded(loaded, rs[..|rs| - 1]) + if Loaded(loaded, r.id, r.version) then [] else [r]
  }

  lemma {:induction false} NotLoadedMembers(loaded: map<Id, Descriptor>, rs: seq<Descriptor>)
    ensures forall r :: r in NotLoaded(loaded, rs) <==> r in rs && !Loaded(loaded, r.id, r.version)
  {
    if rs != [] {
      NotLoadedMembers(loaded, rs[..|rs| - 1]);
      assert rs == rs[..|rs| - 1] + [rs[|rs| - 1]];
    }
  }

  class Resources {
    const skills: map<string, Path>
    var loaded: map<Id, Descriptor>
    var pending: map<Id, Descriptor>
    ghost var delivered: seq<Descriptor>

    /** A pending resource is the last one handed out under its id. */
    ghost predicate Valid()
      reads this
    {
      && Keyed(loaded) && Keyed(pending)
      && forall id <- pending :: Latest(delivered, id) == Some(pending[id])
    }

    constructor (skills: map<string, Path>)
      ensures Valid() && this.skills == skills && loaded == map[] && pending == map[]
    {
      this.skills := skills;
      loaded, pending, delivered := map[], map[], [];
    }

    ghost predicate Asked(w: World, ref: Ref, r: Descriptor, before: map<Id, Descriptor>, log: seq<Descriptor>)
      reads this
    {
      && Demands(w, loaded, ref, r) && pending == before[r.id := r] && delivered == log + [r]
    }

    /** Through when every governing file is loaded at its current version; otherwise the
        first that is not is handed out, or cannot be read. */
    method BeforeFileAccess(w: World, target: Path, kind: Kind) returns (v: Verdict)
      requires Valid()
      modifies this`pending, this`delivered
      ensures Valid() && (v.Passed? || v.Interrupted? || v.Unreadable?)
      ensures v == Passed ==> Passes(w, loaded, Governing(w, target, kind))
      ensures v.Interrupted? ==>
                exists ref <- Governing(w, target, kind) :: Asked(w, ref, v.resource, old(pending), old(delivered))
      ensures v == Unreadable ==> exists ref <- Governing(w, target, kind) :: !Readable(w, ref)
      ensures v.Interrupted? ==>
                && v.resource.id.Agents?
                && exists i: nat :: StopsAt(w, loaded, Governing(w, target, kind), i, Some(v.resource.id.path))
      ensures v == Unreadable ==> exists i: nat :: StopsAt(w, loaded, Governing(w, target, kind), i, None)
      ensures !v.Interrupted? ==> pending == old(pending) && delivered == old(delivered)
    {
      var refs := NearestAgents(w, target, kind);
      for i := 0 to |refs|
        invariant Passes(w, loaded, refs[..i])
        invariant pending == old(pending) && delivered == old(delivered)
      {
        if Bounded(w, refs[i].key, MAX_AGENTS_BYTES).None? {
          assert refs[i] in refs && StopsAt(w, loaded, refs, i, None);
          return Unreadable;
        }
        var r := Resource(w, refs[i]);
        if !Loaded(loaded, r.id, r.version) {
          pending := pending[r.id := r];
          LatestAppend(delivered, r);
          delivered := delivered + [r];
          assert Asked(w, refs[i], r, old(pending), old(delivered)) && refs[i] in refs;
          assert StopsAt(w, loaded, refs, i, Some(r.id.path));
          return Interrupted(r);
        }
        assert refs[..i + 1] == refs[..i] + [refs[i]];
      }
      assert refs[..|refs|] == refs;
      return Passed;
    }

    /** Only the version handed out last becomes loaded; acknowledging any other does nothing. */
    method Acknowledge(rs: seq<Descriptor>)
      requires Valid()
      modifies this`loaded, this`pending
      ensures Valid()
      ensures loaded == old(loaded) + Taken(old(pending), rs) && pending == old(pending) - Taken(old(pending), rs).Keys
      ensures forall id <- loaded ::
                || (id in old(loaded) && loaded[id] == old(loaded)[id])
                || (Latest(delivered, id) == Some(loaded[id]) && Mentions(rs, id, loaded[id].version))
    {
      TakeEach(rs);
      forall id | id in loaded
        ensures || (id in old(loaded) && loaded[id] == old(loaded)[id])
                || (Latest(delivered, id) == Some(loaded[id]) && Mentions(rs, id, loaded[id].version))
      {
        AcknowledgedIsPending(old(loaded), old(pending), rs, id);
      }
    }

    method TakeEach(rs: seq<Descriptor>)
      modifies this`loaded, this`pending
      ensures loaded == old(loaded) + Taken(old(pending), rs) && pending == old(pending) - Taken(old(pending), rs).Keys
    {
      for i := 0 to |rs|
        invariant loaded == old(loaded) + Taken(old(pending), rs[..i])
        invariant pending == old(pending) - Taken(old(pending), rs[..i]).Keys
      {
        assert rs[..i + 1] == rs[..i] + [rs[i]];
        AcknowledgeStep(old(loaded), old(pending), rs[..i], rs[i]);
        var id := rs[i].id;
        if id in pending && pending[id].version == rs[i].version {
          loaded := loaded[id := pending[id]];
          pending := pending - {id};
        }
      }
      assert rs[..|rs|] == rs;
    }

    /** One round of access and acknowledgement for the only governing file. */
    method AcceptOnly(w: World, target: Path, ref: Ref) returns (d: Descriptor)
      requires Valid() && Governing(w, target, AsFile) == [ref] && Readable(w, ref) && Agents(ref.key) !in loaded
      modifies this
      ensures Valid() && d == Resource(w, ref) && loaded == old(loaded)[Agents(ref.key) := d]
    {
      d := AskOnly(w, target, ref);
      TakenAlone(pending, d);
      Acknowledge([d]);
    }

    method AskOnly(w: World, target: Path, ref: Ref) returns (d: Descriptor)
      requires Valid() && Governing(w, target, AsFile) == [ref] && Readable(w, ref) && Agents(ref.key) !in loaded
      modifies this`pending, this`delivered
      ensures Valid() && d == Resource(w, ref) && d.id in pending && pending[d.id] == d
    {
      var v := BeforeFileAccess(w, target, AsFile);
      ghost var refs := Governing(w, target, AsFile);
      assert refs[0] == ref && ref in refs && forall x <- refs :: x == ref;
      assert v != Passed && v != Unreadable;
      d := v.resource;
    }

    ghost predicate Idle(before: map<Id, Descriptor>, log: seq<Descriptor>)
      reads this
    {
      pending == before && delivered == log
    }

    /** One directory: its instruction file must pass, its folders are pushed. */
    method ScanDirectory(w: World, dir: Path, waiting: seq<Path>, counted: nat)
      returns (v: Verdict, stack: seq<Path>, agents: nat)
      requires Valid() && Sane(w)
      modifies this`pending, this`delivered
      ensures Valid() && v != TooManyDirectories
      ensures v == Passed ==>
                Pushed(w, dir, waiting, stack) && AllPushed(w, dir, stack) && DirectoryPasses(w, loaded, dir)
      ensures v == Passed ==> agents == if HoldsAgents(w, dir) then counted + 1 else counted
      ensures v == Passed && counted <= MAX_TREE_AGENTS ==> agents <= MAX_TREE_AGENTS
      ensures v != Passed ==> HoldsAgents(w, dir)
      ensures v.Interrupted? ==>
                exists ref <- Governing(w, dir + [AGENTS], AsFile) ::
                  Asked(w, ref, v.resource, old(pending), old(delivered))
      ensures v == Unreadable ==> exists ref <- Governing(w, dir + [AGENTS], AsFile) :: !Readable(w, ref)
      ensures v == TooManyAgents ==> counted >= MAX_TREE_AGENTS
      ensures !v.Interrupted? ==> Idle(old(pending), old(delivered))
    {
      v, stack, agents := Passed, waiting, counted;
      if dir !in w.entries { return; }
      var entries := w.entries[dir];
      for i := 0 to |entries|
        invariant v == Passed && Idle(old(pending), old(delivered))
        invariant agents == if Met(entries[..i]) then counted + 1 else counted
        invariant counted <= MAX_TREE_AGENTS ==> agents <= MAX_TREE_AGENTS
        invariant Met(entries[..i]) ==> Passes(w, loaded, Governing(w, dir + [AGENTS], AsFile))
        invariant stack == waiting + Folders(dir, entries[..i])
      {
        var e := entries[i];
        assert entries[..i + 1][..i] == entries[..i];
        assert Met(entries[..i + 1]) <==> Met(entries[..i]) || IsAgents(e);
        if IsAgents(e) {
          assert Unique(entries) && !Met(entries[..i]) && Met(entries);
          agents := agents + 1;
          if agents > MAX_TREE_AGENTS { v := TooManyAgents; return; }
          v := BeforeFileAccess(w, dir + [AGENTS], AsFile);
          if v != Passed { return; }
        } else if e.kind == Folder {
          stack := stack + [dir + [e.name]];
        }
      }
      assert entries[..|entries|] == entries;
      FoldersPushed(w, dir, waiting);
    }

    /** A file of the tree, or one governing it, stopped the walk. */
    ghost predicate Stopped(w: World, root: Path, v: Verdict, before: map<Id, Descriptor>, log: seq<Descriptor>)
      reads this
    {
      && (v.Interrupted? ==> exists d, ref :: InTree(w, root, d, ref) && Asked(w, ref, v.resource, before, log))
      && (v == Unreadable ==> exists d, ref :: InTree(w, root, d, ref) && !Readable(w, ref))
      && (!v.Interrupted? ==> Idle(before, log))
    }

    method VisitDirectory(w: World, root: Path, dir: Path, waiting: seq<Path>, counted: nat)
      returns (v: Verdict, stack: seq<Path>, agents: nat)
      requires Valid() && Sane(w) && Below(w, root, dir)
      modifies this`pending, this`delivered
      ensures Valid() && v != TooManyDirectories && Stopped(w, root, v, old(pending), old(delivered))
      ensures v == Passed ==>
                Pushed(w, dir, waiting, stack) && AllPushed(w, dir, stack) && DirectoryPasses(w, loaded, dir)
      ensures v == Passed ==> agents == if HoldsAgents(w, dir) then counted + 1 else counted
      ensures v == Passed && counted <= MAX_TREE_AGENTS ==> agents <= MAX_TREE_AGENTS
      ensures v == TooManyAgents ==> HoldsAgents(w, dir) && counted >= MAX_TREE_AGENTS
    {
      v, stack, agents := ScanDirectory(w, dir, waiting, counted);
      assert forall ref <- Governing(w, dir + [AGENTS], AsFile) :: v != Passed ==> InTree(w, root, dir, ref);
    }

    /** Depth first over the whole tree. */
    method WalkTree(w: World, root: Path) returns (v: Verdict)
      requires Valid() && Sane(w)
      modifies this`pending, this`delivered
      ensures Valid() && Stopped(w, root, v, old(pending), old(delivered))
      ensures v == Passed ==> !TooLarge(w, root) && forall d :: Below(w, root, d) ==> DirectoryPasses(w, loaded, d)
      ensures v == TooManyDirectories ==> ManyBelow(w, root, MAX_TREE_DIRECTORIES)
      ensures v == TooManyAgents ==> ManyAgentsBelow(w, root, MAX_TREE_AGENTS)
    {
      var stack, directories: nat, agents: nat := [root], 0, 0;
      ghost var done: set<Path> := {};
      FrontierStart(w, root, loaded);
      while stack != []
        invariant Valid() && Idle(old(pending), old(delivered))
        invariant Frontier(w, root, loaded, stack, done, agents)
        invariant directories == |done| <= MAX_TREE_DIRECTORIES && agents <= MAX_TREE_AGENTS
        decreases MAX_TREE_DIRECTORIES - directories
      {
        var dir, rest, counted := stack[|stack| - 1], stack[..|stack| - 1], agents;
        assert stack == rest + [dir];
        FrontierNext(w, root, loaded, rest, dir, done, agents);
        directories := directories + 1;
        if directories > MAX_TREE_DIRECTORIES {
          return TooManyDirectories;
        }
        v, stack, agents := VisitDirectory(w, root, dir, rest, counted);
        if v == Passed {
          FrontierStep(w, root, loaded, rest, dir, done, counted, stack);
        } else {
          if v == TooManyAgents { AgentsOverflow(w, root, loaded, rest, dir, done, counted); }
          return;
        }
        done := done + {dir};
      }
      FrontierDone(w, root, loaded, done, agents);
      ManyIsMonotone(w, root, |done|, MAX_TREE_DIRECTORIES);
      ManyIsMonotone(w, root, agents, MAX_TREE_AGENTS);
      return Passed;
    }

    method BeforeTreeAccess(w: World, target: Path) returns (v: Verdict)
      requires Valid() && Sane(w)
      modifies this`pending, this`delivered
      ensures Valid()
      ensures v == Passed ==> forall ref :: Governs(w, target, ref) ==> Current(w, loaded, ref)
      ensures v.Interrupted? ==>
                exists ref :: Governs(w, target, ref) && Asked(w, ref, v.resource, old(pending), old(delivered))
      ensures Justified(w, target, v)
      ensures !v.Interrupted? ==> Idle(old(pending), old(delivered))
    {
      v := BeforeFileAccess(w, target, Auto);
      if v == Passed && Root(w, target).Some? {
        v := WalkTree(w, Root(w, target).value);
      }
    }

    /** Acknowledging the text of a stale file that was handed out leaves one stale file fewer. */
    method AcceptStale(w: World, target: Path, r: Descriptor)
      requires Valid() && r.id in pending && pending[r.id] == r
      requires exists ref :: Governs(w, target, ref) && Demands(w, loaded, ref, r)
      modifies this`loaded, this`pending
      ensures Valid() && |Stale(w, target, loaded)| + 1 == |Stale(w, target, old(loaded))|
    {
      ghost var ref :| Governs(w, target, ref) && Demands(w, loaded, ref, r);
      ReadingOneIsProgress(w, target, loaded, ref);
      TakenAlone(pending, r);
      Acknowledge([r]);
    }

    /** Access, read what is handed out, acknowledge, try again. Access goes through exactly when
        every governing file can be read and the tree is within its limits, and then after
        exactly one round per stale file. */
    method AccessUntilSettled(w: World, target: Path) returns (v: Verdict, rounds: nat)
      requires Valid() && Sane(w)
      modifies this
      ensures Valid() && !v.Interrupted? && Justified(w, target, v)
      ensures v == Passed <==> Accessible(w, target)
      ensures rounds <= |Stale(w, target, old(loaded))|
      ensures v == Passed ==> rounds == |Stale(w, target, old(loaded))| && Stale(w, target, loaded) == {}
    {
      rounds := 0;
      v := BeforeTreeAccess(w, target);
      while v.Interrupted?
        invariant Valid() && Justified(w, target, v)
        invariant rounds + |Stale(w, target, loaded)| == |Stale(w, target, old(loaded))|
        invariant v.Interrupted? ==>
                    && v.resource.id in pending && pending[v.resource.id] == v.resource
                    && exists ref :: Governs(w, target, ref) && Demands(w, loaded, ref, v.resource)
        invariant v == Passed ==> forall ref :: Governs(w, target, ref) ==> Current(w, loaded, ref)
        decreases |Stale(w, target, loaded)|, v.Interrupted?
      {
        AcceptStale(w, target, v.resource);
        rounds := rounds + 1;
        v := BeforeTreeAccess(w, target);
      }
      if v == Passed { assert Stale(w, target, loaded) == {}; }
    }

    method DiscardPending()
      requires Valid()
      modifies this`pending
      ensures Valid() && pending == map[]
    {
      pending := map[];
    }

    method Restore(w: World, rs: seq<Descriptor>)
      requires Keyed(loaded)
      modifies this`loaded
      ensures Keyed(loaded) && Restored(w, skills, old(loaded), rs, loaded)
    {
      for i := 0 to |rs|
        invariant Keyed(loaded) && Restored(w, skills, old(loaded), rs[..i], loaded)
      {
        assert rs[..i + 1] == rs[..i] + [rs[i]];
        RestoredStep(w, skills, old(loaded), rs[..i], loaded, rs[i]);
        loaded := loaded - {rs[i].id};
        var text := TextOf(w, skills, rs[i].id);
        if text == Some(rs[i].version) {
          loaded := loaded[rs[i].id := rs[i]];
        }
      }
      assert rs[..|rs|] == rs;
    }

    /** After a compaction: what survived is loaded again at its current version, and each
        resource loaded before is either loaded or listed, never both. */
    method TakeCompactionReminder(w: World, surviving: seq<Descriptor>) returns (named: seq<Descriptor>)
      requires Valid()
      modifies this`loaded, this`pending
      ensures Valid() && pending == map[] && Restored(w, skills, map[], surviving, loaded)
      ensures forall id <- old(loaded) :: id in loaded <==> !(old(loaded)[id] in named)
      ensures forall d <- named :: d.id in old(loaded) && old(loaded)[d.id] == d
      ensures forall i, j :: 0 <= i < j < |named| ==> named[i].id != named[j].id
    {
      var prior := loaded;
      loaded, pending := map[], map[];
      Restore(w, surviving);
      named := [];
      var rest := prior.Keys;
      while rest != {}
        invariant rest <= prior.Keys
        invariant forall id <- prior.Keys - rest :: id in loaded <==> !(prior[id] in named)
        invariant forall d <- named :: d.id in prior && prior[d.id] == d && d.id !in rest
        invariant forall i, j :: 0 <= i < j < |named| ==> named[i].id != named[j].id
        decreases rest
      {
        var id :| id in rest;
        assert prior[id] !in named;
        if id !in loaded { named := named + [prior[id]]; }
        rest := rest - {id};
      }
    }

    method Put(missing: seq<Descriptor>)
      requires Valid() && Coherent(missing)
      modifies this`pending, this`delivered
      ensures Valid()
      ensures forall r <- missing :: r.id in pending && pending[r.id] == r
      ensures forall id <- old(pending) :: id in pending && (pending[id] == old(pending)[id] || pending[id] in missing)
      ensures forall id <- pending :: id in old(pending) || pending[id] in missing
    {
      for i := 0 to |missing|
        invariant Valid()
        invariant forall r <- missing[..i] :: r.id in pending && pending[r.id] == r
        invariant forall id <- old(pending) ::
                    id in pending && (pending[id] == old(pending)[id] || pending[id] in missing)
        invariant forall id <- pending :: id in old(pending) || pending[id] in missing
      {
        assert missing[i] in missing && missing[..i + 1] == missing[..i] + [missing[i]];
        pending := pending[missing[i].id := missing[i]];
        LatestAppend(delivered, missing[i]);
        delivered := delivered + [missing[i]];
      }
      assert missing[..|missing|] == missing;
    }

    /** Exactly the skills not loaded at their current version are provided and become pending. */
    method LoadSkillContext(w: World, names: seq<string>) returns (result: SkillResult)
      requires Valid()
      modifies this`pending, this`delivered
      ensures Valid()
      ensures result.Provided? <==> Acceptable(w, skills, names)
      ensures result == Refused ==> pending == old(pending) && delivered == old(delivered)
      ensures result.Provided? ==> result.resources == SkillResources(w, skills, names)
      ensures result.Provided? ==>
                forall r :: r in result.bodies <==> r in result.resources && !Loaded(loaded, r.id, r.version)
      ensures result.Provided? ==> forall r <- result.bodies :: r.id in pending && pending[r.id] == r
      ensures forall id <- old(pending) ::
                && id in pending
                && (pending[id] == old(pending)[id] || (result.Provided? && pending[id] in result.bodies))
      ensures forall id <- pending :: id in old(pending) || (result.Provided? && pending[id] in result.bodies)
    {
      var ok := CheckNames(names);
      if !ok { return Refused; }
      ok := CheckFiles(w, skills, names);
      if !ok { return Refused; }
      var resources := SkillResources(w, skills, names);
      var missing := NotLoaded(loaded, resources);
      NotLoadedMembers(loaded, resources);
      assert Coherent(resources) && Coherent(missing);
      Put(missing);
      return Provided(missing, resources);
    }

    /** Whatever was loaded or pending before, every skill asked for ends up loaded at the
        version it has now. */
    method LoadSkills(w: World, names: seq<string>) returns (result: SkillResult)
      requires Valid()
      modifies this`loaded, this`pending, this`delivered
      ensures Valid() && (result.Provided? <==> Acceptable(w, skills, names))
      ensures result == Refused ==> loaded == old(loaded) && pending == old(pending)
      ensures result.Provided? ==>
                forall name <- names :: Loaded(loaded, Skill(name), TextOf(w, skills, Skill(name)).value)
    {
      result := LoadSkillContext(w, names);
      if result == Refused { return; }
      ghost var ready, before := pending, loaded;
      Acknowledge(result.resources);
      forall i | 0 <= i < |names|
        ensures Loaded(loaded, Skill(names[i]), TextOf(w, skills, Skill(names[i])).value)
      {
        var r := result.resources[i];
        assert r in result.resources;
        if Loaded(before, r.id, r.version) {
          TakenOrKept(before, ready, result.resources, r);
        } else {
          assert r.id in Taken(ready, result.resources);
        }
      }
    }
  }
}
