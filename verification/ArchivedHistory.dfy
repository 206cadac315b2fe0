/** Scrolling back into the archived transcripts, page by page, by negative ids. */
module ArchivedHistory {
  import opened Options

  datatype Role = System | User | Assistant | Tool

  datatype Call = Call(id: string, name: string)

  /** An absent tool-call id is the empty string. */
  datatype Message = Message(role: Role, calls: seq<Call>, toolCallId: string, content: string)

  datatype Entry = Entry(id: int, message: Message, thinkResult: bool)

  function Flat(files: seq<seq<Message>>): seq<Message> {
    if files == [] then [] else Flat(files[..|files| - 1]) + files[|files| - 1]
  }

  // ----- Which tool results answer a think call

  predicate Thinks(m: Message, c: string) { exists call <- m.calls :: call.name == "think" && call.id == c }

  predicate Answers(m: Message, c: string) { m.role == Tool && m.toolCallId == c && c != "" }

  /** Call `j` under id `c` has no answer among the messages before `n`. */
  predicate Waiting(p: seq<Message>, j: nat, n: nat, c: string)
    requires n <= |p|
  {
    j < n && Thinks(p[j], c) && forall k :: j <= k < n ==> !Answers(p[k], c)
  }

  /** Among the first `n` messages a think call with id `c` still waits. */
  predicate Open(p: seq<Message>, n: nat, c: string)
    requires n <= |p|
  {
    exists j :: 0 <= j < n && Waiting(p, j, n, c)
  }

  /** Message `i` is the first answer to a think call made no later than itself. */
  predicate ThinkResult(p: seq<Message>, i: nat)
    requires i < |p|
  {
    var m := p[i];
    m.role == Tool && m.toolCallId != "" && (Open(p, i, m.toolCallId) || Thinks(m, m.toolCallId))
  }

  /** The entry of message `i`: nothing but the archive and the position enters. */
  function EntryAt(p: seq<Message>, i: nat): Entry
    requires i < |p|
  {
    Entry(i - |p|, p[i], ThinkResult(p, i))
  }

  function Entries(p: seq<Message>, lo: nat, hi: nat): seq<Entry>
    requires lo <= hi <= |p|
  {
    seq(hi - lo, i requires 0 <= i < hi - lo => EntryAt(p, lo + i))
  }

  lemma OpenStep(p: seq<Message>, n: nat, c: string)
    requires n < |p|
    ensures Open(p, n + 1, c) <==> (Open(p, n, c) || Thinks(p[n], c)) && !Answers(p[n], c)
  {
    if (Open(p, n, c) || Thinks(p[n], c)) && !Answers(p[n], c) {
      if Open(p, n, c) {
        var j: nat :| j < n && Waiting(p, j, n, c);
        assert Waiting(p, j, n + 1, c);
      } else {
        assert Waiting(p, n, n + 1, c);
      }
    }
    if Open(p, n + 1, c) {
      var j: nat :| j < n + 1 && Waiting(p, j, n + 1, c);
      if j < n { assert Waiting(p, j, n, c); }
    }
  }

  /** Each think call is answered by at most one marked result, the first after it. */
  lemma AnsweredOnce(p: seq<Message>, i: nat, k: nat)
    requires i < k < |p| && ThinkResult(p, i) && ThinkResult(p, k) && p[i].toolCallId == p[k].toolCallId
    ensures exists j :: i < j <= k && Thinks(p[j], p[k].toolCallId)
  {
    var c := p[k].toolCallId;
    if !Thinks(p[k], c) {
      var j: nat :| j < k && Waiting(p, j, k, c);
      assert !(j <= i < k) by { assert Answers(p[i], c); }
    }
  }

  // ----- Page bounds

  function End(total: nat, beforeId: int): (hi: nat)
    ensures hi <= total
  {
    var end := if beforeId >= 0 then total else beforeId + total;
    if end < 0 then 0 else if end > total then total else end
  }

  function Start(hi: nat, limit: int): (lo: nat) { if hi - limit < 0 then 0 else hi - limit }

  /** The page before an id: empty for a limit that is not positive. */
  function Page(p: seq<Message>, beforeId: int, limit: int): seq<Entry> {
    var hi := End(|p|, beforeId);
    if limit <= 0 then [] else Entries(p, Start(hi, limit), hi)
  }

  /** A page holds exactly the archived entries with ids from `beforeId - limit` up to and without
      `beforeId`, where every id from zero on stands for the end of the archive. */
  lemma PageBounds(p: seq<Message>, beforeId: int, limit: int, e: Entry)
    ensures e in Page(p, beforeId, limit) <==>
              && -|p| <= e.id < 0 && e == EntryAt(p, e.id + |p|)
              && var before := if beforeId >= 0 then 0 else beforeId; before - limit <= e.id < before
  {
    var page := Page(p, beforeId, limit);
    var hi := End(|p|, beforeId);
    if limit > 0 {
      var lo := Start(hi, limit);
      assert forall i :: 0 <= i < |page| ==> page[i] == EntryAt(p, lo + i);
      if lo <= e.id + |p| < hi && e == EntryAt(p, e.id + |p|) { assert page[e.id + |p| - lo] == e; }
    }
  }

  /** How far back a series of limits reaches. */
  function Reach(total: nat, limits: seq<nat>): nat {
    if limits == [] then 0
    else
      var r := Reach(total, limits[..|limits| - 1]) + limits[|limits| - 1];
      if r > total then total else r
  }

  function OldestHeld(held: seq<Entry>): int { if held == [] then 0 else held[0].id }

  /** The next page joins on without gap or overlap, and is empty only when all is held. */
  lemma NextPageJoins(p: seq<Message>, r: nat, limit: nat)
    requires r <= |p| && limit > 0
    ensures var held := Entries(p, |p| - r, |p|);
            var page := Page(p, OldestHeld(held), limit);
            var more := if r + limit > |p| then |p| else r + limit;
            page + held == Entries(p, |p| - more, |p|) && (page == [] <==> r == |p|)
  {
    var held := Entries(p, |p| - r, |p|);
    assert r > 0 ==> held[0] == EntryAt(p, |p| - r) && held[0].id == |p| - r - |p|;
    assert End(|p|, OldestHeld(held)) == |p| - r;
  }

  /** Positive limits reach the oldest message after at most as many pages as messages. */
  lemma {:induction false} PagesSuffice(total: nat, limits: seq<nat>)
    requires forall i :: 0 <= i < |limits| ==> limits[i] > 0
    ensures Reach(total, limits) <= total
    ensures |limits| <= total ==> Reach(total, limits) >= |limits|
    ensures |limits| >= total ==> Reach(total, limits) == total
  {
    if limits != [] {
      PagesSuffice(total, limits[..|limits| - 1]);
    }
  }

  /** Every archived message once, in order, under the ids -T up to -1. */
  predicate Whole(p: seq<Message>, held: seq<Entry>) {
    |held| == |p| && forall k :: 0 <= k < |p| ==> held[k].message == p[k] && held[k].id == k - |p|
  }

  lemma EntriesAreWhole(p: seq<Message>)
    ensures Whole(p, Entries(p, 0, |p|))
  {
    assert forall k :: 0 <= k < |p| ==> Entries(p, 0, |p|)[k] == EntryAt(p, k);
  }

  class ArchivedReader {
    const files: seq<seq<Message>>
    var pool: Option<seq<Message>>

    ghost predicate Valid()
      reads this
    {
      pool.Some? ==> pool.value == Flat(files)
    }

    constructor (files: seq<seq<Message>>)
      ensures Valid() && this.files == files
    {
      this.files := files;
      pool := None;
    }

    /** Filled on the first read and kept. */
    method GetPool() returns (p: seq<Message>)
      requires Valid()
      modifies this
      ensures Valid() && p == Flat(files)
    {
      if pool.Some? { return pool.value; }
      p := [];
      for i := 0 to |files|
        invariant p == Flat(files[..i])
      {
        assert files[..i + 1][..i] == files[..i];
        p := p + files[i];
      }
      assert files[..|files|] == files;
      pool := Some(p);
    }

    method Read(beforeId: int, limit: int) returns (out: seq<Entry>)
      requires Valid()
      modifies this
      ensures Valid() && out == Page(Flat(files), beforeId, limit)
    {
      var p := GetPool();
      out := ReadPage(p, beforeId, limit);
    }

    /** Paging back from the newest: after every page the newest messages are held, each once
        and in order, as many as the limits add up to; with enough pages that is the whole
        archive, and there is no more. */
    method PageBack(limits: seq<nat>) returns (held: seq<Entry>, more: bool)
      requires Valid() && forall i :: 0 <= i < |limits| ==> limits[i] > 0
      modifies this
      ensures Valid()
      ensures var p := Flat(files); var r := Reach(|p|, limits); held == Entries(p, |p| - r, |p|) && (more <==> r < |p|)
      ensures |limits| >= |Flat(files)| ==> !more && Whole(Flat(files), held)
    {
      held := [];
      ghost var p := Flat(files);
      assert held == Entries(p, |p|, |p|);
      for i := 0 to |limits|
        invariant Valid() && Reach(|p|, limits[..i]) <= |p|
        invariant held == Entries(p, |p| - Reach(|p|, limits[..i]), |p|)
      {
        assert limits[..i + 1][..i] == limits[..i];
        NextPageJoins(p, Reach(|p|, limits[..i]), limits[i]);
        var page := Read(OldestHeld(held), limits[i]);
        held := page + held;
      }
      assert limits[..|limits|] == limits;
      PagesSuffice(|p|, limits);
      EntriesAreWhole(p);
      NextPageJoins(p, Reach(|p|, limits), 1);
      var next := Read(OldestHeld(held), 1);
      more := next != [];
    }
  }

  predicate ThinksBefore(m: Message, c: string, i: nat)
    requires i <= |m.calls|
  {
    exists k :: 0 <= k < i && m.calls[k].name == "think" && m.calls[k].id == c
  }

  /** The set of ids after the calls of a message are added. */
  method AddThinkCalls(m: Message, ids: set<string>) returns (r: set<string>)
    ensures forall c :: c in r <==> c in ids || Thinks(m, c)
  {
    r := ids;
    for i := 0 to |m.calls|
      invariant forall c :: c in r <==> c in ids || ThinksBefore(m, c, i)
    {
      if m.calls[i].name == "think" { r := r + {m.calls[i].id}; }
    }
    forall c
      ensures c in r <==> c in ids || Thinks(m, c)
    {
      if Thinks(m, c) {
        assert ThinksBefore(m, c, |m.calls|);
      }
    }
  }

  method ReadPage(p: seq<Message>, beforeId: int, limit: int) returns (out: seq<Entry>)
    ensures out == Page(p, beforeId, limit)
  {
    out := [];
    if |p| == 0 { return; }
    var hi := End(|p|, beforeId);
    var lo := Start(hi, limit);
    var thinkCallIds: set<string> := {};
    for i := 0 to hi
      invariant forall c :: c in thinkCallIds <==> Open(p, i, c)
      invariant out == if i <= lo then [] else Entries(p, lo, i)
    {
      var m := p[i];
      thinkCallIds := AddThinkCalls(m, thinkCallIds);
      var marked := m.role == Tool && m.toolCallId != "" && m.toolCallId in thinkCallIds;
      if marked { thinkCallIds := thinkCallIds - {m.toolCallId}; }
      assert marked == ThinkResult(p, i);
      forall c
        ensures c in thinkCallIds <==> Open(p, i + 1, c)
      {
        OpenStep(p, i, c);
      }
      assert i >= lo ==> Entries(p, lo, i + 1) == Entries(p, lo, i) + [EntryAt(p, i)];
      if i >= lo { out := out + [Entry(i - |p|, m, marked)]; }
    }
  }
}
