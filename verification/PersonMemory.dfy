/** Person-memory markers in the agent's one history: every stamped inbound message
    follows the profile of its author, through ingest, error pops, compaction, clear
    and restart from the transcript. */
module PersonMemory {

  type AuthorId = string

  datatype Role = User | Assistant | Tool

  datatype Stamp = Unstamped | Inbound(author: AuthorId) | Memory(author: AuthorId)

  datatype Message = Message(role: Role, stamp: Stamp, content: string)

  predicate HasMemory(h: seq<Message>, a: AuthorId) {
    exists i :: 0 <= i < |h| && h[i].stamp == Memory(a)
  }

  /** Each stamped inbound message is preceded by a memory of its author. */
  ghost predicate Preceded(h: seq<Message>) {
    forall i :: 0 <= i < |h| && h[i].stamp.Inbound? ==> HasMemory(h[..i], h[i].stamp.author)
  }

  /** No author has two memories. */
  predicate Unique(h: seq<Message>) {
    forall i, j :: 0 <= i < j < |h| && h[i].stamp.Memory? ==> h[i].stamp != h[j].stamp
  }

  ghost predicate Good(h: seq<Message>, injected: set<AuthorId>) {
    Preceded(h) && Unique(h) && forall a :: a in injected <==> HasMemory(h, a)
  }

  /** The authors a restarted agent collects from its transcript. */
  function Authors(h: seq<Message>): set<AuthorId> {
    set i | 0 <= i < |h| && h[i].stamp.Memory? :: h[i].stamp.author
  }

  lemma HasMemoryGrows(h: seq<Message>, m: Message, a: AuthorId)
    ensures HasMemory(h + [m], a) <==> HasMemory(h, a) || m.stamp == Memory(a)
  {
    var after := h + [m];
    if HasMemory(h, a) {
      var i :| 0 <= i < |h| && h[i].stamp == Memory(a);
      assert after[i].stamp == Memory(a);
    }
    if m.stamp == Memory(a) {
      assert after[|h|].stamp == Memory(a);
    }
  }

  /** A stamped inbound message needs its author's memory, and a memory must be the first. */
  predicate Pushable(injected: set<AuthorId>, m: Message) {
    match m.stamp
    case Unstamped => true
    case Inbound(a) => a in injected
    case Memory(a) => a !in injected
  }

  /** Exactly the pushable messages keep a history good. */
  lemma PushKeepsGood(h: seq<Message>, injected: set<AuthorId>, m: Message)
    requires Good(h, injected)
    ensures Good(h + [m], injected + if m.stamp.Memory? then {m.stamp.author} else {}) <==> Pushable(injected, m)
  {
    var after := h + [m];
    assert forall i :: 0 <= i < |after| ==> after[..i] == if i < |h| then h[..i] else h;
    assert after[|h|] == m && forall i :: 0 <= i < |h| ==> after[i] == h[i];
    forall a
      ensures HasMemory(after, a) <==> HasMemory(h, a) || m.stamp == Memory(a)
    {
      HasMemoryGrows(h, m, a);
    }
    match m.stamp
    case Unstamped =>
    case Inbound(a) =>
      assert after[..|h|] == h;
    case Memory(a) =>
      if a in injected {
        var i :| 0 <= i < |h| && h[i].stamp == Memory(a);
        assert after[i].stamp == after[|h|].stamp;
      } else {
        assert forall i :: 0 <= i < |h| && h[i].stamp.Memory? ==> HasMemory(h, h[i].stamp.author);
      }
  }

  lemma PrefixKeepsGood(h: seq<Message>, injected: set<AuthorId>, n: nat)
    requires Good(h, injected) && n <= |h|
    ensures Good(h[..n], Authors(h[..n]))
  {
    var p := h[..n];
    forall i | 0 <= i < |p| && p[i].stamp.Inbound?
      ensures HasMemory(p[..i], p[i].stamp.author)
    {
      assert p[..i] == h[..i];
    }
    AuthorsAreMemories(p);
  }

  lemma AuthorsAreMemories(h: seq<Message>)
    ensures forall a :: a in Authors(h) <==> HasMemory(h, a)
  {
    forall a | HasMemory(h, a)
      ensures a in Authors(h)
    {
      var i :| 0 <= i < |h| && h[i].stamp == Memory(a);
      assert h[i].stamp.author in Authors(h);
    }
  }

  /** Dropping the last message keeps a good history good, with the same set of
      injected people, exactly when that message is not a memory. */
  lemma PopKeepsGoodIff(h: seq<Message>, injected: set<AuthorId>)
    requires Good(h, injected) && h != []
    ensures Good(h[..|h| - 1], injected) <==> !h[|h| - 1].stamp.Memory?
  {
    var n := |h| - 1;
    PrefixKeepsGood(h, injected, n);
    AuthorsAreMemories(h[..n]);
    assert h == h[..n] + [h[n]];
    forall a
      ensures HasMemory(h, a) <==> HasMemory(h[..n], a) || h[n].stamp == Memory(a)
    {
      HasMemoryGrows(h[..n], h[n], a);
    }
    if h[n].stamp.Memory? {
      var a := h[n].stamp.author;
      assert HasMemory(h, a) && a in injected;
    }
  }

  /** The messages that are not memories, in order. */
  function Spoken(h: seq<Message>): seq<Message> {
    if h == [] then [] else
    var rest := Spoken(h[..|h| - 1]);
    if h[|h| - 1].stamp.Memory? then rest else rest + [h[|h| - 1]]
  }

  lemma SpokenAppend(h: seq<Message>, m: Message)
    ensures Spoken(h + [m]) == if m.stamp.Memory? then Spoken(h) else Spoken(h) + [m]
  {
    assert (h + [m])[..|h|] == h;
  }

  /** What the compactor swaps in: a summary, the kept tail, and a closing notice. */
  function Folded(kept: seq<Message>, summary: string, notice: string): seq<Message> {
    [Message(User, Unstamped, summary)] + kept + [Message(User, Unstamped, notice)]
  }

  function InboundAuthors(h: seq<Message>): set<AuthorId> {
    set i | 0 <= i < |h| && h[i].stamp.Inbound? :: h[i].stamp.author
  }

  predicate SameTail(h: seq<Message>, r: seq<Message>) {
    h != [] && !h[|h| - 1].stamp.Memory? ==> r != [] && r[|r| - 1] == h[|h| - 1]
  }

  lemma InboundAuthorsAppend(h: seq<Message>, m: Message)
    ensures InboundAuthors(h + [m]) == InboundAuthors(h) + if m.stamp.Inbound? then {m.stamp.author} else {}
  {
    var after := h + [m];
    forall a | a in InboundAuthors(h)
      ensures a in InboundAuthors(after)
    {
      var i :| 0 <= i < |h| && h[i].stamp == Inbound(a);
      assert after[i].stamp == Inbound(a);
    }
    assert after[|h|] == m;
  }

  /** The memory message of an author, as it reads now. */
  function Profile(a: AuthorId, profile: AuthorId -> string): Message {
    Message(User, Memory(a), profile(a))
  }

  /** Every memory is its author's current profile and stands right before a message of theirs. */
  predicate Introduced(h: seq<Message>, profile: AuthorId -> string) {
    forall i :: 0 <= i < |h| && h[i].stamp.Memory? ==>
      && h[i] == Profile(h[i].stamp.author, profile)
      && i + 1 < |h| && h[i + 1].stamp == Inbound(h[i].stamp.author)
  }

  lemma IntroducedAppend(h: seq<Message>, m: Message, profile: AuthorId -> string)
    requires Introduced(h, profile) && !m.stamp.Memory?
    ensures Introduced(h + [m], profile)
  {
    var after := h + [m];
    assert forall i :: 0 <= i < |h| ==> after[i] == h[i];
  }

  lemma IntroducedBoth(h: seq<Message>, m: Message, profile: AuthorId -> string)
    requires Introduced(h, profile) && m.stamp.Inbound?
    ensures Introduced(h + [Profile(m.stamp.author, profile)] + [m], profile)
  {
    var after := h + [Profile(m.stamp.author, profile)] + [m];
    assert forall i :: 0 <= i < |h| ==> after[i] == h[i];
    assert after[|h|] == Profile(m.stamp.author, profile) && after[|h| + 1] == m;
  }

  /** One message of the refresh: memories are dropped, and an author seen for the
      first time gets a fresh profile in front. */
  method RefreshOne(before: seq<Message>, known: set<AuthorId>, m: Message, profile: AuthorId -> string)
    returns (after: seq<Message>, injected: set<AuthorId>)
    requires Good(before, known) && Introduced(before, profile)
    ensures Good(after, injected) && Introduced(after, profile)
    ensures injected == known + if m.stamp.Inbound? then {m.stamp.author} else {}
    ensures Spoken(after) == if m.stamp.Memory? then Spoken(before) else Spoken(before) + [m]
    ensures match m.stamp
            case Memory(_) => after == before
            case Unstamped => after == before + [m]
            case Inbound(a) => after == (if a in known then before else before + [Profile(a, profile)]) + [m]
  {
    after, injected := before, known;
    if m.stamp.Memory? { return; }
    if m.stamp.Inbound? && m.stamp.author !in injected {
      var p := Profile(m.stamp.author, profile);
      PushKeepsGood(after, injected, p);
      SpokenAppend(after, p);
      IntroducedBoth(before, m, profile);
      after, injected := after + [p], injected + {m.stamp.author};
    } else {
      IntroducedAppend(before, m, profile);
    }
    PushKeepsGood(after, injected, m);
    SpokenAppend(after, m);
    after := after + [m];
  }

  /** The compaction refresh, on any history whatever. */
  method Refresh(h: seq<Message>, profile: AuthorId -> string)
    returns (refreshed: seq<Message>, injected: set<AuthorId>)
    ensures Good(refreshed, injected) && injected == InboundAuthors(h) && Introduced(refreshed, profile)
    ensures Spoken(refreshed) == Spoken(h) && SameTail(h, refreshed)
  {
    refreshed, injected := [], {};
    for k := 0 to |h|
      invariant Good(refreshed, injected) && injected == InboundAuthors(h[..k]) && Introduced(refreshed, profile)
      invariant Spoken(refreshed) == Spoken(h[..k]) && SameTail(h[..k], refreshed)
    {
      assert h[..k + 1] == h[..k] + [h[k]];
      SpokenAppend(h[..k], h[k]);
      InboundAuthorsAppend(h[..k], h[k]);
      refreshed, injected := RefreshOne(refreshed, injected, h[k], profile);
    }
    assert h[..|h|] == h;
  }

  /** What a restarted agent recovers from its transcript. */
  method CollectAuthors(h: seq<Message>) returns (injected: set<AuthorId>)
    ensures injected == Authors(h)
  {
    injected := {};
    for k := 0 to |h|
      invariant injected == Authors(h[..k])
    {
      assert h[..k + 1] == h[..k] + [h[k]];
      assert forall i :: 0 <= i < k ==> h[..k + 1][i] == h[..k][i];
      if h[k].stamp.Memory? {
        injected := injected + {h[k].stamp.author};
      }
    }
    assert h[..|h|] == h;
  }

  /** The agent's history, its transcript, and the marker set. */
  class History {
    var messages: seq<Message>
    var injected: set<AuthorId>
    var transcript: seq<Message>  // durable
    var hasNewInput: bool
    var inCall: bool              // a turn waits for the model
    var crashed: bool
    var safe: bool                // the process survives the step being taken

    /** While a turn is owed or running, the history does not end in a memory. */
    ghost predicate TailOk()
      reads this
    {
      (hasNewInput || inCall) && messages != [] ==> !messages[|messages| - 1].stamp.Memory?
    }

    ghost predicate Ok()
      reads this
    {
      && Good(transcript, Authors(transcript))
      && (!crashed ==> Good(messages, injected) && Good(transcript, injected) && TailOk())
    }

    /** Pushes a message and appends it to the transcript, unless the process dies. */
    method Push(m: Message)
      requires !crashed && Good(messages, injected) && Good(transcript, injected)
      requires m.stamp.Inbound? ==> m.stamp.author in injected
      requires m.stamp.Memory? ==> m.stamp.author !in injected
      modifies this`messages, this`transcript, this`crashed, this`injected
      ensures safe ==> !crashed
      ensures Good(transcript, Authors(transcript))
      ensures !crashed ==> Good(messages, injected) && Good(transcript, injected)
      ensures messages == old(messages) + [m]
      ensures injected == old(injected) + if m.stamp.Memory? then {m.stamp.author} else {}
      ensures transcript == if crashed then old(transcript) else old(transcript) + [m]
    {
      PushKeepsGood(messages, injected, m);
      PushKeepsGood(transcript, injected, m);
      messages := messages + [m];
      injected := injected + if m.stamp.Memory? then {m.stamp.author} else {};
      var dies: bool := *;
      if dies && !safe {
        crashed := true;
      } else {
        transcript := transcript + [m];
      }
      PrefixKeepsGood(transcript, if crashed then old(injected) else injected, |transcript|);
      assert transcript[..|transcript|] == transcript;
    }

    /** Injects the author's profile once. */
    method EnsurePersonMemory(a: AuthorId, profile: string)
      requires !crashed && Ok()
      modifies this`messages, this`transcript, this`crashed, this`injected
      ensures safe ==> !crashed
      ensures Good(transcript, Authors(transcript))
      ensures !crashed ==> Good(messages, injected) && Good(transcript, injected) && injected == old(injected) + {a}
      ensures a in old(injected) ==> messages == old(messages) && transcript == old(transcript) && !crashed
      ensures a !in old(injected) ==> messages == old(messages) + [Message(User, Memory(a), profile)]
    {
      if a in injected { return; }
      Push(Message(User, Memory(a), profile));
    }

    /** Drains one inbound message; only Discord people carry a stamp. */
    method Ingest(person: bool, a: AuthorId, profile: string, content: string, ambient: bool)
      requires !crashed && Ok()
      modifies this`messages, this`injected, this`transcript, this`hasNewInput, this`crashed
      ensures safe ==> !crashed
      ensures Ok()
      ensures !crashed ==>
                && messages != []
                && messages[|messages| - 1] == Message(User, if person then Inbound(a) else Unstamped, content)
      ensures !crashed ==>
                && (person ==> a in injected)
                && |messages| - |old(messages)| == (if person && a !in old(injected) then 2 else 1)
      ensures !crashed && !ambient ==> hasNewInput
    {
      if person {
        EnsurePersonMemory(a, profile);
        if crashed { return; }
      }
      Push(Message(User, if person then Inbound(a) else Unstamped, content));
      if crashed { return; }
      if !ambient { hasNewInput := true; }
    }

    /** An assistant message, a tool result, or a nudge of the runtime. */
    method PushOther(role: Role, content: string)
      requires !crashed && Ok()
      modifies this`messages, this`injected, this`transcript, this`hasNewInput, this`crashed
      ensures safe ==> !crashed
      ensures Ok()
      ensures !crashed ==> messages == old(messages) + [Message(role, Unstamped, content)]
    {
      Push(Message(role, Unstamped, content));
    }

    method StartTurn()
      requires !crashed && Ok() && hasNewInput
      modifies this`inCall
      ensures Ok() && inCall
    {
      inCall := true;
    }

    /** A non-retriable error or a fully leaked response drops the last user message. */
    method EndTurn(pop: bool)
      requires !crashed && Ok() && inCall
      modifies this`messages, this`inCall, this`hasNewInput
      ensures Ok() && !inCall && !hasNewInput
      ensures var n := |old(messages)|;
              var pops := pop && n > 0 && old(messages)[n - 1].role == User;
              messages == if pops then old(messages)[..n - 1] else old(messages)
    {
      if pop && messages != [] && messages[|messages| - 1].role == User {
        PopKeepsGoodIff(messages, injected);
        messages := messages[..|messages| - 1];
      }
      inCall, hasNewInput := false, false;
    }

    method RefreshPersonMemory(profile: AuthorId -> string)
      modifies this`messages, this`injected
      ensures Introduced(messages, profile)
      ensures Good(messages, injected) && injected == InboundAuthors(old(messages))
      ensures Spoken(messages) == Spoken(old(messages))
      ensures SameTail(old(messages), messages)
    {
      messages, injected := Refresh(messages, profile);
    }

    /** Rotates to a fresh transcript and writes the whole history into it; the old
        file stays the newest one until the first line is written. */
    method RewriteTranscript()
      requires !crashed && Good(messages, injected) && Good(transcript, Authors(transcript))
      modifies this`transcript, this`crashed
      ensures safe ==> !crashed
      ensures Good(transcript, Authors(transcript))
      ensures !crashed && messages != [] ==> transcript == messages && Good(transcript, injected)
      ensures messages == [] ==> transcript == old(transcript) && !crashed
    {
      for k := 0 to |messages|
        invariant !crashed && (k == 0 ==> transcript == old(transcript))
        invariant k > 0 ==> transcript == messages[..k]
        invariant Good(transcript, Authors(transcript))
      {
        var dies: bool := *;
        if dies && !safe {
          crashed := true;
          return;
        }
        PrefixKeepsGood(messages, injected, k + 1);
        transcript := messages[..k + 1];
      }
      assert messages[..|messages|] == messages;
    }

    /** The compactor's swap, the profile refresh, and the durable rewrite. */
    method Compact(summary: string, boundary: nat, notice: string, profile: AuthorId -> string)
      requires !crashed && Ok() && boundary <= |messages|
      modifies this`messages, this`injected, this`transcript, this`hasNewInput, this`crashed
      ensures safe ==> !crashed
      ensures Ok()
      ensures !crashed ==> transcript == messages && hasNewInput == old(hasNewInput) && inCall == old(inCall)
      ensures !crashed ==> Spoken(messages) == Spoken(Folded(old(messages)[boundary..], summary, notice))
      ensures !crashed ==> Introduced(messages, profile)
    {
      messages := Folded(messages[boundary..], summary, notice);
      RefreshPersonMemory(profile);
      RewriteTranscript();
    }

    /** The empty sentinel is durable before memory is wiped. */
    method Clear()
      requires !crashed && Ok()
      modifies this`messages, this`injected, this`transcript, this`hasNewInput, this`crashed
      ensures safe ==> !crashed
      ensures Ok()
      ensures !crashed ==> messages == [] && injected == {} && transcript == [] && !hasNewInput
    {
      var dies: bool := *;
      if dies && !safe {
        crashed := true;
        return;
      }
      transcript, messages, injected, hasNewInput := [], [], {}, false;
    }

    /** A new process primes its history from the newest transcript. */
    method Restart()
      requires Ok()
      modifies this
      ensures Ok() && !crashed && messages == transcript == old(transcript) && injected == Authors(transcript)
    {
      crashed, hasNewInput, inCall := false, false, false;
      messages := transcript;
      injected := CollectAuthors(transcript);
    }

    /** Every history reachable by any sequence of these steps is good. */
    method Run(steps: nat)
      requires Ok()
      modifies this
      ensures Ok()
    {
      for k := 0 to steps
        invariant Ok()
      {
        var which: int, n: nat, role: Role := *, *, *;
        var flag: bool, other: bool := *, *;
        safe := *;
        var a: AuthorId, profile: string, text: string := *, *, *;
        if crashed || which == 0 {
          Restart();
        } else if which == 1 {
          Ingest(flag, a, profile, text, other);
        } else if which == 2 {
          PushOther(role, text);
        } else if which == 3 && hasNewInput {
          StartTurn();
        } else if which == 4 && inCall {
          EndTurn(flag);
        } else if which == 5 && n <= |messages| {
          Compact(text, n, text, _ => profile);
        } else if which == 6 {
          Clear();
        } else if which == 7 {
          RewriteTranscript();
        }
      }
    }
  }
}
