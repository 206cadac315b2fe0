/** Console collections sent as patches: replacement rows for changed ids, and the order. */
module CollectionPatch {
  import opened Options

  /** Ids are compared by value. */
  type Id = string

  /** Rows are compared by their JSON text, which is taken to identify the record. */
  datatype Row = Row(id: Id, json: string)

  datatype Value = Rows(rows: seq<Row>) | Order(ids: seq<Id>) | Other(json: string)

  type Record = map<string, Value>

  const ORDER := "order"

  predicate HasRows(r: Record, key: string) { key in r && r[key].Rows? }

  /** What a map filled from the rows in turn holds under an id. */
  function LastWith(rows: seq<Row>, id: Id): Option<Row> {
    if rows == [] then None
    else if rows[|rows| - 1].id == id then Some(rows[|rows| - 1])
    else LastWith(rows[..|rows| - 1], id)
  }

  function Changed(before: seq<Row>, rows: seq<Row>): seq<Row> {
    if rows == [] then []
    else
      var r := rows[|rows| - 1];
      Changed(before, rows[..|rows| - 1]) + if LastWith(before, r.id) == Some(r) then [] else [r]
  }

  function Ids(rows: seq<Row>): seq<Id> {
    seq(|rows|, i requires 0 <= i < |rows| => rows[i].id)
  }

  function Patch(previous: Record, next: Record, key: string): Record
    requires HasRows(previous, key) && HasRows(next, key)
  {
    next[key := Rows(Changed(previous[key].rows, next[key].rows))][ORDER := Order(Ids(next[key].rows))]
  }

  /** The rows named by an order, those found. */
  function Resolve(rows: seq<Row>, order: seq<Id>): seq<Row> {
    if order == [] then []
    else
      var found := LastWith(rows, order[|order| - 1]);
      Resolve(rows, order[..|order| - 1]) + if found.Some? then [found.value] else []
  }

  predicate IsPatch(patch: Record, key: string) {
    HasRows(patch, key) && ORDER in patch && patch[ORDER].Order?
  }

  function Apply(previous: Record, patch: Record, key: string): Record
    requires key != ORDER && HasRows(previous, key) && IsPatch(patch, key)
  {
    (patch - {ORDER})[key := Rows(Resolve(previous[key].rows + patch[key].rows, patch[ORDER].ids))]
  }

  lemma {:induction false} LastWithFound(rows: seq<Row>, id: Id)
    ensures LastWith(rows, id).Some? ==> LastWith(rows, id).value in rows && LastWith(rows, id).value.id == id
    ensures LastWith(rows, id).None? <==> forall r <- rows :: r.id != id
  {
    if rows != [] {
      LastWithFound(rows[..|rows| - 1], id);
      assert rows == rows[..|rows| - 1] + [rows[|rows| - 1]];
    }
  }

  lemma {:induction false} LastWithConcat(a: seq<Row>, b: seq<Row>, id: Id)
    ensures LastWith(a + b, id) == if LastWith(b, id).Some? then LastWith(b, id) else LastWith(a, id)
  {
    if b == [] {
      assert a + b == a;
    } else {
      assert (a + b)[..|a + b| - 1] == a + b[..|b| - 1];
      LastWithConcat(a, b[..|b| - 1], id);
    }
  }

  lemma {:induction false} ChangedMembers(before: seq<Row>, rows: seq<Row>)
    ensures forall r :: r in Changed(before, rows) <==> r in rows && LastWith(before, r.id) != Some(r)
  {
    if rows != [] {
      ChangedMembers(before, rows[..|rows| - 1]);
      assert rows == rows[..|rows| - 1] + [rows[|rows| - 1]];
    }
  }

  /** Rows with one id are one row. */
  predicate Consistent(rows: seq<Row>) {
    forall a <- rows, b <- rows :: a.id == b.id ==> a == b
  }

  lemma {:induction false} ResolveAll(rows: seq<Row>, order: seq<Id>)
    requires forall id <- order :: LastWith(rows, id).Some?
    ensures |Resolve(rows, order)| == |order|
    ensures forall i :: 0 <= i < |order| ==> Resolve(rows, order)[i] == LastWith(rows, order[i]).value
  {
    if order != [] {
      assert order[|order| - 1] in order;
      ResolveAll(rows, order[..|order| - 1]);
    }
  }

  /** A row of the next state is found after the patch's rows are laid over the previous ones. */
  lemma LaidOver(before: seq<Row>, rows: seq<Row>, r: Row)
    requires r in rows
    ensures var found := LastWith(before + Changed(before, rows), r.id);
            found.Some? && found.value in rows && found.value.id == r.id
  {
    LastWithConcat(before, Changed(before, rows), r.id);
    LastWithFound(Changed(before, rows), r.id);
    ChangedMembers(before, rows);
  }

  lemma RowsRestoredIff(before: seq<Row>, rows: seq<Row>)
    ensures Resolve(before + Changed(before, rows), Ids(rows)) == rows <==> Consistent(rows)
  {
    var all := before + Changed(before, rows);
    forall id | id in Ids(rows)
      ensures LastWith(all, id).Some?
    {
      var i :| 0 <= i < |rows| && rows[i].id == id;
      LaidOver(before, rows, rows[i]);
    }
    ResolveAll(all, Ids(rows));
    forall r | r in rows
      ensures LastWith(all, r.id).Some? && LastWith(all, r.id).value in rows && LastWith(all, r.id).value.id == r.id
    {
      LaidOver(before, rows, r);
    }
    if Resolve(all, Ids(rows)) == rows {
      forall i, j | 0 <= i < |rows| && 0 <= j < |rows| && rows[i].id == rows[j].id
        ensures rows[i] == rows[j]
      {
        assert rows[i] == Resolve(all, Ids(rows))[i] && rows[j] == Resolve(all, Ids(rows))[j];
      }
    }
  }

  /** The client ends with the server's state exactly when no field of it is called `order`
      and its rows never give one id to two different records. */
  lemma RoundTripIff(previous: Record, next: Record, key: string)
    requires key != ORDER && HasRows(previous, key) && HasRows(next, key)
    ensures Apply(previous, Patch(previous, next, key), key) == next <==> ORDER !in next && Consistent(next[key].rows)
  {
    RowsRestoredIff(previous[key].rows, next[key].rows);
    var patch := Patch(previous, next, key);
    var result := Apply(previous, patch, key);
    assert patch[key].rows == Changed(previous[key].rows, next[key].rows);
    assert ORDER !in result;
    if ORDER !in next && Consistent(next[key].rows) {
      assert result == next;
    }
  }

  /** With one record per id before, the patch carries exactly the rows that were not there. */
  lemma PatchRowsAreTheNewOnes(before: seq<Row>, rows: seq<Row>)
    requires Consistent(before)
    ensures forall r :: r in Changed(before, rows) <==> r in rows && r !in before
  {
    ChangedMembers(before, rows);
    forall r | r in rows
      ensures LastWith(before, r.id) == Some(r) <==> r in before
    {
      LastWithFound(before, r.id);
    }
  }

  /** No patch that rebuilds the rows does without any of the changed ones. */
  lemma PatchIsLeast(before: seq<Row>, rows: seq<Row>, sent: seq<Row>)
    requires Resolve(before + sent, Ids(rows)) == rows
    ensures forall r <- Changed(before, rows) :: r in sent
  {
    var all := before + sent;
    ResolveShort(all, Ids(rows));
    ResolveAll(all, Ids(rows));
    ChangedMembers(before, rows);
    forall r | r in Changed(before, rows)
      ensures r in sent
    {
      var i :| 0 <= i < |rows| && rows[i] == r;
      assert Resolve(all, Ids(rows))[i] == LastWith(all, r.id).value == r;
      LastWithConcat(before, sent, r.id);
      LastWithFound(sent, r.id);
    }
  }

  lemma {:induction false} ResolveShort(rows: seq<Row>, order: seq<Id>)
    ensures |Resolve(rows, order)| <= |order|
    ensures |Resolve(rows, order)| == |order| ==> forall id <- order :: LastWith(rows, id).Some?
  {
    if order != [] {
      ResolveShort(rows, order[..|order| - 1]);
      assert order == order[..|order| - 1] + [order[|order| - 1]];
    }
  }

  // ----- A client that follows a server

  predicate Sendable(state: Record, key: string) {
    HasRows(state, key) && ORDER !in state && Consistent(state[key].rows)
  }

  /** The client's state after the patches between successive server states. */
  function Follow(client: Record, server: Record, later: seq<Record>, key: string): Option<Record>
    requires key != ORDER
    decreases |later|
  {
    if later == [] then Some(client)
    else if !HasRows(client, key) || !HasRows(server, key) || !HasRows(later[0], key) then None
    else Follow(Apply(client, Patch(server, later[0], key), key), later[0], later[1..], key)
  }

  /** A client that starts with the server's rows, whatever its other fields, holds the
      server's latest state after every patch. */
  lemma {:induction false} FollowerKeepsUp(client: Record, server: Record, later: seq<Record>, key: string)
    requires key != ORDER && HasRows(client, key) && HasRows(server, key) && client[key] == server[key]
    requires forall s <- later :: Sendable(s, key)
    ensures Follow(client, server, later, key) == Some(if later == [] then client else later[|later| - 1])
    decreases |later|
  {
    if later != [] {
      var next := later[0];
      assert next in later;
      RoundTripIff(server, next, key);
      assert Apply(client, Patch(server, next, key), key) == Apply(server, Patch(server, next, key), key);
      FollowerKeepsUp(next, next, later[1..], key);
    }
  }

  // ----- The loop that applies a patch

  method ApplyCollectionPatch(previous: Record, patch: Record, key: string) returns (r: Record)
    requires key != ORDER && HasRows(previous, key) && IsPatch(patch, key)
    ensures r == Apply(previous, patch, key)
  {
    var before, sent, order := previous[key].rows, patch[key].rows, patch[ORDER].ids;
    var rows: map<Id, Row> := map[];
    for i := 0 to |before|
      invariant Holds(rows, before[..i])
    {
      assert before[..i + 1][..i] == before[..i];
      rows := rows[before[i].id := before[i]];
    }
    assert before[..|before|] == before == before + sent[..0];
    for i := 0 to |sent|
      invariant Holds(rows, before + sent[..i])
    {
      assert (before + sent[..i + 1])[..|before| + i] == before + sent[..i];
      rows := rows[sent[i].id := sent[i]];
    }
    assert sent[..|sent|] == sent;
    var out := [];
    for i := 0 to |order|
      invariant out == Resolve(before + sent, order[..i])
    {
      assert order[..i + 1][..i] == order[..i];
      if order[i] in rows { out := out + [rows[order[i]]]; }
    }
    assert order[..|order|] == order;
    r := (patch - {ORDER})[key := Rows(out)];
  }

  ghost predicate Holds(m: map<Id, Row>, rows: seq<Row>) {
    forall id :: LastWith(rows, id) == if id in m then Some(m[id]) else None
  }
}
