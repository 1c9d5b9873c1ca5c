/** The listing of access rules: one joined row per rule and group, folded back into one entry per rule. */
module RuleListing {
  import opened Options

  datatype Row = Row(
    id: string, name: string, resource: string, enabled: int,
    createdAt: string, updatedAt: string, group: Option<string>)

  datatype Entry = Entry(
    id: string, name: string, resource: string, enabled: bool,
    createdAt: string, updatedAt: string, groups: seq<string>)

  // ---------- The reference ----------

  /** Rule ids in order of first appearance. */
  function Order(rows: seq<Row>): seq<string> {
    if rows == [] then []
    else
      var before, last := Order(rows[..|rows| - 1]), rows[|rows| - 1];
      if last.id in before then before else before + [last.id]
  }

  /** The non-null groups of a rule's rows, in row order. */
  function GroupsOf(rows: seq<Row>, id: string): seq<string> {
    if rows == [] then []
    else
      var before, last := GroupsOf(rows[..|rows| - 1], id), rows[|rows| - 1];
      if last.id == id && last.group.Some? then before + [last.group.value] else before
  }

  function FirstRow(rows: seq<Row>, id: string): (r: Row)
    requires exists r <- rows :: r.id == id
    ensures r in rows && r.id == id
  {
    if rows[0].id == id then rows[0] else FirstRow(rows[1..], id)
  }

  function EntryOf(rows: seq<Row>, id: string): Entry
    requires exists r <- rows :: r.id == id
  {
    var r := FirstRow(rows, id);
    Entry(id, r.name, r.resource, r.enabled == 1, r.createdAt, r.updatedAt, GroupsOf(rows, id))
  }

  lemma {:induction false} OrderMembers(rows: seq<Row>)
    ensures forall id :: id in Order(rows) <==> exists r <- rows :: r.id == id
    ensures forall i, j :: 0 <= i < j < |Order(rows)| ==> Order(rows)[i] != Order(rows)[j]
  {
    if rows != [] {
      var n := |rows| - 1;
      OrderMembers(rows[..n]);
      assert rows == rows[..n] + [rows[n]];
    }
  }

  lemma OrderStart()
    ensures Order([]) == []
  {
  }

  lemma OrderStep(rows: seq<Row>, r: Row)
    ensures Order(rows + [r]) == if r.id in Order(rows) then Order(rows) else Order(rows) + [r.id]
  {
  }

  predicate Seen(rows: seq<Row>, id: string) {
    exists r <- rows :: r.id == id
  }

  function FirstIndex(rows: seq<Row>, id: string): (k: nat)
    requires Seen(rows, id)
    ensures k < |rows| && rows[k].id == id && forall i :: 0 <= i < k ==> rows[i].id != id
  {
    if rows[0].id == id then 0 else 1 + FirstIndex(rows[1..], id)
  }

  /** Rules are listed in the order in which their first rows come. */
  lemma {:induction false} OrderIsFirstAppearance(rows: seq<Row>, i: nat, j: nat)
    requires i < j < |Order(rows)|
    ensures Seen(rows, Order(rows)[i]) && Seen(rows, Order(rows)[j])
    ensures FirstIndex(rows, Order(rows)[i]) < FirstIndex(rows, Order(rows)[j])
  {
    var n := |rows| - 1;
    var before, r := rows[..n], rows[n];
    OrderMembers(rows);
    OrderMembers(before);
    assert rows == before + [r];
    var a, b := Order(rows)[i], Order(rows)[j];
    assert a in Order(rows) && b in Order(rows);
    if j < |Order(before)| {
      OrderIsFirstAppearance(before, i, j);
      SameFirstIndex(before, r, a);
      SameFirstIndex(before, r, b);
    } else {
      assert a in Order(before) && b !in Order(before);
      SameFirstIndex(before, r, a);
      assert FirstIndex(rows, b) == n;
    }
  }

  lemma SameFirstIndex(rows: seq<Row>, r: Row, id: string)
    requires Seen(rows, id)
    ensures Seen(rows + [r], id) && FirstIndex(rows + [r], id) == FirstIndex(rows, id)
  {
    var k, m := FirstIndex(rows, id), rows + [r];
    assert m[k] == rows[k] && m[k] in m;
    var k' := FirstIndex(m, id);
    assert forall i :: 0 <= i < |rows| ==> m[i] == rows[i];
  }

  // ---------- The loop, with its map of pointers and its early copies ----------

  class Cell {
    var entry: Entry

    constructor (entry: Entry)
      ensures this.entry == entry
    {
      this.entry := entry;
    }
  }

  lemma FirstRowStays(rows: seq<Row>, r: Row, id: string)
    requires exists x <- rows :: x.id == id
    ensures (exists x <- rows + [r] :: x.id == id) && FirstRow(rows + [r], id) == FirstRow(rows, id)
  {
    var x :| x in rows && x.id == id;
    assert x in rows + [r];
    if rows[0].id != id {
      assert x in rows[1..] by { assert rows == [rows[0]] + rows[1..]; }
      FirstRowStays(rows[1..], r, id);
      assert (rows + [r])[1..] == rows[1..] + [r];
    }
  }

  lemma FirstRowNew(rows: seq<Row>, r: Row)
    requires forall x <- rows :: x.id != r.id
    ensures r in rows + [r] && FirstRow(rows + [r], r.id) == r
    decreases |rows|
  {
  }

  lemma {:induction false} NoGroupsYet(rows: seq<Row>, id: string)
    requires forall x <- rows :: x.id != id
    ensures GroupsOf(rows, id) == []
  {
    if rows != [] {
      NoGroupsYet(rows[..|rows| - 1], id);
    }
  }

  /** An entry repeats the fields of the first row of its rule, and the rule counts as enabled by the flag 1. */
  lemma {:induction false} EntryRepeatsFirstRow(rows: seq<Row>, id: string, k: nat)
    requires k < |rows| && rows[k].id == id && forall i :: 0 <= i < k ==> rows[i].id != id
    ensures Seen(rows, id)
    ensures var e, r := EntryOf(rows, id), rows[k];
            && e.id == id && e.name == r.name && e.resource == r.resource && (e.enabled <==> r.enabled == 1)
            && e.createdAt == r.createdAt && e.updatedAt == r.updatedAt
  {
    assert rows[k] in rows;
    if k > 0 {
      assert rows[1..][k - 1] == rows[k];
      EntryRepeatsFirstRow(rows[1..], id, k - 1);
    }
  }

  /** How one more row changes the entries. */
  lemma EntryStep(rows: seq<Row>, r: Row, id: string)
    ensures Seen(rows + [r], id) <==> Seen(rows, id) || r.id == id
    ensures Seen(rows, id) ==>
      EntryOf(rows + [r], id) == EntryOf(rows, id).(groups := EntryOf(rows + [r], id).groups)
    ensures Seen(rows, id) ==>
      EntryOf(rows + [r], id).groups
      == EntryOf(rows, id).groups + if r.id == id && r.group.Some? then [r.group.value] else []
    ensures !Seen(rows, id) && r.id == id ==>
      EntryOf(rows + [r], id)
      == Entry(id, r.name, r.resource, r.enabled == 1, r.createdAt, r.updatedAt,
               if r.group.Some? then [r.group.value] else [])
  {
    var longer := rows + [r];
    assert longer[..|rows|] == rows && longer[|rows|] == r;
    assert r in longer && forall x <- rows :: x in longer;
    if Seen(rows, id) {
      FirstRowStays(rows, r, id);
    } else if r.id == id {
      FirstRowNew(rows, r);
      NoGroupsYet(rows, id);
    }
  }

  /** The map holds, behind its pointers, the entry of every rule seen so far. */
  ghost predicate Tracks(byId: map<string, Cell>, rows: seq<Row>)
    reads byId.Values
  {
    && (forall id :: id in byId <==> Seen(rows, id))
    && (forall id <- byId :: byId[id].entry == EntryOf(rows, id))
  }

  /** One turn of the row loop. */
  method AddRow(byId: map<string, Cell>, out: seq<Entry>, ghost rows: seq<Row>, r: Row)
    returns (byId': map<string, Cell>, out': seq<Entry>)
    requires Tracks(byId, rows)
    modifies byId.Values
    ensures Tracks(byId', rows + [r])
    ensures forall cell <- byId'.Values :: cell in byId.Values || fresh(cell)
    ensures if r.id in byId then out' == out
            else |out'| == |out| + 1 && out'[..|out|] == out && out'[|out|].id == r.id
  {
    hide FirstRow, GroupsOf;
    byId', out' := byId, out;
    if r.id !in byId {
      var cell := new Cell(Entry(r.id, r.name, r.resource, r.enabled == 1, r.createdAt, r.updatedAt, []));
      byId' := byId[r.id := cell];
      out' := out + [cell.entry];
    }
    var rule := byId'[r.id];
    assert forall id <- byId :: id != r.id ==> byId[id].entry.id != rule.entry.id;
    label L:
    if r.group.Some? {
      rule.entry := rule.entry.(groups := rule.entry.groups + [r.group.value]);
    }
    forall id ensures id in byId' <==> Seen(rows + [r], id) {
      EntryStep(rows, r, id);
    }
    forall id | id in byId' ensures byId'[id].entry == EntryOf(rows + [r], id) {
      EntryStep(rows, r, id);
      if id != r.id {
        assert byId'[id] != rule;
      }
    }
  }

  /** The ids of the entries, in their order. */
  predicate ListsIds(out: seq<Entry>, ids: seq<string>) {
    |out| == |ids| && forall i :: 0 <= i < |out| ==> out[i].id == ids[i]
  }

  lemma NothingListed()
    ensures ListsIds([], [])
  {
  }

  lemma ListsOneMore(out: seq<Entry>, more: seq<Entry>, ids: seq<string>, id: string)
    requires ListsIds(out, ids) && |more| == |out| + 1 && more[..|out|] == out && more[|out|].id == id
    ensures ListsIds(more, ids + [id])
  {
    assert forall i :: 0 <= i < |out| ==> more[i] == more[..|out|][i];
  }

  method GroupRows(rows: seq<Row>) returns (out: seq<Entry>)
    ensures |out| == |Order(rows)|
    ensures forall i :: 0 <= i < |out| ==> Seen(rows, Order(rows)[i]) && out[i] == EntryOf(rows, Order(rows)[i])
  {
    hide EntryOf, Order, ListsIds;
    out := [];
    var byId: map<string, Cell> := map[];
    OrderStart();
    assert ListsIds([], []) by {
      NothingListed();
    }
    for n := 0 to |rows|
      invariant forall cell <- byId.Values :: fresh(cell)
      invariant Tracks(byId, rows[..n])
      invariant ListsIds(out, Order(rows[..n]))
    {
      assert rows[..n + 1] == rows[..n] + [rows[n]];
      OrderMembers(rows[..n]);
      OrderStep(rows[..n], rows[n]);
      assert rows[n].id in byId <==> rows[n].id in Order(rows[..n]);
      var more;
      byId, more := AddRow(byId, out, rows[..n], rows[n]);
      if |more| > |out| {
        ListsOneMore(out, more, Order(rows[..n]), rows[n].id);
      }
      out := more;
    }
    assert rows[..|rows|] == rows;
    out := Refreshed(byId, rows, out);
  }

  /** The final pass, which overwrites the early copies with what the pointers hold. */
  method Refreshed(byId: map<string, Cell>, ghost rows: seq<Row>, early: seq<Entry>) returns (out: seq<Entry>)
    requires Tracks(byId, rows)
    requires ListsIds(early, Order(rows))
    ensures |out| == |Order(rows)|
    ensures forall i :: 0 <= i < |out| ==> Seen(rows, Order(rows)[i]) && out[i] == EntryOf(rows, Order(rows)[i])
  {
    out := early;
    OrderMembers(rows);
    assert forall i :: 0 <= i < |early| ==> Seen(rows, Order(rows)[i]) by {
      assert forall i :: 0 <= i < |early| ==> Order(rows)[i] in Order(rows);
    }
    for i := 0 to |out|
      invariant |out| == |Order(rows)|
      invariant forall k :: 0 <= k < i ==> out[k] == EntryOf(rows, Order(rows)[k])
      invariant forall k :: i <= k < |out| ==> out[k].id == Order(rows)[k]
    {
      if out[i].id in byId {
        out := out[i := byId[out[i].id].entry];
      }
    }
  }

  // ---------- Nothing lost, nothing invented ----------

  /** The (rule, group) pairs of a list of entries, and those of the joined rows. */
  function ListedPairs(rows: seq<Row>, ids: seq<string>): multiset<(string, string)> {
    if ids == [] then multiset{}
    else ListedPairs(rows, ids[1..]) + Tagged(ids[0], GroupsOf(rows, ids[0]))
  }

  function Tagged(id: string, groups: seq<string>): multiset<(string, string)> {
    if groups == [] then multiset{}
    else Tagged(id, groups[..|groups| - 1]) + multiset{(id, groups[|groups| - 1])}
  }

  function RowPair(r: Row): multiset<(string, string)> {
    if r.group.Some? then multiset{(r.id, r.group.value)} else multiset{}
  }

  function RowPairs(rows: seq<Row>): multiset<(string, string)> {
    if rows == [] then multiset{} else RowPairs(rows[..|rows| - 1]) + RowPair(rows[|rows| - 1])
  }

  lemma TaggedStep(rows: seq<Row>, r: Row, id: string)
    ensures Tagged(id, GroupsOf(rows + [r], id))
         == Tagged(id, GroupsOf(rows, id)) + if r.id == id then RowPair(r) else multiset{}
  {
  }

  lemma {:induction false} PairsStep(rows: seq<Row>, r: Row, ids: seq<string>)
    requires forall i, j :: 0 <= i < j < |ids| ==> ids[i] != ids[j]
    ensures ListedPairs(rows + [r], ids) == ListedPairs(rows, ids) + if r.id in ids then RowPair(r) else multiset{}
  {
    hide GroupsOf, Tagged, RowPair;
    if ids != [] {
      PairsStep(rows, r, ids[1..]);
      TaggedStep(rows, r, ids[0]);
      assert ids == [ids[0]] + ids[1..];
      assert r.id == ids[0] ==> r.id !in ids[1..];
    }
  }

  lemma {:induction false} ListedSnoc(rows: seq<Row>, ids: seq<string>, id: string)
    ensures ListedPairs(rows, ids + [id]) == ListedPairs(rows, ids) + Tagged(id, GroupsOf(rows, id))
  {
    if ids == [] {
      assert ([] + [id])[1..] == [];
    } else {
      ListedSnoc(rows, ids[1..], id);
      assert (ids + [id])[1..] == ids[1..] + [id];
    }
  }

  lemma FirstPair(rows: seq<Row>, r: Row)
    requires !Seen(rows, r.id)
    ensures Tagged(r.id, GroupsOf(rows + [r], r.id)) == RowPair(r)
  {
    NoGroupsYet(rows, r.id);
    TaggedStep(rows, r, r.id);
  }

  /** For any row order the listed entries hold each joined (rule, group) pair as often as the rows do. */
  lemma {:induction false} GroupingConserves(rows: seq<Row>)
    ensures ListedPairs(rows, Order(rows)) == RowPairs(rows)
  {
    hide GroupsOf, Tagged, RowPair, ListedPairs;
    if rows == [] {
      assert ListedPairs(rows, []) == multiset{} by { EmptyPairs(rows); }
    } else {
      var n := |rows| - 1;
      var r, before := rows[n], rows[..n];
      GroupingConserves(before);
      OrderMembers(before);
      assert rows == before + [r];
      PairsStep(before, r, Order(before));
      if r.id !in Order(before) {
        FirstPair(before, r);
        ListedSnoc(rows, Order(before), r.id);
      }
    }
  }

  lemma EmptyPairs(rows: seq<Row>)
    ensures ListedPairs(rows, []) == multiset{}
  {
  }
}
