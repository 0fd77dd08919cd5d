// The transcript converges: in whatever order server rows arrive, split into HTTP pages and
// single realtime echoes, the final list is the same.
module ChannelConvergence {
  import opened StableSort
  import opened ChannelCache

  // The transcript as a table from id to row; order carries no further information. The proof
  // follows this table, on which absorbing one row is a commuting step.
  type Table = map<string, Entry>

  ghost function Index(list: seq<Entry>): (table: Table)
    requires UniqueIds(list)
    ensures forall e :: e in list ==> e.id in table && table[e.id] == e
    ensures forall id :: id in table ==> table[id] in list && table[id].id == id
  {
    map e | e in list :: e.id := e
  }

  // The placeholder that `row` answers: the first one in transcript order.
  ghost function Answered(clock: Clock, table: Table, row: Entry): set<string> {
    set id | id in table && Answers(row, table[id])
      && (forall other :: other in table && Answers(row, table[other]) ==> clock.Le(table[id], table[other]))
  }

  ghost function Receive(clock: Clock, table: Table, row: Entry): Table {
    if row.id in table then table[row.id := MergeMessage(table[row.id], row)]
    else (table - Answered(clock, table, row))[row.id := row]
  }

  ghost function ReceiveAll(clock: Clock, table: Table, rows: seq<Entry>): Table
    decreases |rows|
  {
    if rows == [] then table else ReceiveAll(clock, Receive(clock, table, rows[0]), rows[1..])
  }

  // ids are keys of their own rows
  ghost predicate Keyed(table: Table) {
    forall id :: id in table ==> table[id].id == id
  }

  ghost predicate Unclaimed(table: Table, row: Entry) {
    !Pending(row) && (row.id in table ==> !Pending(table[row.id]))
  }

  // ---------------------------------------------------------------- steps commute

  lemma AnsweredIsUnique(clock: Clock, table: Table, row: Entry, a: string, b: string)
    requires clock.Lawful() && Keyed(table)
    requires a in Answered(clock, table, row) && b in Answered(clock, table, row)
    ensures a == b
  {
    LeIsTotal(clock, table[a], table[b]);
  }

  lemma ReceiveKeepsUnclaimed(clock: Clock, table: Table, row: Entry, other: Entry)
    requires clock.Lawful() && Keyed(table)
    requires Unclaimed(table, row) && Unclaimed(table, other) && row.id != other.id
    ensures Unclaimed(Receive(clock, table, row), other)
    ensures Keyed(Receive(clock, table, row))
    ensures other.id in Receive(clock, table, row) <==> other.id in table
    ensures other.id in table ==> Receive(clock, table, row)[other.id] == table[other.id]
  {
  }

  // Receiving `row` changes which placeholder a different row answers only when the two
  // answer the same request.
  lemma AnsweredAfter(clock: Clock, table: Table, row: Entry, other: Entry)
    requires clock.Lawful() && Keyed(table)
    requires Unclaimed(table, row) && row.id != other.id
    requires row.id in table || !SameMessageRequest(row, other)
    ensures Answered(clock, Receive(clock, table, row), other) == Answered(clock, table, other)
  {
    var after := Receive(clock, table, row);
    assert forall id :: id in after && Answers(other, after[id]) <==> id in table && Answers(other, table[id]);
    assert forall id :: id in after && Answers(other, after[id]) ==> after[id] == table[id];
  }

  lemma ReceiveCommutes(clock: Clock, table: Table, a: Entry, b: Entry)
    requires clock.Lawful() && Keyed(table)
    requires Unclaimed(table, a) && Unclaimed(table, b) && a.id != b.id
    ensures Receive(clock, Receive(clock, table, a), b) == Receive(clock, Receive(clock, table, b), a)
  {
    ReceiveKeepsUnclaimed(clock, table, a, b);
    ReceiveKeepsUnclaimed(clock, table, b, a);
    if a.id !in table && b.id !in table && SameMessageRequest(a, b) {
      RivalsCommute(clock, table, a, b);
    } else if a.id in table {
      AnsweredAfter(clock, table, a, b);
    } else if b.id in table {
      AnsweredAfter(clock, table, b, a);
    } else {
      AnsweredAfter(clock, table, a, b);
      AnsweredAfter(clock, table, b, a);
    }
  }

  // Two new rows that answer the same request take the same two placeholders either way.
  lemma RivalsCommute(clock: Clock, table: Table, a: Entry, b: Entry)
    requires clock.Lawful() && Keyed(table)
    requires Unclaimed(table, a) && Unclaimed(table, b) && a.id != b.id
    requires a.id !in table && b.id !in table && SameMessageRequest(a, b)
    ensures Receive(clock, Receive(clock, table, a), b) == Receive(clock, Receive(clock, table, b), a)
  {
    var ta, tb := Receive(clock, table, a), Receive(clock, table, b);
    assert Answered(clock, table, a) == Answered(clock, table, b);
    var gone := Answered(clock, table, a);
    var rest := table - gone;
    AnsweredIgnores(clock, ta, rest, a, b);
    AnsweredIgnores(clock, tb, rest, b, a);
    assert Answered(clock, rest, a) == Answered(clock, rest, b);
    assert Receive(clock, ta, b) == Receive(clock, tb, a);
  }

  // A server row in the table is never a candidate.
  lemma AnsweredIgnores(clock: Clock, with: Table, rest: Table, row: Entry, other: Entry)
    requires !Pending(row) && row.id !in rest && with == rest[row.id := row]
    ensures Answered(clock, with, other) == Answered(clock, rest, other)
  {
    assert forall id :: id in with && Answers(other, with[id]) <==> id in rest && Answers(other, rest[id]);
  }

  // A row that the table has just received changes nothing when it arrives again.
  lemma ReceiveTwice(clock: Clock, table: Table, row: Entry)
    requires Unclaimed(table, row)
    ensures Receive(clock, Receive(clock, table, row), row) == Receive(clock, table, row)
  {
    var once := Receive(clock, table, row);
    assert row.id in once && MergeMessage(once[row.id], row) == once[row.id];
    assert once[row.id := once[row.id]] == once;
  }

  // ---------------------------------------------------------------- orders of arrival

  ghost predicate AllUnclaimed(table: Table, rows: seq<Entry>) {
    forall r :: r in rows ==> Unclaimed(table, r)
  }

  lemma UnclaimedAfterFirst(clock: Clock, table: Table, first: Entry, rest: seq<Entry>)
    requires clock.Lawful() && Keyed(table)
    requires Unclaimed(table, first) && AllUnclaimed(table, rest)
    ensures Keyed(Receive(clock, table, first)) && AllUnclaimed(Receive(clock, table, first), rest)
    ensures forall r :: r in rest ==> (r.id in Receive(clock, table, first) <==> r.id in table || r.id == first.id)
  {
    forall r | r in rest
      ensures Unclaimed(Receive(clock, table, first), r)
      ensures r.id in Receive(clock, table, first) <==> r.id in table || r.id == first.id
    {
      if r.id != first.id { ReceiveKeepsUnclaimed(clock, table, first, r); }
    }
  }

  // The versions of one row in the order in which they arrive; a version that arrives again
  // right after itself, as the echo of an HTTP response does, counts once.
  function Versions(rows: seq<Entry>, id: string): seq<Entry> {
    if rows == [] then []
    else
      var rest := Versions(rows[1..], id);
      if rows[0].id != id || (rest != [] && rest[0] == rows[0]) then rest else [rows[0]] + rest
  }

  // The two deliveries bring the same versions of every row, each row's own in the same order.
  ghost predicate SameVersions(a: seq<Entry>, b: seq<Entry>) {
    forall id :: Versions(a, id) == Versions(b, id)
  }

  lemma {:induction false} FirstVersion(rows: seq<Entry>, id: string)
    ensures var k := IndexOfId(rows, id);
      if k < |rows| then rows[k] in rows && Versions(rows, id) != [] && Versions(rows, id)[0] == rows[k]
      else Versions(rows, id) == []
  {
    if rows != [] && rows[0].id != id { FirstVersion(rows[1..], id); }
  }

  // Taking out the first row of an id leaves the versions of all other rows.
  lemma {:induction false} VersionsWithout(before: seq<Entry>, row: Entry, after: seq<Entry>, id: string)
    requires forall r :: r in before ==> r.id != row.id
    ensures Versions(before + [row] + after, id)
         == if id == row.id then Versions([row] + (before + after), id) else Versions(before + after, id)
  {
    if before == [] {
      assert before + [row] + after == [row] + after && before + after == after;
      assert ([row] + after)[1..] == after;
    } else {
      var first, rest := before[0], before[1..];
      assert first in before;
      assert before + [row] + after == [first] + (rest + [row] + after);
      assert before + after == [first] + (rest + after);
      VersionsWithout(rest, row, after, id);
      VersionsOfCons(first, rest + [row] + after, id);
      VersionsOfCons(first, rest + after, id);
      VersionsOfCons(row, rest + after, id);
      VersionsOfCons(row, before + after, id);
    }
  }

  lemma VersionsOfCons(first: Entry, rest: seq<Entry>, id: string)
    ensures Versions([first] + rest, id)
         == var tail := Versions(rest, id);
            if first.id != id || (tail != [] && tail[0] == first) then tail else [first] + tail
  {
    assert ([first] + rest)[1..] == rest;
  }

  // The first row of its id may be received before the rows that precede it.
  lemma {:induction false} ReceiveFirst(clock: Clock, table: Table, before: seq<Entry>, row: Entry, after: seq<Entry>)
    requires clock.Lawful() && Keyed(table)
    requires AllUnclaimed(table, before + [row] + after) && forall r :: r in before ==> r.id != row.id
    ensures ReceiveAll(clock, table, before + [row] + after)
         == ReceiveAll(clock, Receive(clock, table, row), before + after)
    decreases |before|
  {
    var rows := before + [row] + after;
    if before == [] {
      assert rows[0] == row && rows[1..] == after;
      assert before + after == after;
    } else {
      var first, rest := before[0], before[1..];
      assert rows[0] == first && rows[1..] == rest + [row] + after;
      assert (before + after)[0] == first && (before + after)[1..] == rest + after;
      assert first in before && rows[|before|] == row && first in rows && row in rows;
      ReceiveCommutes(clock, table, first, row);
      assert AllUnclaimed(table, rows[1..]);
      UnclaimedAfterFirst(clock, table, first, rest + [row] + after);
      ReceiveFirst(clock, Receive(clock, table, first), rest, row, after);
    }
  }

  lemma ReceiveCons(clock: Clock, table: Table, row: Entry, rest: seq<Entry>)
    ensures ReceiveAll(clock, table, [row] + rest) == ReceiveAll(clock, Receive(clock, table, row), rest)
  {
    assert ([row] + rest)[1..] == rest;
  }

  // A row just received may be received once more.
  lemma ReceiveAgain(clock: Clock, table: Table, row: Entry, rest: seq<Entry>)
    requires Unclaimed(table, row)
    ensures ReceiveAll(clock, Receive(clock, table, row), [row] + rest)
         == ReceiveAll(clock, Receive(clock, table, row), rest)
  {
    ReceiveTwice(clock, table, row);
    ReceiveCons(clock, Receive(clock, table, row), row, rest);
  }

  // What stands around the first row with the id of `x`, which is `x` itself.
  lemma SplitAtFirst(b: seq<Entry>, x: Entry) returns (before: seq<Entry>, after: seq<Entry>)
    requires Versions(b, x.id) != [] && Versions(b, x.id)[0] == x
    ensures b == before + [x] + after && forall r :: r in before ==> r.id != x.id
  {
    FirstVersion(b, x.id);
    var k := IndexOfId(b, x.id);
    before, after := b[..k], b[k + 1..];
  }

  lemma {:induction false} SameVersionsSameTable(clock: Clock, table: Table, a: seq<Entry>, b: seq<Entry>)
    requires clock.Lawful() && Keyed(table)
    requires AllUnclaimed(table, a) && AllUnclaimed(table, b) && SameVersions(a, b)
    ensures ReceiveAll(clock, table, a) == ReceiveAll(clock, table, b)
    decreases |a| + |b|
  {
    if b != [] { FirstVersion(b, b[0].id); }
    if a != [] {
      var x, rest := a[0], a[1..];
      FirstVersion(a, x.id);
      assert Versions(a, x.id) == Versions(b, x.id);
      var before, after := SplitAtFirst(b, x);
      var others := before + after;
      assert a == [x] + rest && x in a;
      ReceiveFirst(clock, table, before, x, after);
      UnclaimedAfterFirst(clock, table, x, a);
      UnclaimedAfterFirst(clock, table, x, [x] + others);
      ReceiveAgain(clock, table, x, rest);
      ReceiveAgain(clock, table, x, others);
      var next := Receive(clock, table, x);
      var u, v := Versions(rest, x.id), Versions(others, x.id);
      VersionsAfterFirst(rest, before, x, after);
      if u == v {
        SameVersionsSameTable(clock, next, rest, others);
      } else if v == [] || v[0] != x {
        SameVersionsSameTable(clock, next, rest, [x] + others);
      } else {
        SameVersionsSameTable(clock, next, a, others);
      }
    }
  }

  // After the same first row, two deliveries differ at most in whether they repeat it.
  lemma VersionsAfterFirst(rest: seq<Entry>, before: seq<Entry>, x: Entry, after: seq<Entry>)
    requires SameVersions([x] + rest, before + [x] + after) && forall r :: r in before ==> r.id != x.id
    ensures var others := before + after;
      var u, v := Versions(rest, x.id), Versions(others, x.id);
      if u == v then SameVersions(rest, others)
      else if v == [] || v[0] != x then SameVersions(rest, [x] + others)
      else SameVersions([x] + rest, others)
  {
    var others := before + after;
    forall id
      ensures Versions([x] + rest, id) == Versions([x] + others, id)
      ensures id != x.id ==> Versions(rest, id) == Versions(others, id)
      ensures id != x.id ==> Versions([x] + others, id) == Versions(others, id)
    {
      assert Versions([x] + rest, id) == Versions(before + [x] + after, id);
      VersionsWithout(before, x, after, id);
      VersionsOfCons(x, rest, id);
      VersionsOfCons(x, others, id);
    }
    VersionsOfCons(x, rest, x.id);
    VersionsOfCons(x, others, x.id);
  }

  // ---------------------------------------------------------------- lists refine tables

  ghost predicate PlaceholdersInOrder(clock: Clock, list: seq<Entry>) {
    forall i, j :: 0 <= i < j < |list| && Pending(list[i]) && Pending(list[j]) ==> clock.Le(list[i], list[j])
  }

  // The first matching placeholder of the list is the one the row answers.
  lemma AnsweredIsFirst(clock: Clock, list: seq<Entry>, row: Entry)
    requires clock.Lawful() && UniqueIds(list) && PlaceholdersInOrder(clock, list)
    ensures var k := IndexOfPlaceholder(list, row);
      Answered(clock, Index(list), row) == if k < |list| then {list[k].id} else {}
  {
    var k, table := IndexOfPlaceholder(list, row), Index(list);
    forall other | other in table && Answers(row, table[other])
      ensures k < |list| && clock.Le(list[k], table[other])
    {
      var j :| 0 <= j < |list| && list[j] == table[other];
      LeIsTotal(clock, list[j], list[j]);
    }
    if k < |list| {
      var id := list[k].id;
      assert list[k] in list && table[id] == list[k];
      forall other | other in Answered(clock, table, row) ensures other == id {
        AnsweredIsUnique(clock, table, row, id, other);
      }
    }
  }

  lemma AbsorbKeepsPlaceholderOrder(clock: Clock, list: seq<Entry>, row: Entry)
    requires PlaceholdersInOrder(clock, list) && !Pending(row)
    requires forall e :: e in list && e.id == row.id ==> !Pending(e)
    ensures PlaceholdersInOrder(clock, Absorb(list, row))
  {
    AbsorbShape(list, row);
    var next, k := Absorb(list, row), TurnIndex(list, row);
    assert k < |list| ==> list[k] in list;
    assert !Pending(next[k]);
    forall i, j | 0 <= i < j < |next| && Pending(next[i]) && Pending(next[j]) ensures clock.Le(next[i], next[j]) {
      assert i != k && j != k && next[i] == list[i] && next[j] == list[j];
    }
  }

  lemma ReplacedRows(list: seq<Entry>, k: nat, e: Entry)
    requires UniqueIds(list) && k < |list| && UniqueIds(list[k := e])
    ensures forall x :: x in list[k := e] <==> x == e || (x in list && x != list[k])
    ensures forall x :: x in list && x != list[k] ==> x.id != list[k].id && x.id != e.id
  {
    var next := list[k := e];
    assert next[k] == e && e in next;
    forall x | x in list && x != list[k] ensures x in next && x.id != list[k].id && x.id != e.id {
      var j :| 0 <= j < |list| && list[j] == x;
      assert next[j] == x;
    }
    forall x | x in next && x != e ensures x in list && x != list[k] {
      var j :| 0 <= j < |next| && next[j] == x;
      assert list[j] == x && list[j].id != list[k].id;
    }
  }

  lemma IndexReplace(list: seq<Entry>, k: nat, e: Entry)
    requires UniqueIds(list) && k < |list| && UniqueIds(list[k := e])
    ensures Index(list[k := e]) == (Index(list) - {list[k].id})[e.id := e]
  {
    ReplacedRows(list, k, e);
    var next, table := list[k := e], Index(list);
    assert list[k] in list && e in next;
    forall id | id in table && id != list[k].id ensures id != e.id && id in Index(next) && Index(next)[id] == table[id] {
      assert table[id] in next;
    }
    forall id | id in Index(next) && id != e.id ensures id in table && id != list[k].id {
      assert Index(next)[id] in list;
    }
  }

  lemma IndexAppend(list: seq<Entry>, e: Entry)
    requires UniqueIds(list) && UniqueIds(list + [e])
    ensures Index(list + [e]) == Index(list)[e.id := e]
  {
    assert (list + [e])[|list|] == e;
  }

  lemma AbsorbRefinesReceive(clock: Clock, list: seq<Entry>, row: Entry)
    requires clock.Lawful() && UniqueIds(list) && PlaceholdersInOrder(clock, list)
    requires Unclaimed(Index(list), row)
    ensures UniqueIds(Absorb(list, row)) && PlaceholdersInOrder(clock, Absorb(list, row))
    ensures Index(Absorb(list, row)) == Receive(clock, Index(list), row)
  {
    AbsorbInvariants(list, row);
    AbsorbKeepsPlaceholderOrder(clock, list, row);
    IndexOfAbsorbed(list, row);
    ReceiveOnList(clock, list, row);
  }

  // The table that one turn leaves, told by positions of the list.
  ghost function TableAfter(list: seq<Entry>, row: Entry): Table
    requires UniqueIds(list)
  {
    var byId, k := IndexOfId(list, row.id), IndexOfPlaceholder(list, row);
    if byId < |list| then Index(list)[row.id := MergeMessage(list[byId], row)]
    else if k < |list| then (Index(list) - {list[k].id})[row.id := row]
    else Index(list)[row.id := row]
  }

  lemma ReceiveOnList(clock: Clock, list: seq<Entry>, row: Entry)
    requires clock.Lawful() && UniqueIds(list) && PlaceholdersInOrder(clock, list)
    ensures Receive(clock, Index(list), row) == TableAfter(list, row)
  {
    AnsweredIsFirst(clock, list, row);
    IndexFinds(list, row.id);
    assert Index(list) - {} == Index(list);
  }

  lemma IndexFinds(list: seq<Entry>, id: string)
    requires UniqueIds(list)
    ensures var k := IndexOfId(list, id);
      if k < |list| then id in Index(list) && Index(list)[id] == list[k] else id !in Index(list)
  {
    var k := IndexOfId(list, id);
    if k < |list| { assert list[k] in list; }
  }

  lemma IndexOfAbsorbed(list: seq<Entry>, row: Entry)
    requires UniqueIds(list) && UniqueIds(Absorb(list, row))
    ensures Index(Absorb(list, row)) == TableAfter(list, row)
  {
    var byId, k := IndexOfId(list, row.id), IndexOfPlaceholder(list, row);
    if byId < |list| {
      IndexReplace(list, byId, MergeMessage(list[byId], row));
      UpdateInPlace(Index(list), row.id, MergeMessage(list[byId], row));
    } else if k < |list| {
      IndexReplace(list, k, row);
    } else {
      IndexAppend(list, row);
    }
  }

  lemma UpdateInPlace(table: Table, id: string, e: Entry)
    ensures (table - {id})[id := e] == table[id := e]
  {
  }

  lemma {:induction false} AbsorbAllRefinesReceiveAll(clock: Clock, list: seq<Entry>, rows: seq<Entry>)
    requires clock.Lawful() && UniqueIds(list) && PlaceholdersInOrder(clock, list)
    requires AllUnclaimed(Index(list), rows)
    ensures UniqueIds(AbsorbAll(list, rows))
    ensures Index(AbsorbAll(list, rows)) == ReceiveAll(clock, Index(list), rows)
    decreases |rows|
  {
    if rows != [] {
      var first, rest := rows[0], rows[1..];
      assert first in rows;
      AbsorbRefinesReceive(clock, list, first);
      assert AllUnclaimed(Index(list), rest);
      UnclaimedAfterFirst(clock, Index(list), first, rest);
      AbsorbAllRefinesReceiveAll(clock, Absorb(list, first), rest);
    }
  }

  // ---------------------------------------------------------------- convergence

  // A run of deliveries: each batch is one HTTP page or one realtime echo.
  function MergeBatches(clock: Clock, list: seq<Entry>, batches: seq<seq<Entry>>): seq<Entry>
    decreases |batches|
  {
    if batches == [] then list else MergeBatches(clock, Merge(clock, list, batches[0]), batches[1..])
  }

  function Flatten(batches: seq<seq<Entry>>): seq<Entry> {
    if batches == [] then [] else batches[0] + Flatten(batches[1..])
  }

  // What a delivery starts from and leaves behind.
  ghost predicate Transcript(clock: Clock, list: seq<Entry>, stamps: set<string>) {
    UniqueIds(list) && Ordered(clock.Le, list) && Stamps(list) <= stamps
  }

  ghost predicate Delivery(list: seq<Entry>, rows: seq<Entry>)
    requires UniqueIds(list)
  {
    AllUnclaimed(Index(list), rows)
  }

  lemma {:induction false} ReceiveAllSplit(clock: Clock, table: Table, a: seq<Entry>, b: seq<Entry>)
    ensures ReceiveAll(clock, table, a + b) == ReceiveAll(clock, ReceiveAll(clock, table, a), b)
    decreases |a|
  {
    if a == [] {
      assert a + b == b;
    } else {
      assert (a + b)[0] == a[0] && (a + b)[1..] == a[1..] + b;
      ReceiveAllSplit(clock, Receive(clock, table, a[0]), a[1..], b);
    }
  }

  lemma {:induction false} UnclaimedAfterAll(clock: Clock, table: Table, a: seq<Entry>, b: seq<Entry>)
    requires clock.Lawful() && Keyed(table)
    requires AllUnclaimed(table, a) && AllUnclaimed(table, b)
    ensures Keyed(ReceiveAll(clock, table, a)) && AllUnclaimed(ReceiveAll(clock, table, a), b)
    ensures forall r :: r in b ==> (r.id in ReceiveAll(clock, table, a) <==> r.id in table || r.id in Ids(a))
    decreases |a|
  {
    if a != [] {
      var first, rest := a[0], a[1..];
      var next := Receive(clock, table, first);
      assert a == [first] + rest && first in a;
      assert AllUnclaimed(table, rest);
      UnclaimedAfterFirst(clock, table, first, rest);
      UnclaimedAfterFirst(clock, table, first, b);
      UnclaimedAfterAll(clock, next, rest, b);
      assert Ids(a) == {first.id} + Ids(rest);
    }
  }

  lemma MergeRefinesReceiveAll(clock: Clock, list: seq<Entry>, rows: seq<Entry>, stamps: set<string>)
    requires clock.Lawful() && clock.Consistent(stamps)
    requires Transcript(clock, list, stamps) && Delivery(list, rows) && Stamps(rows) <= stamps
    ensures Transcript(clock, Merge(clock, list, rows), stamps)
    ensures Index(Merge(clock, list, rows)) == ReceiveAll(clock, Index(list), rows)
  {
    assert clock.Consistent(Stamps(list) + Stamps(rows));
    MergeInvariants(clock, list, rows);
    AbsorbAllRefinesReceiveAll(clock, list, rows);
    var next := AbsorbAll(list, rows);
    if Touched(list, rows) {
      PermutedKeepsRows(next, Sort(clock.Le, next));
    } else {
      UntouchedIsSame(list, rows);
    }
  }

  lemma {:induction false} BatchesRefineReceiveAll(
    clock: Clock, list: seq<Entry>, batches: seq<seq<Entry>>, stamps: set<string>)
    requires clock.Lawful() && clock.Consistent(stamps)
    requires Transcript(clock, list, stamps)
    requires Delivery(list, Flatten(batches)) && Stamps(Flatten(batches)) <= stamps
    ensures Transcript(clock, MergeBatches(clock, list, batches), stamps)
    ensures Index(MergeBatches(clock, list, batches)) == ReceiveAll(clock, Index(list), Flatten(batches))
    decreases |batches|
  {
    if batches != [] {
      var first, rest := batches[0], Flatten(batches[1..]);
      DeliverySplits(clock, list, first, rest, stamps);
      ReceiveAllSplit(clock, Index(list), first, rest);
      BatchesRefineReceiveAll(clock, Merge(clock, list, first), batches[1..], stamps);
    }
  }

  lemma SameTableSameTranscript(clock: Clock, a: seq<Entry>, b: seq<Entry>)
    requires clock.Lawful()
    requires UniqueIds(a) && UniqueIds(b) && Ordered(clock.Le, a) && Ordered(clock.Le, b)
    requires Index(a) == Index(b)
    ensures a == b
  {
    forall x ensures x in a <==> x in b {
      assert x in a <==> x.id in Index(a) && Index(a)[x.id] == x;
      assert x in b <==> x.id in Index(b) && Index(b)[x.id] == x;
    }
    forall x, y | x in a && y in a && clock.Le(x, y) && clock.Le(y, x) ensures x == y {
      LeIsTotal(clock, x, y);
    }
    assert AntisymmetricOn(clock.Le, a);
    OrderedArrangementIsUnique(clock.Le, a, b);
  }

  // Two deliveries that bring the same versions of every server row end in the same list: in
  // whatever order rows arrive, however they are split into batches, and however often a version
  // is repeated before the next one of its row.
  lemma Convergence(clock: Clock, start: seq<Entry>, left: seq<seq<Entry>>, right: seq<seq<Entry>>)
    requires clock.Lawful() && UniqueIds(start) && Ordered(clock.Le, start)
    requires SameVersions(Flatten(left), Flatten(right))
    requires clock.Consistent(Stamps(start) + Stamps(Flatten(left)))
    requires Delivery(start, Flatten(left))
    ensures MergeBatches(clock, start, left) == MergeBatches(clock, start, right)
  {
    var stamps := Stamps(start) + Stamps(Flatten(left));
    SameVersionsSameRows(Flatten(left), Flatten(right));
    BatchesRefineReceiveAll(clock, start, left, stamps);
    BatchesRefineReceiveAll(clock, start, right, stamps);
    SameVersionsSameTable(clock, Index(start), Flatten(left), Flatten(right));
    SameTableSameTranscript(clock, MergeBatches(clock, start, left), MergeBatches(clock, start, right));
  }

  // The versions of one row do have to arrive in the same order: the last one stays.
  lemma VersionOrderMatters(clock: Clock, v: Entry, w: Entry)
    requires !Pending(v) && !Pending(w) && v.id == w.id && v.(optimistic := w.optimistic) != w
    ensures var result := MergeBatches(clock, [], [[v], [w]]);
      && |result| == 1 && result[0].id == w.id && result[0].request == w.request
      && result[0].createdAt == w.createdAt && result[0].updatedAt == w.updatedAt
    ensures MergeBatches(clock, [], [[v], [w]]) != MergeBatches(clock, [], [[w], [v]])
  {
    LastVersionStays(clock, v, w);
    LastVersionStays(clock, w, v);
    assert Spread(v, w).(optimistic := w.optimistic) == w && Spread(w, v).(optimistic := v.optimistic) == v;
  }

  lemma LastVersionStays(clock: Clock, v: Entry, w: Entry)
    requires !Pending(v) && !Pending(w) && v.id == w.id
    ensures MergeBatches(clock, [], [[v], [w]]) == [Spread(v, w)]
  {
    assert [[v], [w]][1..] == [[w]] && [[w]][1..] == [] && [v][1..] == [] && [w][1..] == [];
    assert Absorb([], v) == [v] && Absorb([v], w) == [Spread(v, w)];
    assert AbsorbAll([], [v]) == AbsorbAll([v], []) && AbsorbAll([v], [w]) == AbsorbAll([Spread(v, w)], []);
    assert Merge(clock, [], [v]) == [v];
    assert Merge(clock, [v], [w]) == [Spread(v, w)];
    assert MergeBatches(clock, [], [[v], [w]]) == MergeBatches(clock, [v], [[w]]);
    assert MergeBatches(clock, [v], [[w]]) == MergeBatches(clock, [Spread(v, w)], []);
  }

  lemma {:induction false} VersionsAre(rows: seq<Entry>, id: string)
    ensures forall r :: r in Versions(rows, id) <==> r in rows && r.id == id
  {
    if rows != [] {
      assert rows == [rows[0]] + rows[1..];
      VersionsAre(rows[1..], id);
    }
  }

  lemma SameVersionsSameRows(a: seq<Entry>, b: seq<Entry>)
    requires SameVersions(a, b)
    ensures forall r :: r in a <==> r in b
  {
    forall r ensures r in a <==> r in b {
      VersionsAre(a, r.id);
      VersionsAre(b, r.id);
      assert Versions(a, r.id) == Versions(b, r.id);
    }
  }

  // Rows that never change: it is enough that the two deliveries hold the same rows.
  ghost predicate NeverChange(rows: seq<Entry>) {
    forall r, s :: r in rows && s in rows && r.id == s.id ==> r == s
  }

  lemma {:induction false} OneVersion(rows: seq<Entry>, row: Entry)
    requires NeverChange(rows) && row in rows
    ensures Versions(rows, row.id) == [row]
  {
    var first, rest := rows[0], rows[1..];
    assert rows == [first] + rest && first in rows;
    assert NeverChange(rest);
    if row in rest {
      OneVersion(rest, row);
    } else {
      FirstVersion(rest, row.id);
    }
  }

  lemma UnchangingRowsConverge(clock: Clock, start: seq<Entry>, left: seq<seq<Entry>>, right: seq<seq<Entry>>)
    requires clock.Lawful() && UniqueIds(start) && Ordered(clock.Le, start)
    requires NeverChange(Flatten(left)) && forall r :: r in Flatten(left) <==> r in Flatten(right)
    requires clock.Consistent(Stamps(start) + Stamps(Flatten(left)))
    requires Delivery(start, Flatten(left))
    ensures MergeBatches(clock, start, left) == MergeBatches(clock, start, right)
  {
    var a, b := Flatten(left), Flatten(right);
    forall id ensures Versions(a, id) == Versions(b, id) {
      FirstVersion(a, id);
      FirstVersion(b, id);
      var i := IndexOfId(a, id);
      if i < |a| {
        assert a[i] in a;
        OneVersion(a, a[i]);
        OneVersion(b, a[i]);
      } else {
        assert forall r :: r in a ==> r.id != id;
      }
    }
    Convergence(clock, start, left, right);
  }

  // ---------------------------------------------------------------- who is consumed

  // The pending placeholders of one request, oldest first.
  function Placeholders(list: seq<Entry>, request: Request): seq<Entry> {
    if list == [] then [] else
      var rest := Placeholders(list[1..], request);
      if Pending(list[0]) && list[0].request == request then [list[0]] + rest else rest
  }

  function DropUpTo<T>(s: seq<T>, n: nat): seq<T> {
    if n <= |s| then s[n..] else []
  }

  // Rows that bring an id for the first time, under this request.
  ghost function NewRows(known: set<string>, rows: seq<Entry>, request: Request): nat
    decreases |rows|
  {
    if rows == [] then 0 else
      var rest := NewRows(known + {rows[0].id}, rows[1..], request);
      if rows[0].request == request && rows[0].id !in known then 1 + rest else rest
  }

  lemma {:induction false} PlaceholdersSplit(a: seq<Entry>, b: seq<Entry>, request: Request)
    ensures Placeholders(a + b, request) == Placeholders(a, request) + Placeholders(b, request)
  {
    if a == [] {
      assert a + b == b;
    } else {
      assert (a + b)[0] == a[0] && (a + b)[1..] == a[1..] + b;
      PlaceholdersSplit(a[1..], b, request);
    }
  }

  lemma {:induction false} PlaceholdersAre(list: seq<Entry>, request: Request)
    ensures forall e :: e in Placeholders(list, request) <==> e in list && Pending(e) && e.request == request
  {
    if list != [] {
      PlaceholdersAre(list[1..], request);
      assert list == [list[0]] + list[1..];
    }
  }

  lemma {:induction false} PlaceholdersOrdered(clock: Clock, list: seq<Entry>, request: Request)
    requires UniqueIds(list) && PlaceholdersInOrder(clock, list)
    ensures Ordered(clock.Le, Placeholders(list, request)) && Distinct(Placeholders(list, request))
  {
    if list != [] {
      var rest := Placeholders(list[1..], request);
      PlaceholdersOrdered(clock, list[1..], request);
      PlaceholdersAre(list[1..], request);
      forall j | 0 <= j < |rest| && Pending(list[0]) ensures rest[j] != list[0] && clock.Le(list[0], rest[j]) {
        assert rest[j] in list[1..];
        var i :| 0 <= i < |list[1..]| && list[1..][i] == rest[j];
        assert list[i + 1] == rest[j];
      }
    }
  }

  lemma {:induction false} NoPlaceholders(list: seq<Entry>, request: Request)
    requires forall e :: e in list ==> !(Pending(e) && e.request == request)
    ensures Placeholders(list, request) == []
  {
    if list != [] {
      assert list[0] in list;
      NoPlaceholders(list[1..], request);
    }
  }

  lemma PlaceholdersAround(list: seq<Entry>, k: nat, e: Entry, request: Request)
    requires k < |list|
    ensures Placeholders(list[k := e], request)
         == Placeholders(list[..k], request) + Placeholders([e], request) + Placeholders(list[k + 1..], request)
  {
    assert list[k := e] == list[..k] + ([e] + list[k + 1..]);
    PlaceholdersSplit(list[..k], [e] + list[k + 1..], request);
    PlaceholdersSplit([e], list[k + 1..], request);
  }

  lemma PlaceholdersOne(e: Entry, request: Request)
    ensures Placeholders([e], request) == if Pending(e) && e.request == request then [e] else []
  {
    assert [e][1..] == [];
  }

  lemma NewRowsOne(known: set<string>, row: Entry, request: Request)
    ensures NewRows(known, [row], request) == if row.request == request && row.id !in known then 1 else 0
  {
    assert [row][1..] == [];
  }

  // Replacing one row by another.
  lemma PlaceholdersReplaced(list: seq<Entry>, k: nat, e: Entry, request: Request)
    requires k < |list|
    ensures var before, after := Placeholders(list[..k], request), Placeholders(list[k + 1..], request);
      && Placeholders(list, request) == before + Placeholders([list[k]], request) + after
      && Placeholders(list[k := e], request) == before + Placeholders([e], request) + after
  {
    PlaceholdersAround(list, k, e, request);
    PlaceholdersAround(list, k, list[k], request);
    assert list[k := list[k]] == list;
  }

  lemma MergeConsumesNone(list: seq<Entry>, k: nat, row: Entry, request: Request)
    requires k < |list| && !Pending(row) && !Pending(list[k])
    ensures Placeholders(list[k := MergeMessage(list[k], row)], request) == Placeholders(list, request)
  {
    var merged := MergeMessage(list[k], row);
    PlaceholdersReplaced(list, k, merged, request);
    PlaceholdersOne(list[k], request);
    PlaceholdersOne(merged, request);
  }

  lemma ReplacingConsumesOne(list: seq<Entry>, k: nat, row: Entry, request: Request)
    requires k < |list| && !Pending(row) && k == IndexOfPlaceholder(list, row)
    ensures Placeholders(list[k := row], request)
         == DropUpTo(Placeholders(list, request), if row.request == request then 1 else 0)
  {
    PlaceholdersReplaced(list, k, row, request);
    PlaceholdersOne(list[k], request);
    PlaceholdersOne(row, request);
    if row.request == request { NoPlaceholders(list[..k], request); }
  }

  lemma AppendingConsumesNone(list: seq<Entry>, row: Entry, request: Request)
    requires !Pending(row) && IndexOfPlaceholder(list, row) == |list|
    ensures Placeholders(list + [row], request)
         == DropUpTo(Placeholders(list, request), if row.request == request then 1 else 0)
  {
    PlaceholdersSplit(list, [row], request);
    PlaceholdersOne(row, request);
    if row.request == request { NoPlaceholders(list, request); }
  }

  lemma AbsorbConsumesFirst(list: seq<Entry>, row: Entry, request: Request)
    requires !Pending(row) && forall e :: e in list && e.id == row.id ==> !Pending(e)
    ensures Placeholders(Absorb(list, row), request)
         == DropUpTo(Placeholders(list, request), NewRows(Ids(list), [row], request))
  {
    var byId, k := IndexOfId(list, row.id), IndexOfPlaceholder(list, row);
    NewRowsOne(Ids(list), row, request);
    if byId < |list| {
      assert list[byId] in list;
      MergeConsumesNone(list, byId, row, request);
    } else {
      assert row.id !in Ids(list);
      if k < |list| {
        ReplacingConsumesOne(list, k, row, request);
      } else {
        AppendingConsumesNone(list, row, request);
      }
    }
  }

  lemma {:induction false} NewRowsDependOnIds(a: set<string>, b: set<string>, rows: seq<Entry>, request: Request)
    requires forall r :: r in rows ==> (r.id in a <==> r.id in b)
    ensures NewRows(a, rows, request) == NewRows(b, rows, request)
    decreases |rows|
  {
    if rows != [] {
      assert rows[0] in rows;
      NewRowsDependOnIds(a + {rows[0].id}, b + {rows[0].id}, rows[1..], request);
    }
  }

  lemma {:induction false} NewRowsSplit(known: set<string>, a: seq<Entry>, b: seq<Entry>, request: Request)
    ensures NewRows(known, a + b, request) == NewRows(known, a, request) + NewRows(known + Ids(a), b, request)
    decreases |a|
  {
    if a == [] {
      assert a + b == b && known + Ids(a) == known;
    } else {
      assert (a + b)[0] == a[0] && (a + b)[1..] == a[1..] + b && a == [a[0]] + a[1..];
      NewRowsSplit(known + {a[0].id}, a[1..], b, request);
      assert known + {a[0].id} + Ids(a[1..]) == known + Ids(a);
    }
  }

  lemma DeliveryAfterFirst(clock: Clock, list: seq<Entry>, rows: seq<Entry>)
    requires clock.Lawful() && UniqueIds(list) && PlaceholdersInOrder(clock, list)
    requires Delivery(list, rows) && rows != []
    ensures var next := Absorb(list, rows[0]);
      && UniqueIds(next) && PlaceholdersInOrder(clock, next)
      && Delivery(next, rows[1..])
      && (forall r :: r in rows[1..] ==> (r.id in Ids(list) + {rows[0].id} <==> r.id in Ids(next)))
  {
    var first, rest := rows[0], rows[1..];
    assert first in rows && AllUnclaimed(Index(list), rest);
    AbsorbRefinesReceive(clock, list, first);
    UnclaimedAfterFirst(clock, Index(list), first, rest);
    assert Ids(list) == Index(list).Keys;
    assert Ids(Absorb(list, first)) == Index(Absorb(list, first)).Keys;
  }

  lemma AbsorbedInTurn(list: seq<Entry>, rows: seq<Entry>, request: Request)
    requires rows != []
    requires var next, row := Absorb(list, rows[0]), rows[0];
      && Placeholders(next, request) == DropUpTo(Placeholders(list, request), NewRows(Ids(list), [row], request))
      && Placeholders(AbsorbAll(next, rows[1..]), request)
           == DropUpTo(Placeholders(next, request), NewRows(Ids(list) + {row.id}, rows[1..], request))
    ensures Placeholders(AbsorbAll(list, rows), request)
         == DropUpTo(Placeholders(list, request), NewRows(Ids(list), rows, request))
  {
    var n, m := NewRows(Ids(list), [rows[0]], request), NewRows(Ids(list) + {rows[0].id}, rows[1..], request);
    NewRowsOne(Ids(list), rows[0], request);
    DropTwice(Placeholders(list, request), n, m);
  }

  lemma {:induction false} AbsorbAllConsumesFirst(clock: Clock, list: seq<Entry>, rows: seq<Entry>, request: Request)
    requires clock.Lawful() && UniqueIds(list) && PlaceholdersInOrder(clock, list)
    requires Delivery(list, rows)
    ensures PlaceholdersInOrder(clock, AbsorbAll(list, rows))
    ensures Placeholders(AbsorbAll(list, rows), request)
         == DropUpTo(Placeholders(list, request), NewRows(Ids(list), rows, request))
    decreases |rows|
  {
    if rows != [] {
      assert rows[0] in rows;
      DeliveryAfterFirst(clock, list, rows);
      AbsorbConsumesFirst(list, rows[0], request);
      NewRowsDependOnIds(Ids(list) + {rows[0].id}, Ids(Absorb(list, rows[0])), rows[1..], request);
      AbsorbAllConsumesFirst(clock, Absorb(list, rows[0]), rows[1..], request);
      AbsorbedInTurn(list, rows, request);
    }
  }

  lemma SortKeepsPlaceholders(clock: Clock, list: seq<Entry>, request: Request)
    requires clock.Lawful() && UniqueIds(list) && PlaceholdersInOrder(clock, list)
    requires Ordered(clock.Le, Sort(clock.Le, list))
    ensures Placeholders(Sort(clock.Le, list), request) == Placeholders(list, request)
  {
    var sorted := Sort(clock.Le, list);
    PermutedKeepsRows(list, sorted);
    PlaceholdersAre(list, request);
    PlaceholdersAre(sorted, request);
    PlaceholdersOrdered(clock, list, request);
    PlaceholdersOrdered(clock, sorted, request);
    var a := Placeholders(sorted, request);
    forall x, y | x in a && y in a && clock.Le(x, y) && clock.Le(y, x) ensures x == y {
      LeIsTotal(clock, x, y);
    }
    assert AntisymmetricOn(clock.Le, a);
    OrderedArrangementIsUnique(clock.Le, a, Placeholders(list, request));
  }

  lemma MergeConsumesFirst(clock: Clock, list: seq<Entry>, rows: seq<Entry>, request: Request)
    requires clock.Lawful() && clock.Consistent(Stamps(list) + Stamps(rows))
    requires UniqueIds(list) && Ordered(clock.Le, list) && Delivery(list, rows)
    ensures Placeholders(Merge(clock, list, rows), request)
         == DropUpTo(Placeholders(list, request), NewRows(Ids(list), rows, request))
  {
    AbsorbAllConsumesFirst(clock, list, rows, request);
    AbsorbAllInvariants(list, rows);
    MergeInvariants(clock, list, rows);
    if Touched(list, rows) {
      SortKeepsPlaceholders(clock, AbsorbAll(list, rows), request);
    } else {
      UntouchedIsSame(list, rows);
    }
  }

  lemma ConsistentSubset(clock: Clock, part: set<string>, all: set<string>)
    requires clock.Consistent(all) && part <= all
    ensures clock.Consistent(part)
  {
  }

  lemma DropTwice<T>(s: seq<T>, n: nat, m: nat)
    ensures DropUpTo(DropUpTo(s, n), m) == DropUpTo(s, n + m)
  {
  }

  // One batch takes the oldest placeholders for its new rows and leaves the others to the rest.
  lemma FirstBatchConsumes(
    clock: Clock, list: seq<Entry>, first: seq<Entry>, rest: seq<Entry>, request: Request, stamps: set<string>)
    requires clock.Lawful() && clock.Consistent(stamps) && Transcript(clock, list, stamps)
    requires Delivery(list, first + rest) && Stamps(first + rest) <= stamps
    ensures var next := Merge(clock, list, first);
      && Transcript(clock, next, stamps) && Delivery(next, rest) && Stamps(rest) <= stamps
      && Placeholders(next, request) == DropUpTo(Placeholders(list, request), NewRows(Ids(list), first, request))
      && NewRows(Ids(list), first + rest, request)
           == NewRows(Ids(list), first, request) + NewRows(Ids(next), rest, request)
  {
    DeliverySplits(clock, list, first, rest, stamps);
    ConsistentSubset(clock, Stamps(list) + Stamps(first), stamps);
    MergeConsumesFirst(clock, list, first, request);
    NewRowsDependOnIds(Ids(list) + Ids(first), Ids(Merge(clock, list, first)), rest, request);
    NewRowsSplit(Ids(list), first, rest, request);
  }

  // What the first batch and the others take adds up.
  lemma ConsumedInTurn(clock: Clock, list: seq<Entry>, batches: seq<seq<Entry>>, request: Request, n: nat, m: nat)
    requires batches != []
    requires var next := Merge(clock, list, batches[0]);
      && Placeholders(next, request) == DropUpTo(Placeholders(list, request), n)
      && Placeholders(MergeBatches(clock, next, batches[1..]), request) == DropUpTo(Placeholders(next, request), m)
    ensures Placeholders(MergeBatches(clock, list, batches), request) == DropUpTo(Placeholders(list, request), n + m)
  {
    DropTwice(Placeholders(list, request), n, m);
  }

  lemma {:induction false} BatchesConsumeOldest(
    clock: Clock, list: seq<Entry>, batches: seq<seq<Entry>>, request: Request, stamps: set<string>)
    requires clock.Lawful() && clock.Consistent(stamps) && Transcript(clock, list, stamps)
    requires Delivery(list, Flatten(batches)) && Stamps(Flatten(batches)) <= stamps
    ensures Placeholders(MergeBatches(clock, list, batches), request)
         == DropUpTo(Placeholders(list, request), NewRows(Ids(list), Flatten(batches), request))
    decreases |batches|
  {
    if batches != [] {
      var first, rest := batches[0], Flatten(batches[1..]);
      FirstBatchConsumes(clock, list, first, rest, request, stamps);
      var next := Merge(clock, list, first);
      BatchesConsumeOldest(clock, next, batches[1..], request, stamps);
      ConsumedInTurn(clock, list, batches, request,
        NewRows(Ids(list), first, request), NewRows(Ids(next), rest, request));
    }
  }

  // Over any run of deliveries a request loses its oldest placeholders, one for each row
  // that brings a new id under that request, until none is left.
  lemma DeliveriesConsumeOldest(clock: Clock, list: seq<Entry>, batches: seq<seq<Entry>>, request: Request)
    requires clock.Lawful() && clock.Consistent(Stamps(list) + Stamps(Flatten(batches)))
    requires UniqueIds(list) && Ordered(clock.Le, list) && Delivery(list, Flatten(batches))
    ensures Placeholders(MergeBatches(clock, list, batches), request)
         == DropUpTo(Placeholders(list, request), NewRows(Ids(list), Flatten(batches), request))
  {
    BatchesConsumeOldest(clock, list, batches, request, Stamps(list) + Stamps(Flatten(batches)));
  }

  // The first batch of a delivery leaves the rest of it deliverable.
  lemma DeliverySplits(clock: Clock, list: seq<Entry>, first: seq<Entry>, rest: seq<Entry>, stamps: set<string>)
    requires clock.Lawful() && clock.Consistent(stamps)
    requires Transcript(clock, list, stamps)
    requires Delivery(list, first + rest) && Stamps(first + rest) <= stamps
    ensures Delivery(list, first) && Stamps(first) <= stamps && Stamps(rest) <= stamps
    ensures Transcript(clock, Merge(clock, list, first), stamps)
    ensures Delivery(Merge(clock, list, first), rest)
    ensures Index(Merge(clock, list, first)) == ReceiveAll(clock, Index(list), first)
    ensures forall r :: r in rest ==> (r.id in Ids(list) + Ids(first) <==> r.id in Ids(Merge(clock, list, first)))
  {
    var rows := first + rest;
    assert forall r :: r in first || r in rest ==> r in rows;
    MergeRefinesReceiveAll(clock, list, first, stamps);
    UnclaimedAfterAll(clock, Index(list), first, rest);
    assert Ids(list) == Index(list).Keys;
    assert Ids(Merge(clock, list, first)) == Index(Merge(clock, list, first)).Keys;
  }
}
