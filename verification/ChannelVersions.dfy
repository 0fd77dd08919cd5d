// What a merged transcript holds, field by field, and in which order: every row is the last
// version of it that arrived.
module ChannelVersions {
  import opened Options
  import opened StableSort
  import opened ChannelCache
  import opened ChannelConvergence

  // All rows with one id, in the order in which they arrived.
  function VersionsOf(rows: seq<Entry>, id: string): seq<Entry> {
    if rows == [] then []
    else
      var before, last := VersionsOf(rows[..|rows| - 1], id), rows[|rows| - 1];
      if last.id == id then before + [last] else before
  }

  predicate FromServer(e: Entry) { e.optimistic != Some(true) }

  predicate SameContent(a: Entry, b: Entry) {
    a.id == b.id && a.request == b.request && a.createdAt == b.createdAt && a.updatedAt == b.updatedAt
  }

  ghost predicate AnyFromServer(versions: seq<Entry>) {
    exists v :: v in versions && FromServer(v)
  }

  ghost predicate AnySettled(versions: seq<Entry>) {
    exists v :: v in versions && v.optimistic == Some(false)
  }

  // The last version that counts: the last one from the server, or the last one when all are
  // placeholders.
  ghost predicate IsLast(versions: seq<Entry>, j: nat)
    requires j < |versions|
  {
    if AnyFromServer(versions) then
      FromServer(versions[j]) && forall l :: j < l < |versions| ==> !FromServer(versions[l])
    else j == |versions| - 1
  }

  // The row has the content of that version. It is pending only if all versions are, and a
  // flag that the server supplied once stays.
  ghost predicate ShowsLast(row: Entry, versions: seq<Entry>) {
    && (exists j :: 0 <= j < |versions| && IsLast(versions, j) && SameContent(row, versions[j]))
    && row.optimistic ==
         if !AnyFromServer(versions) then Some(true)
         else if AnySettled(versions) then Some(false)
         else None
  }

  // `seen` are all rows that arrived so far, those of the first transcript included.
  ghost predicate ShowsAll(list: seq<Entry>, seen: seq<Entry>) {
    && UniqueIds(list)
    && (forall e :: e in list ==> ShowsLast(e, VersionsOf(seen, e.id)))
    && (forall v :: v in seen && FromServer(v) ==> v.id in Ids(list))
  }

  // ---------------------------------------------------------------- one version more

  lemma {:induction false} VersionsAre(rows: seq<Entry>, id: string)
    ensures forall v :: v in VersionsOf(rows, id) <==> v in rows && v.id == id
  {
    if rows != [] {
      assert rows == rows[..|rows| - 1] + [rows[|rows| - 1]];
      VersionsAre(rows[..|rows| - 1], id);
    }
  }

  lemma VersionsGrow(rows: seq<Entry>, row: Entry, id: string)
    ensures VersionsOf(rows + [row], id) == if row.id == id then VersionsOf(rows, id) + [row] else VersionsOf(rows, id)
  {
    assert (rows + [row])[..|rows|] == rows;
  }

  // A placeholder that arrives after a server version leaves the last one what it was.
  lemma LastOfMore(versions: seq<Entry>, row: Entry)
    ensures var more := versions + [row];
      && AnyFromServer(more) == (AnyFromServer(versions) || FromServer(row))
      && AnySettled(more) == (AnySettled(versions) || row.optimistic == Some(false))
      && (AnySettled(versions) ==> AnyFromServer(versions))
      && (FromServer(row) || !AnyFromServer(versions) ==> IsLast(more, |versions|))
      && (!FromServer(row) && AnyFromServer(versions) ==>
            forall j :: 0 <= j < |versions| && IsLast(versions, j) ==> IsLast(more, j))
  {
    var more := versions + [row];
    assert more[|versions|] == row && forall v :: v in more <==> v in versions || v == row;
    assert row in more;
    assert forall j :: 0 <= j < |versions| ==> more[j] == versions[j];
  }

  lemma ThreeFlags(flag: Option<bool>)
    ensures flag == None || flag == Some(true) || flag == Some(false)
  {
    if flag.Some? { assert flag.value == true || flag.value == false; }
  }

  lemma NewRowShows(versions: seq<Entry>, row: Entry)
    requires !AnyFromServer(versions)
    ensures ShowsLast(row, versions + [row])
  {
    LastOfMore(versions, row);
    ThreeFlags(row.optimistic);
    var more := versions + [row];
    assert more[|versions|] == row && SameContent(row, more[|versions|]);
  }

  // The flag of a merged row.
  lemma MergedFlag(existing: Entry, versions: seq<Entry>, row: Entry)
    requires existing.optimistic ==
      if !AnyFromServer(versions) then Some(true) else if AnySettled(versions) then Some(false) else None
    ensures MergeMessage(existing, row).optimistic ==
      if !AnyFromServer(versions) && !FromServer(row) then Some(true)
      else if AnySettled(versions) || row.optimistic == Some(false) then Some(false)
      else None
  {
    ThreeFlags(row.optimistic);
    assert AnySettled(versions) ==> AnyFromServer(versions);
  }

  lemma MergedContent(existing: Entry, row: Entry)
    requires existing.id == row.id
    ensures SameContent(MergeMessage(existing, row),
                        if FromServer(row) || !FromServer(existing) then row else existing)
  {
  }

  lemma MergedRowShows(existing: Entry, versions: seq<Entry>, row: Entry)
    requires ShowsLast(existing, versions) && existing.id == row.id
    ensures ShowsLast(MergeMessage(existing, row), versions + [row])
  {
    LastOfMore(versions, row);
    MergedFlag(existing, versions, row);
    MergedContent(existing, row);
    var more, merged := versions + [row], MergeMessage(existing, row);
    if FromServer(row) || !AnyFromServer(versions) {
      assert IsLast(more, |versions|) && SameContent(merged, more[|versions|]);
    } else {
      var k :| 0 <= k < |versions| && IsLast(versions, k) && SameContent(existing, versions[k]);
      assert more[k] == versions[k] && IsLast(more, k) && SameContent(merged, more[k]);
    }
  }

  lemma AbsorbShows(list: seq<Entry>, seen: seq<Entry>, row: Entry)
    requires ShowsAll(list, seen)
    ensures ShowsAll(Absorb(list, row), seen + [row])
  {
    var next, k := Absorb(list, row), TurnIndex(list, row);
    AbsorbShape(list, row);
    AbsorbInvariants(list, row);
    forall e | e in next ensures ShowsLast(e, VersionsOf(seen + [row], e.id)) {
      var j :| 0 <= j < |next| && next[j] == e;
      VersionsGrow(seen, row, e.id);
      if j == k { TurnShows(list, seen, row); } else { OtherShows(list, seen, row, j); }
    }
    forall v | v in seen + [row] && FromServer(v) ensures v.id in Ids(next) {
      ServerRowStays(list, seen, row, v);
    }
  }

  lemma TurnShows(list: seq<Entry>, seen: seq<Entry>, row: Entry)
    requires ShowsAll(list, seen)
    ensures var k := TurnIndex(list, row);
      k < |Absorb(list, row)| && ShowsLast(Absorb(list, row)[k], VersionsOf(seen, row.id) + [row])
  {
    var byId := IndexOfId(list, row.id);
    if byId < |list| {
      assert list[byId] in list;
      MergedRowShows(list[byId], VersionsOf(seen, row.id), row);
    } else {
      VersionsAre(seen, row.id);
      NewRowShows(VersionsOf(seen, row.id), row);
    }
  }

  lemma OtherShows(list: seq<Entry>, seen: seq<Entry>, row: Entry, j: nat)
    requires ShowsAll(list, seen) && j < |Absorb(list, row)| && j != TurnIndex(list, row)
    ensures var e := Absorb(list, row)[j];
      e.id != row.id && ShowsLast(e, VersionsOf(seen, e.id))
  {
    AbsorbShape(list, row);
    AbsorbInvariants(list, row);
    assert list[j] in list;
  }

  lemma ServerRowStays(list: seq<Entry>, seen: seq<Entry>, row: Entry, v: Entry)
    requires ShowsAll(list, seen) && v in seen + [row] && FromServer(v)
    ensures v.id in Ids(Absorb(list, row))
  {
    AbsorbShape(list, row);
    var next, k := Absorb(list, row), TurnIndex(list, row);
    assert next[k] in next;
    if v.id != row.id {
      var e :| e in list && e.id == v.id;
      VersionsAre(seen, v.id);
      assert ShowsLast(e, VersionsOf(seen, e.id)) && AnyFromServer(VersionsOf(seen, e.id));
      AbsorbServerIds(list, row);
      assert !Pending(e) && e in next;
    }
  }

  // ---------------------------------------------------------------- deliveries

  lemma {:induction false} AbsorbAllShows(list: seq<Entry>, seen: seq<Entry>, rows: seq<Entry>)
    requires ShowsAll(list, seen)
    ensures ShowsAll(AbsorbAll(list, rows), seen + rows)
    decreases |rows|
  {
    if rows == [] {
      assert seen + rows == seen;
    } else {
      AbsorbShows(list, seen, rows[0]);
      AbsorbAllShows(Absorb(list, rows[0]), seen + [rows[0]], rows[1..]);
      SeenInTurn(seen, rows);
    }
  }

  lemma SeenInTurn(seen: seq<Entry>, rows: seq<Entry>)
    requires rows != []
    ensures (seen + [rows[0]]) + rows[1..] == seen + rows
  {
  }

  lemma MergeShows(clock: Clock, list: seq<Entry>, seen: seq<Entry>, rows: seq<Entry>)
    requires ShowsAll(list, seen)
    ensures ShowsAll(Merge(clock, list, rows), seen + rows)
  {
    AbsorbAllShows(list, seen, rows);
    var next := AbsorbAll(list, rows);
    if Touched(list, rows) {
      PermutedKeepsRows(next, Sort(clock.Le, next));
    } else {
      UntouchedIsSame(list, rows);
    }
  }

  lemma FlattenInTurn(seen: seq<Entry>, batches: seq<seq<Entry>>)
    requires batches != []
    ensures (seen + batches[0]) + Flatten(batches[1..]) == seen + Flatten(batches)
  {
  }

  lemma {:induction false} BatchesShow(clock: Clock, list: seq<Entry>, seen: seq<Entry>, batches: seq<seq<Entry>>)
    requires ShowsAll(list, seen)
    ensures ShowsAll(MergeBatches(clock, list, batches), seen + Flatten(batches))
    decreases |batches|
  {
    if batches == [] {
      assert seen + Flatten(batches) == seen;
    } else {
      MergeShows(clock, list, seen, batches[0]);
      BatchesShow(clock, Merge(clock, list, batches[0]), seen + batches[0], batches[1..]);
      FlattenInTurn(seen, batches);
    }
  }

  lemma {:induction false} FirstVersions(start: seq<Entry>, n: nat)
    requires UniqueIds(start) && n <= |start|
    ensures forall i :: 0 <= i < n ==> VersionsOf(start[..n], start[i].id) == [start[i]]
    ensures forall i :: n <= i < |start| ==> VersionsOf(start[..n], start[i].id) == []
  {
    if n > 0 {
      FirstVersions(start, n - 1);
      assert start[..n] == start[..n - 1] + [start[n - 1]];
      forall i | 0 <= i < |start|
        ensures VersionsOf(start[..n], start[i].id) == if i < n then [start[i]] else []
      {
        VersionsGrow(start[..n - 1], start[n - 1], start[i].id);
      }
    }
  }

  lemma StartShows(start: seq<Entry>)
    requires UniqueIds(start)
    ensures ShowsAll(start, start)
  {
    FirstVersions(start, |start|);
    assert start[..|start|] == start;
    forall e | e in start ensures ShowsLast(e, VersionsOf(start, e.id)) {
      var i :| 0 <= i < |start| && start[i] == e;
      assert VersionsOf(start, e.id) == [] + [e];
      NewRowShows([], e);
    }
  }

  // Whatever is delivered, placeholders included: every row of the transcript is the last
  // version that arrived for its id, field by field, and no row from the server is lost.
  lemma RowsAreLastVersions(clock: Clock, start: seq<Entry>, batches: seq<seq<Entry>>)
    requires UniqueIds(start)
    ensures var result, arrived := MergeBatches(clock, start, batches), start + Flatten(batches);
      && UniqueIds(result)
      && (forall e :: e in result ==> ShowsLast(e, VersionsOf(arrived, e.id)))
      && (forall v :: v in arrived && FromServer(v) ==> v.id in Ids(result))
  {
    StartShows(start);
    BatchesShow(clock, start, start, batches);
  }

  // ---------------------------------------------------------------- the order of the transcript

  // Parsed times decide; where they are equal or one does not parse, the timestamps collate;
  // rows with the same timestamp stand in the order of their ids.
  ghost predicate InOrder(clock: Clock, list: seq<Entry>) {
    forall i, j :: 0 <= i < |list| && 0 <= j < |list| ==>
      var s, t := list[i].createdAt, list[j].createdAt;
      var m, n := clock.parse(s), clock.parse(t);
      && (m.Some? && n.Some? && m.value < n.value ==> i < j)
      && ((m.None? || n.None? || m.value == n.value) && clock.collate(s, t) < 0 ==> i < j)
      && (s == t && clock.collate(list[i].id, list[j].id) < 0 ==> i < j)
  }

  lemma OrderedIsInOrder(clock: Clock, list: seq<Entry>)
    requires clock.Lawful() && Ordered(clock.Le, list)
    ensures InOrder(clock, list)
  {
    forall i, j | 0 <= i < |list| && 0 <= j < |list| && !(i < j)
      ensures var s, t := list[i].createdAt, list[j].createdAt;
        var m, n := clock.parse(s), clock.parse(t);
        && !(m.Some? && n.Some? && m.value < n.value)
        && !((m.None? || n.None? || m.value == n.value) && clock.collate(s, t) < 0)
        && !(s == t && clock.collate(list[i].id, list[j].id) < 0)
    {
      LeIsTotal(clock, list[i], list[i]);
      assert clock.Le(list[j], list[i]);
      assert clock.collate(list[i].createdAt, list[j].createdAt) < 0
        <==> clock.collate(list[j].createdAt, list[i].createdAt) > 0;
      assert clock.collate(list[i].id, list[j].id) < 0 <==> clock.collate(list[j].id, list[i].id) > 0;
    }
  }

  lemma InOrderIsOrdered(clock: Clock, list: seq<Entry>)
    requires clock.Lawful() && InOrder(clock, list)
    ensures Ordered(clock.Le, list)
  {
    forall i, j | 0 <= i < j < |list| ensures clock.Le(list[i], list[j]) {
      assert !(j < i);
      assert clock.collate(list[j].createdAt, list[i].createdAt) < 0
        <==> clock.collate(list[i].createdAt, list[j].createdAt) > 0;
      assert clock.collate(list[j].id, list[i].id) < 0 <==> clock.collate(list[i].id, list[j].id) > 0;
    }
  }

  lemma {:induction false} BatchesKeepOrder(
    clock: Clock, list: seq<Entry>, batches: seq<seq<Entry>>, stamps: set<string>)
    requires clock.Lawful() && clock.Consistent(stamps) && Transcript(clock, list, stamps)
    requires Stamps(Flatten(batches)) <= stamps
    ensures Transcript(clock, MergeBatches(clock, list, batches), stamps)
    decreases |batches|
  {
    if batches != [] {
      var first, rest := batches[0], Flatten(batches[1..]);
      assert forall e :: e in first || e in rest ==> e in first + rest;
      ConsistentSubset(clock, Stamps(list) + Stamps(first), stamps);
      MergeInvariants(clock, list, first);
      BatchesKeepOrder(clock, Merge(clock, list, first), batches[1..], stamps);
    }
  }

  lemma TranscriptInOrder(clock: Clock, start: seq<Entry>, batches: seq<seq<Entry>>)
    requires clock.Lawful() && clock.Consistent(Stamps(start) + Stamps(Flatten(batches)))
    requires UniqueIds(start) && InOrder(clock, start)
    ensures InOrder(clock, MergeBatches(clock, start, batches))
  {
    InOrderIsOrdered(clock, start);
    BatchesKeepOrder(clock, start, batches, Stamps(start) + Stamps(Flatten(batches)));
    OrderedIsInOrder(clock, MergeBatches(clock, start, batches));
  }
}
