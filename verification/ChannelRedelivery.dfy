// Delivering the same batch again. The first delivery may consume a placeholder that the
// batch itself brought; the second one then brings it back, and the transcript changes again.
module ChannelRedelivery {
  import opened StableSort
  import opened ChannelCache

  // The row is present and another copy of it would change nothing.
  ghost predicate Settled(list: seq<Entry>, message: Entry) {
    exists e :: e in list && e.id == message.id && MergeMessage(e, message) == e
  }

  lemma AbsorbSettles(list: seq<Entry>, message: Entry)
    ensures Settled(Absorb(list, message), message)
  {
    AbsorbShape(list, message);
    assert Absorb(list, message)[TurnIndex(list, message)] in Absorb(list, message);
  }

  lemma AbsorbSettledIsNoOp(list: seq<Entry>, message: Entry)
    requires UniqueIds(list) && Settled(list, message)
    ensures Absorb(list, message) == list
  {
    var k := IndexOfId(list, message.id);
    var e :| e in list && e.id == message.id && MergeMessage(e, message) == e;
    assert k < |list| && list[k] == e;
  }

  lemma {:induction false} SettledBatchIsUntouched(list: seq<Entry>, incoming: seq<Entry>)
    requires UniqueIds(list)
    requires forall m :: m in incoming ==> Settled(list, m)
    ensures !Touched(list, incoming)
    decreases |incoming|
  {
    if incoming != [] {
      assert incoming[0] in incoming;
      AbsorbSettledIsNoOp(list, incoming[0]);
      SettledBatchIsUntouched(list, incoming[1..]);
    }
  }

  // A row of the batch that the transcript still holds afterwards is held as the batch left it.
  lemma {:induction false} SurvivorIsSettled(list: seq<Entry>, incoming: seq<Entry>, message: Entry)
    requires UniqueIds(list) && UniqueIds(incoming)
    requires message in incoming
      || (message.id !in Ids(incoming) && (message.id in Ids(list) ==> Settled(list, message)))
    requires message.id in Ids(AbsorbAll(list, incoming))
    ensures Settled(AbsorbAll(list, incoming), message)
    decreases |incoming|
  {
    if incoming != [] {
      var first, rest := incoming[0], incoming[1..];
      assert first in incoming;
      assert forall j :: 0 <= j < |rest| ==> rest[j] == incoming[j + 1];
      AbsorbInvariants(list, first);
      if first == message {
        AbsorbSettles(list, message);
      } else if message !in rest && message.id in Ids(Absorb(list, first)) {
        AbsorbKeepsRow(list, first, message);
      }
      SurvivorIsSettled(Absorb(list, first), rest, message);
    }
  }

  lemma AbsorbKeepsRow(list: seq<Entry>, other: Entry, message: Entry)
    requires UniqueIds(list) && other.id != message.id
    requires message.id in Ids(Absorb(list, other)) && (message.id in Ids(list) ==> Settled(list, message))
    ensures Settled(Absorb(list, other), message)
  {
    var next := Absorb(list, other);
    var f :| f in next && f.id == message.id;
    var j :| 0 <= j < |next| && next[j] == f;
    AbsorbShape(list, other);
    assert list[j] == f && f in list;
    var e :| e in list && e.id == message.id && MergeMessage(e, message) == e;
    var i :| 0 <= i < |list| && list[i] == e;
    assert i == j;
  }

  lemma {:induction false} UntouchedHoldsIds(list: seq<Entry>, incoming: seq<Entry>)
    requires !Touched(list, incoming)
    ensures Ids(incoming) <= Ids(list)
    decreases |incoming|
  {
    if incoming != [] {
      assert incoming == [incoming[0]] + incoming[1..];
      AbsorbShape(list, incoming[0]);
      assert list[TurnIndex(list, incoming[0])] in list;
      UntouchedHoldsIds(list, incoming[1..]);
    }
  }

  // A second delivery of a batch reports no change exactly when the first delivery left
  // every id of the batch in the transcript.
  lemma SilentIffIdsHeld(clock: Clock, existing: seq<Entry>, incoming: seq<Entry>)
    requires UniqueIds(existing) && UniqueIds(incoming)
    ensures Ids(Merge(clock, existing, incoming)) == Ids(AbsorbAll(existing, incoming))
    ensures !Touched(Merge(clock, existing, incoming), incoming)
      <==> Ids(incoming) <= Ids(AbsorbAll(existing, incoming))
  {
    var next, result := AbsorbAll(existing, incoming), Merge(clock, existing, incoming);
    AbsorbAllInvariants(existing, incoming);
    if Touched(existing, incoming) { PermutedKeepsRows(next, result); } else { UntouchedIsSame(existing, incoming); }
    if !Touched(result, incoming) { UntouchedHoldsIds(result, incoming); }
    if Ids(incoming) <= Ids(result) {
      forall m | m in incoming ensures Settled(result, m) {
        assert m.id in Ids(incoming);
        SurvivorIsSettled(existing, incoming, m);
        var e :| e in next && e.id == m.id && MergeMessage(e, m) == e;
        assert e in result;
      }
      SettledBatchIsUntouched(result, incoming);
    }
  }

  // ---------------------------------------------------------------- the line of placeholders

  // The placeholders of a transcript, in its order.
  function Line(list: seq<Entry>): seq<Entry> {
    if list == [] then []
    else if Pending(list[0]) then [list[0]] + Line(list[1..])
    else Line(list[1..])
  }

  // What one row does to the line; `known` says that the transcript holds its id.
  function LineStep(line: seq<Entry>, known: bool, row: Entry): seq<Entry> {
    var k := if known then IndexOfId(line, row.id) else IndexOfPlaceholder(line, row);
    var own := if Pending(row) then [row] else [];
    if k < |line| then line[..k] + own + line[k + 1..]
    else if known then line
    else line + own
  }

  // Does a row of the batch take away a placeholder that an earlier row of it brought or
  // confirmed (`own`)? `ids` are the ids that the transcript holds. The answer follows from the
  // placeholders of the transcript and the batch, before anything is merged.
  predicate Loses(line: seq<Entry>, ids: set<string>, own: set<string>, incoming: seq<Entry>)
    decreases |incoming|
  {
    incoming != []
    && var row := incoming[0];
       var next, k := LineStep(line, row.id in ids, row), IndexOfPlaceholder(line, row);
       if row.id in ids || k == |line| then Loses(next, ids + {row.id}, own + {row.id}, incoming[1..])
       else
         line[k].id in own
         || Loses(next, ids - {line[k].id} + {row.id}, own + {row.id}, incoming[1..])
  }

  lemma {:induction false} LineSplits(a: seq<Entry>, b: seq<Entry>)
    ensures Line(a + b) == Line(a) + Line(b)
  {
    if a == [] {
      assert a + b == b;
    } else {
      assert (a + b)[0] == a[0] && (a + b)[1..] == a[1..] + b;
      LineSplits(a[1..], b);
    }
  }

  lemma {:induction false} LineHolds(list: seq<Entry>)
    ensures forall e :: e in Line(list) <==> e in list && Pending(e)
  {
    if list != [] {
      assert list == [list[0]] + list[1..];
      LineHolds(list[1..]);
    }
  }

  lemma LineAround(list: seq<Entry>, k: nat, e: Entry)
    requires k < |list|
    ensures Line(list[k := e]) == Line(list[..k]) + Line([e]) + Line(list[k + 1..])
    ensures Line([e]) == if Pending(e) then [e] else []
  {
    assert list[k := e] == list[..k] + ([e] + list[k + 1..]);
    LineSplits(list[..k], [e] + list[k + 1..]);
    LineSplits([e], list[k + 1..]);
    assert [e][1..] == [];
  }

  // The first row of the line that meets either search is the first one of the transcript.
  lemma FirstInLine(before: seq<Entry>, e: Entry, after: seq<Entry>, row: Entry)
    requires forall b :: b in before ==> Pending(b)
    ensures (forall b :: b in before ==> b.id != row.id) && e.id == row.id ==>
      IndexOfId(before + [e] + after, row.id) == |before|
    ensures (forall b :: b in before ==> !Answers(row, b)) && Answers(row, e) ==>
      IndexOfPlaceholder(before + [e] + after, row) == |before|
  {
    var line := before + [e] + after;
    assert line[|before|] == e;
    forall j | 0 <= j < |before| ensures line[j] in before { assert line[j] == before[j]; }
  }

  lemma NotInLine(line: seq<Entry>, row: Entry)
    ensures (forall b :: b in line ==> b.id != row.id) ==> IndexOfId(line, row.id) == |line|
    ensures (forall b :: b in line ==> !Answers(row, b)) ==> IndexOfPlaceholder(line, row) == |line|
  {
    var k, p := IndexOfId(line, row.id), IndexOfPlaceholder(line, row);
    if k < |line| { assert line[k] in line; }
    if p < |line| { assert line[p] in line; }
  }

  // The line moves by its own rule.
  lemma LineOfAbsorbed(list: seq<Entry>, row: Entry)
    requires UniqueIds(list)
    ensures Line(Absorb(list, row)) == LineStep(Line(list), row.id in Ids(list), row)
  {
    var byId, k := IndexOfId(list, row.id), IndexOfPlaceholder(list, row);
    if byId < |list| {
      assert list[byId] in list;
      LineOfKnown(list, row, byId);
    } else if k < |list| {
      IdNotHeld(list, row.id);
      LineOfAnswer(list, row, k);
    } else {
      IdNotHeld(list, row.id);
      NoAnswerInLine(list, row);
      LineSplits(list, [row]);
      assert Line([row]) == if Pending(row) then [row] else [] by { assert [row][1..] == []; }
      assert Line(list) + [] == Line(list);
    }
  }

  lemma IdNotHeld(list: seq<Entry>, id: string)
    requires IndexOfId(list, id) == |list|
    ensures id !in Ids(list)
  {
  }

  // The line around one position of the transcript.
  lemma LineParts(list: seq<Entry>, k: nat)
    requires k < |list|
    ensures Line(list) == Line(list[..k]) + (if Pending(list[k]) then [list[k]] else []) + Line(list[k + 1..])
    ensures var before := Line(list[..k]);
      forall b :: b in before ==> Pending(b) && exists j :: 0 <= j < k && list[j] == b
    ensures var after := Line(list[k + 1..]);
      forall b :: b in after ==> exists j :: k < j < |list| && list[j] == b
  {
    LineAround(list, k, list[k]);
    assert list[k := list[k]] == list;
    LineHolds(list[..k]);
    LineHolds(list[k + 1..]);
    var after := Line(list[k + 1..]);
    forall b | b in after ensures exists j :: k < j < |list| && list[j] == b {
      var j :| 0 <= j < |list[k + 1..]| && list[k + 1..][j] == b;
      assert list[k + 1 + j] == b;
    }
  }

  lemma StepAt(line: seq<Entry>, before: seq<Entry>, e: Entry, after: seq<Entry>, known: bool, row: Entry)
    requires line == before + [e] + after
    requires |before| == if known then IndexOfId(line, row.id) else IndexOfPlaceholder(line, row)
    ensures LineStep(line, known, row) == before + (if Pending(row) then [row] else []) + after
  {
    assert line[..|before|] == before && line[|before| + 1..] == after;
  }

  lemma LineOfKnown(list: seq<Entry>, row: Entry, k: nat)
    requires UniqueIds(list) && k < |list| && list[k].id == row.id
    ensures Line(list[k := MergeMessage(list[k], row)]) == LineStep(Line(list), true, row)
  {
    var e := list[k];
    var before, after := Line(list[..k]), Line(list[k + 1..]);
    LineAround(list, k, MergeMessage(e, row));
    LineParts(list, k);
    if Pending(e) {
      FirstInLine(before, e, after, row);
      StepAt(Line(list), before, e, after, true, row);
    } else {
      NotInLine(Line(list), row);
    }
  }

  lemma LineOfAnswer(list: seq<Entry>, row: Entry, k: nat)
    requires k == IndexOfPlaceholder(list, row) < |list|
    ensures Line(list[k := row]) == LineStep(Line(list), false, row)
    ensures var p := IndexOfPlaceholder(Line(list), row); p < |Line(list)| && Line(list)[p] == list[k]
  {
    var before, after := Line(list[..k]), Line(list[k + 1..]);
    LineAround(list, k, row);
    LineParts(list, k);
    FirstInLine(before, list[k], after, row);
    StepAt(Line(list), before, list[k], after, false, row);
  }

  // ---------------------------------------------------------------- exactly when a batch loses rows

  lemma IdsAfter(list: seq<Entry>, row: Entry)
    requires UniqueIds(list)
    ensures var p := IndexOfPlaceholder(Line(list), row);
      Ids(Absorb(list, row)) ==
        if row.id in Ids(list) || p == |Line(list)| then Ids(list) + {row.id}
        else Ids(list) - {Line(list)[p].id} + {row.id}
  {
    var byId, k := IndexOfId(list, row.id), IndexOfPlaceholder(list, row);
    if byId < |list| {
      assert list[byId] in list;
      IdsReplaced(list, byId, MergeMessage(list[byId], row));
    } else if k < |list| {
      IdNotHeld(list, row.id);
      LineOfAnswer(list, row, k);
      IdsReplaced(list, k, row);
    } else {
      IdNotHeld(list, row.id);
      NoAnswerInLine(list, row);
    }
  }

  lemma NoAnswerInLine(list: seq<Entry>, row: Entry)
    requires IndexOfPlaceholder(list, row) == |list|
    ensures IndexOfPlaceholder(Line(list), row) == |Line(list)|
  {
    LineHolds(list);
    forall b | b in Line(list) ensures !Answers(row, b) { assert b in list; }
    NotInLine(Line(list), row);
  }

  lemma IdsReplaced(list: seq<Entry>, k: nat, e: Entry)
    requires UniqueIds(list) && k < |list|
    ensures Ids(list[k := e]) == Ids(list) - {list[k].id} + {e.id}
  {
    var next := list[k := e];
    assert next[k] in next && list[k] in list;
    forall x | x in list && x != list[k] ensures x in next {
      var j :| 0 <= j < |list| && list[j] == x;
      assert next[j] == x;
    }
    forall x | x in next ensures x == e || (x in list && x.id != list[k].id) {
      var j :| 0 <= j < |next| && next[j] == x;
    }
  }

  lemma {:induction false} LosesDecides(list: seq<Entry>, own: set<string>, incoming: seq<Entry>)
    requires UniqueIds(list) && UniqueIds(incoming)
    requires own <= Ids(list) && own !! Ids(incoming)
    ensures Loses(Line(list), Ids(list), own, incoming) <==> !(own + Ids(incoming) <= Ids(AbsorbAll(list, incoming)))
    decreases |incoming|
  {
    if incoming != [] {
      var row, rest := incoming[0], incoming[1..];
      var next, p := Absorb(list, row), IndexOfPlaceholder(Line(list), row);
      FirstOfBatch(incoming);
      AbsorbInvariants(list, row);
      AbsorbAllInvariants(next, rest);
      LineOfAbsorbed(list, row);
      IdsAfter(list, row);
      if row.id !in Ids(list) && p < |Line(list)| && Line(list)[p].id in own {
        assert Line(list)[p].id !in Ids(AbsorbAll(next, rest));
      } else {
        LosesDecides(next, own + {row.id}, rest);
        assert own + Ids(incoming) == (own + {row.id}) + Ids(rest);
      }
    }
  }

  lemma FirstOfBatch(incoming: seq<Entry>)
    requires incoming != [] && UniqueIds(incoming)
    ensures UniqueIds(incoming[1..]) && incoming[0].id !in Ids(incoming[1..])
    ensures Ids(incoming) == {incoming[0].id} + Ids(incoming[1..])
  {
    assert incoming == [incoming[0]] + incoming[1..];
    forall e | e in incoming[1..] ensures e.id != incoming[0].id {
      var j :| 0 <= j < |incoming[1..]| && incoming[1..][j] == e;
      assert incoming[j + 1] == e;
    }
  }

  // For every transcript and batch: a second delivery reports no change if and only if one
  // pass over the placeholders of the two finds none that the batch takes from itself.
  lemma RedeliveryIsSilentIff(clock: Clock, existing: seq<Entry>, incoming: seq<Entry>)
    requires UniqueIds(existing) && UniqueIds(incoming)
    ensures !Touched(Merge(clock, existing, incoming), incoming)
      <==> !Loses(Line(existing), Ids(existing), {}, incoming)
  {
    SilentIffIdsHeld(clock, existing, incoming);
    LosesDecides(existing, {}, incoming);
    assert {} + Ids(incoming) == Ids(incoming);
  }

  // Delivering the same batch twice is the same as delivering it once.
  lemma MergeIdempotent(clock: Clock, existing: seq<Entry>, incoming: seq<Entry>)
    requires UniqueIds(existing) && UniqueIds(incoming)
    requires !Loses(Line(existing), Ids(existing), {}, incoming)
    ensures Merge(clock, Merge(clock, existing, incoming), incoming) == Merge(clock, existing, incoming)
  {
    RedeliveryIsSilentIff(clock, existing, incoming);
  }

  // No placeholder of the batch shares its request with another row of the batch; holds
  // in particular when the batch has no placeholder at all.
  predicate NoContestedPlaceholder(incoming: seq<Entry>) {
    forall i, j :: 0 <= i < |incoming| && 0 <= j < |incoming| && i != j && Pending(incoming[i])
      ==> !SameMessageRequest(incoming[i], incoming[j])
  }

  // A row leaves nothing new in the line but itself.
  lemma LineAfter(list: seq<Entry>, row: Entry)
    requires UniqueIds(list)
    ensures forall e :: e in Line(Absorb(list, row)) ==> (e == row && Pending(row)) || (e in Line(list) && e.id != row.id)
  {
    var next, k := Absorb(list, row), TurnIndex(list, row);
    AbsorbInvariants(list, row);
    AbsorbShape(list, row);
    LineHolds(list);
    LineHolds(next);
    forall e | e in Line(next) ensures (e == row && Pending(row)) || (e in Line(list) && e.id != row.id) {
      var j :| 0 <= j < |next| && next[j] == e;
      if j != k { assert list[j] in list; }
    }
  }

  // Such a batch loses nothing, whatever the transcript holds.
  lemma {:induction false} UncontestedLosesNothing(list: seq<Entry>, own: set<string>, incoming: seq<Entry>)
    requires UniqueIds(list) && UniqueIds(incoming) && NoContestedPlaceholder(incoming)
    requires forall e, m :: e in Line(list) && e.id in own && m in incoming ==> !SameMessageRequest(e, m)
    ensures !Loses(Line(list), Ids(list), own, incoming)
    decreases |incoming|
  {
    if incoming != [] {
      var row, rest := incoming[0], incoming[1..];
      assert row in incoming;
      assert forall j :: 0 <= j < |rest| ==> rest[j] == incoming[j + 1];
      FirstOfBatch(incoming);
      AbsorbInvariants(list, row);
      LineOfAbsorbed(list, row);
      LineAfter(list, row);
      IdsAfter(list, row);
      forall m | m in rest ensures m in incoming && (Pending(row) ==> !SameMessageRequest(row, m)) {
        var j :| 0 <= j < |rest| && rest[j] == m;
        assert incoming[j + 1] == m;
      }
      UncontestedLosesNothing(Absorb(list, row), own + {row.id}, rest);
      var p := IndexOfPlaceholder(Line(list), row);
      if p < |Line(list)| { assert Line(list)[p] in Line(list); }
    }
  }

  // ---------------------------------------------------------------- batches that name no placeholder

  // No row of the batch has the id of a placeholder of the transcript. Placeholder ids are
  // made by the client that shows them, and no server row ever has one.
  predicate NamesNoPlaceholder(existing: seq<Entry>, incoming: seq<Entry>) {
    forall e, m :: e in existing && m in incoming && e.id == m.id ==> !Pending(e)
  }

  ghost predicate RivalOf(ids: set<string>, incoming: seq<Entry>, i: nat, j: nat) {
    i < j < |incoming| && Pending(incoming[i]) && SameMessageRequest(incoming[i], incoming[j])
    && incoming[i].id !in ids && incoming[j].id !in ids
  }

  // A placeholder of the batch is followed by a row of its request, and both ids are new.
  ghost predicate Contested(ids: set<string>, incoming: seq<Entry>) {
    exists i: nat, j: nat :: RivalOf(ids, incoming, i, j)
  }

  // A row with a new id answers a placeholder that the batch brought earlier.
  ghost predicate Hits(line: seq<Entry>, ids: set<string>, own: set<string>, incoming: seq<Entry>) {
    exists e, m :: e in line && e.id in own && m in incoming && m.id !in ids && SameMessageRequest(e, m)
  }

  // The placeholders the batch brought stand before all others of their request.
  ghost predicate OwnFirst(line: seq<Entry>, own: set<string>) {
    forall a, b :: 0 <= a < b < |line| && SameMessageRequest(line[a], line[b]) ==> line[b].id !in own
  }

  ghost predicate Outside(line: seq<Entry>, ids: set<string>, incoming: seq<Entry>) {
    (forall e :: e in line ==> Pending(e) && e.id in ids)
    && forall e, m :: e in line && m in incoming ==> e.id != m.id
  }

  lemma {:induction false} NewRowsLose(line: seq<Entry>, ids: set<string>, own: set<string>, incoming: seq<Entry>)
    requires UniqueIds(line) && UniqueIds(incoming)
    requires Outside(line, ids, incoming) && OwnFirst(line, own)
    ensures Loses(line, ids, own, incoming) <==> Hits(line, ids, own, incoming) || Contested(ids, incoming)
    decreases |incoming|
  {
    if incoming != [] {
      var row, rest := incoming[0], incoming[1..];
      FirstOfBatch(incoming);
      assert incoming == [row] + rest;
      if row.id in ids {
        KnownRow(line, ids, own, row, rest);
        NewRowsLose(line, ids, own + {row.id}, rest);
      } else {
        var p := IndexOfPlaceholder(line, row);
        if p < |line| && line[p].id in own {
          assert line[p] in line && row in incoming;
        } else {
          NewRow(line, ids, own, row, rest);
          NewRowsLose(LineStep(line, false, row), IdsStep(line, ids, row), own + {row.id}, rest);
        }
      }
    }
  }

  function IdsStep(line: seq<Entry>, ids: set<string>, row: Entry): set<string> {
    var p := IndexOfPlaceholder(line, row);
    if p < |line| then ids - {line[p].id} + {row.id} else ids + {row.id}
  }

  lemma ContestedFirst(ids: set<string>, row: Entry, rest: seq<Entry>)
    ensures Contested(ids, [row] + rest) <==>
      Contested(ids, rest)
      || (Pending(row) && row.id !in ids && exists m :: m in rest && m.id !in ids && SameMessageRequest(row, m))
  {
    var all := [row] + rest;
    forall i: nat, j: nat | RivalOf(ids, all, i, j)
      ensures RivalOf(ids, all, i, j) && if i > 0 then RivalOf(ids, rest, i - 1, j - 1) else rest[j - 1] in rest
    {
    }
    forall i: nat, j: nat | RivalOf(ids, rest, i, j) ensures RivalOf(ids, all, i + 1, j + 1) { }
    forall m | m in rest && Pending(row) && row.id !in ids && m.id !in ids && SameMessageRequest(row, m)
      ensures Contested(ids, all)
    {
      var j :| 0 <= j < |rest| && rest[j] == m;
      assert RivalOf(ids, all, 0, j + 1);
    }
  }

  // A row whose id the transcript holds as a server row changes nothing.
  lemma KnownRow(line: seq<Entry>, ids: set<string>, own: set<string>, row: Entry, rest: seq<Entry>)
    requires row.id in ids && Outside(line, ids, [row] + rest) && OwnFirst(line, own)
    ensures LineStep(line, true, row) == line && ids + {row.id} == ids
    ensures Outside(line, ids, rest) && OwnFirst(line, own + {row.id})
    ensures Hits(line, ids, own, [row] + rest) <==> Hits(line, ids, own + {row.id}, rest)
    ensures Contested(ids, [row] + rest) <==> Contested(ids, rest)
  {
    var all := [row] + rest;
    assert row in all && forall m :: m in all <==> m == row || m in rest;
    forall e | e in line ensures e.id != row.id { }
    forall b | 0 <= b < |line| ensures line[b].id != row.id { assert line[b] in line; }
    NotInLine(line, row);
    ContestedFirst(ids, row, rest);
  }

  lemma RemovedMembers(line: seq<Entry>, p: nat)
    requires UniqueIds(line) && p < |line|
    ensures forall e :: e in line[..p] || e in line[p + 1..] <==> e in line && e != line[p]
  {
    assert line == line[..p] + [line[p]] + line[p + 1..];
    forall e | e in line[..p] || e in line[p + 1..] ensures e != line[p] {
      if e in line[..p] {
        var j :| 0 <= j < p && line[j] == e;
      } else {
        var j :| 0 <= j < |line| - p - 1 && line[p + 1..][j] == e;
        assert line[p].id != line[p + 1 + j].id;
      }
    }
  }

  lemma StepMembers(line: seq<Entry>, row: Entry)
    requires UniqueIds(line)
    ensures var p, next := IndexOfPlaceholder(line, row), LineStep(line, false, row);
      forall e :: e in next <==> (e == row && Pending(row)) || (e in line && (p < |line| ==> e != line[p]))
  {
    var p := IndexOfPlaceholder(line, row);
    if p < |line| { RemovedMembers(line, p); }
  }

  // A row with a new id that does not answer a placeholder of its own batch.
  lemma NewRow(line: seq<Entry>, ids: set<string>, own: set<string>, row: Entry, rest: seq<Entry>)
    requires UniqueIds(line) && UniqueIds([row] + rest) && row.id !in ids
    requires Outside(line, ids, [row] + rest) && OwnFirst(line, own)
    requires var p := IndexOfPlaceholder(line, row); p < |line| ==> line[p].id !in own
    ensures var next, ids', own' := LineStep(line, false, row), IdsStep(line, ids, row), own + {row.id};
      && UniqueIds(next) && Outside(next, ids', rest) && OwnFirst(next, own')
      && (Hits(line, ids, own, [row] + rest) || Contested(ids, [row] + rest)
          <==> Hits(next, ids', own', rest) || Contested(ids', rest))
  {
    assert row in [row] + rest;
    NewRowStaysOutside(line, ids, row, rest);
    NewRowKeepsLine(line, own, row);
    NewRowHits(line, ids, own, row, rest);
    ContestedFirst(ids, row, rest);
  }

  lemma NewRowStaysOutside(line: seq<Entry>, ids: set<string>, row: Entry, rest: seq<Entry>)
    requires UniqueIds(line) && UniqueIds([row] + rest) && Outside(line, ids, [row] + rest)
    ensures Outside(LineStep(line, false, row), IdsStep(line, ids, row), rest)
  {
    var all, p := [row] + rest, IndexOfPlaceholder(line, row);
    FirstOfBatch(all);
    assert all[0] == row && all[1..] == rest && forall m :: m in all <==> m == row || m in rest;
    StepMembers(line, row);
    if p < |line| { NoOtherId(line, p); }
    forall m | m in rest ensures m.id != row.id { assert m.id in Ids(rest); }
  }

  lemma NoOtherId(line: seq<Entry>, p: nat)
    requires UniqueIds(line) && p < |line|
    ensures forall e :: e in line && e != line[p] ==> e.id != line[p].id
  {
    forall e | e in line && e != line[p] ensures e.id != line[p].id {
      var j :| 0 <= j < |line| && line[j] == e;
    }
  }

  // No placeholder of the row's request is the batch's own.
  lemma OwnIsElsewhere(line: seq<Entry>, own: set<string>, row: Entry)
    requires OwnFirst(line, own) && forall e :: e in line ==> Pending(e)
    requires var p := IndexOfPlaceholder(line, row); p < |line| ==> line[p].id !in own
    ensures forall e :: e in line && e.id in own ==> !SameMessageRequest(e, row)
  {
    var p := IndexOfPlaceholder(line, row);
    forall e | e in line && SameMessageRequest(e, row) ensures e.id !in own {
      var b :| 0 <= b < |line| && line[b] == e;
      assert Answers(row, line[b]);
      assert p <= b;
    }
  }

  // Where a row of the next line stood before.
  function StoodAt(line: seq<Entry>, row: Entry, b: nat): (o: nat)
    requires b < |LineStep(line, false, row)| && !(b == IndexOfPlaceholder(line, row) && Pending(row))
    ensures o < |line| && line[o] == LineStep(line, false, row)[b]
  {
    if b < IndexOfPlaceholder(line, row) || Pending(row) then b else b + 1
  }

  lemma NewRowKeepsLine(line: seq<Entry>, own: set<string>, row: Entry)
    requires UniqueIds(line) && OwnFirst(line, own)
    requires forall e :: e in line ==> Pending(e) && e.id != row.id
    requires var p := IndexOfPlaceholder(line, row); p < |line| ==> line[p].id !in own
    ensures var next := LineStep(line, false, row); UniqueIds(next) && OwnFirst(next, own + {row.id})
  {
    var next := LineStep(line, false, row);
    OwnIsElsewhere(line, own, row);
    forall a, b | 0 <= a < b < |next|
      ensures next[a].id != next[b].id
      ensures SameMessageRequest(next[a], next[b]) ==> next[b].id !in own + {row.id}
    {
      PairKept(line, own, row, a, b);
    }
  }

  lemma PairKept(line: seq<Entry>, own: set<string>, row: Entry, a: nat, b: nat)
    requires UniqueIds(line) && OwnFirst(line, own) && a < b < |LineStep(line, false, row)|
    requires forall e :: e in line ==> Pending(e) && e.id != row.id
    requires forall e :: e in line && e.id in own ==> !SameMessageRequest(e, row)
    ensures var next := LineStep(line, false, row);
      next[a].id != next[b].id && (SameMessageRequest(next[a], next[b]) ==> next[b].id !in own + {row.id})
  {
    var p := IndexOfPlaceholder(line, row);
    if b == p && Pending(row) {
      var o := StoodAt(line, row, a);
      assert line[o] in line && !Answers(row, line[a]);
    } else if a == p && Pending(row) {
      var o := StoodAt(line, row, b);
      assert line[o] in line;
    } else {
      var o, q := StoodAt(line, row, a), StoodAt(line, row, b);
      assert line[o] in line && line[q] in line && o < q;
    }
  }

  // The ids of the rest of the batch are as known as before.
  lemma SameKnownIds(line: seq<Entry>, ids: set<string>, row: Entry, rest: seq<Entry>)
    requires UniqueIds([row] + rest) && Outside(line, ids, [row] + rest)
    ensures forall m :: m in rest ==> (m.id in IdsStep(line, ids, row) <==> m.id in ids)
  {
    var all, p := [row] + rest, IndexOfPlaceholder(line, row);
    FirstOfBatch(all);
    assert all[0] == row && all[1..] == rest;
    if p < |line| { assert line[p] in line; }
    forall m | m in rest ensures m.id in IdsStep(line, ids, row) <==> m.id in ids {
      assert m.id in Ids(rest) && m in all;
    }
  }

  lemma ContestedByIds(a: set<string>, b: set<string>, rest: seq<Entry>)
    requires forall m :: m in rest ==> (m.id in a <==> m.id in b)
    ensures Contested(a, rest) ==> Contested(b, rest)
  {
    if Contested(a, rest) {
      var i: nat, j: nat :| RivalOf(a, rest, i, j);
      assert rest[i] in rest && rest[j] in rest;
      assert RivalOf(b, rest, i, j);
    }
  }

  lemma NewRowHits(line: seq<Entry>, ids: set<string>, own: set<string>, row: Entry, rest: seq<Entry>)
    requires UniqueIds(line) && UniqueIds([row] + rest) && row.id !in ids
    requires Outside(line, ids, [row] + rest) && OwnFirst(line, own)
    requires var p := IndexOfPlaceholder(line, row); p < |line| ==> line[p].id !in own
    ensures var next, ids', own' := LineStep(line, false, row), IdsStep(line, ids, row), own + {row.id};
      && (Contested(ids', rest) <==> Contested(ids, rest))
      && (Hits(next, ids', own', rest) <==>
            Hits(line, ids, own, [row] + rest)
            || (Pending(row) && exists m :: m in rest && m.id !in ids && SameMessageRequest(row, m)))
  {
    SameKnownIds(line, ids, row, rest);
    ContestedByIds(ids, IdsStep(line, ids, row), rest);
    ContestedByIds(IdsStep(line, ids, row), ids, rest);
    StepMembers(line, row);
    OwnIsElsewhere(line, own, row);
    HitsForward(line, ids, own, row, rest, IdsStep(line, ids, row));
    HitsBackward(line, ids, own, row, rest, IdsStep(line, ids, row));
  }

  lemma HitsForward(
    line: seq<Entry>, ids: set<string>, own: set<string>, row: Entry, rest: seq<Entry>, ids': set<string>)
    requires forall m :: m in rest ==> (m.id in ids' <==> m.id in ids)
    requires forall e :: e in line && e.id in own ==> !SameMessageRequest(e, row)
    requires var p, next := IndexOfPlaceholder(line, row), LineStep(line, false, row);
      && (p < |line| ==> line[p].id !in own)
      && forall e :: e in next <==> (e == row && Pending(row)) || (e in line && (p < |line| ==> e != line[p]))
    ensures Hits(line, ids, own, [row] + rest) ==> Hits(LineStep(line, false, row), ids', own + {row.id}, rest)
    ensures (Pending(row) && exists m :: m in rest && m.id !in ids && SameMessageRequest(row, m)) ==>
      Hits(LineStep(line, false, row), ids', own + {row.id}, rest)
  {
    var next := LineStep(line, false, row);
    if Hits(line, ids, own, [row] + rest) {
      var e, m :| e in line && e.id in own && m in [row] + rest && m.id !in ids && SameMessageRequest(e, m);
      assert m in rest && e in next;
    }
    forall m | Pending(row) && m in rest && m.id !in ids && SameMessageRequest(row, m)
      ensures Hits(next, ids', own + {row.id}, rest)
    {
      assert row in next;
    }
  }

  lemma HitsBackward(
    line: seq<Entry>, ids: set<string>, own: set<string>, row: Entry, rest: seq<Entry>, ids': set<string>)
    requires forall m :: m in rest ==> (m.id in ids' <==> m.id in ids)
    requires forall e :: e in line ==> e.id != row.id
    requires forall e :: e in LineStep(line, false, row) ==> (e == row && Pending(row)) || e in line
    ensures Hits(LineStep(line, false, row), ids', own + {row.id}, rest) ==>
      Hits(line, ids, own, [row] + rest)
      || (Pending(row) && exists m :: m in rest && m.id !in ids && SameMessageRequest(row, m))
  {
    var next := LineStep(line, false, row);
    if Hits(next, ids', own + {row.id}, rest) {
      var e, m :| e in next && e.id in own + {row.id} && m in rest && m.id !in ids' && SameMessageRequest(e, m);
      if e != row { assert e in line && e.id in own && m in [row] + rest; }
    }
  }

  // For a batch that names no placeholder of the transcript the condition can be read off the
  // two lists: a second delivery reports no change exactly when no placeholder of the batch
  // is followed by a row of the same request, counting only rows whose ids are new.
  lemma NewRowsAreSilentIff(clock: Clock, existing: seq<Entry>, incoming: seq<Entry>)
    requires UniqueIds(existing) && UniqueIds(incoming) && NamesNoPlaceholder(existing, incoming)
    ensures !Touched(Merge(clock, existing, incoming), incoming) <==> !Contested(Ids(existing), incoming)
  {
    RedeliveryIsSilentIff(clock, existing, incoming);
    LineHolds(existing);
    LineUnique(existing);
    NewRowsLose(Line(existing), Ids(existing), {}, incoming);
  }

  lemma {:induction false} LineUnique(list: seq<Entry>)
    requires UniqueIds(list)
    ensures UniqueIds(Line(list))
  {
    if list != [] {
      FirstOfBatch(list);
      LineUnique(list[1..]);
      LineHolds(list[1..]);
      var rest := Line(list[1..]);
      forall j | 0 <= j < |rest| ensures rest[j].id != list[0].id {
        assert rest[j] in rest;
        assert rest[j].id in Ids(list[1..]);
      }
    }
  }

  // The limit of that law: a placeholder and its own answer in one batch. The first
  // delivery consumes the placeholder, the second brings it back beside the answer.
  lemma ContestedPlaceholderReturns(clock: Clock, placeholder: Entry, answer: Entry)
    requires Pending(placeholder) && !Pending(answer)
    requires SameMessageRequest(placeholder, answer) && placeholder.id != answer.id
    ensures var batch := [placeholder, answer];
      && Merge(clock, [], batch) == [answer]
      && placeholder in Merge(clock, Merge(clock, [], batch), batch)
  {
    var batch := [placeholder, answer];
    assert batch[1..] == [answer] && [answer][1..] == [];
    assert Absorb([], placeholder) == [placeholder];
    assert Absorb([placeholder], answer) == [answer];
    assert AbsorbAll([], batch) == AbsorbAll([placeholder], [answer]) == AbsorbAll([answer], []) == [answer];
    assert Sort(clock.Le, [answer]) == [answer] by { assert Insert(clock.Le, answer, []) == [answer]; }
    assert Merge(clock, [], batch) == [answer];
    var again := [answer, placeholder];
    assert IndexOfId([answer], placeholder.id) == 1;
    assert IndexOfPlaceholder([answer], placeholder) == 1;
    assert Absorb([answer], placeholder) == again;
    assert IndexOfId(again, answer.id) == 0;
    assert Absorb(again, answer) == again;
    assert AbsorbAll([answer], batch) == AbsorbAll(again, [answer]) == AbsorbAll(again, []) == again;
    SortKeepsElements(clock.Le, again);
    assert placeholder in again;
  }
}
