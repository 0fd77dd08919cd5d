// Folding a tool call's rows into one (apps/mobile/lib/chat-tool-state.ts): a loop over rows
// in place, shown to be a group-by on the call id.
module ToolLifecycles {
  import opened Options
  import opened StableSort

  datatype Kind = Text | Thinking | ToolUse | ToolResult | Failure

  // `rest` stands for the fields no one touches (task, issue, content, citations, ...).
  datatype Row = Row(
    seq_: int, kind: Kind, callId: Option<string>, state: Option<string>, tool: Option<string>,
    input: Option<string>, output: Option<string>, createdAt: Option<string>, rest: string)

  predicate IsTool(row: Row) {
    row.callId.Some? && row.callId.value != "" && (row.kind == ToolUse || row.kind == ToolResult)
  }

  predicate OnCall(row: Row, id: string) { IsTool(row) && row.callId.value == id }

  // `{ ...existing, type, state: item.state ?? existing.state, ... }`
  function Update(existing: Row, item: Row): Row {
    existing.(
      kind := if existing.kind == ToolUse || item.kind == ToolUse then ToolUse else ToolResult,
      state := item.state.OrElse(existing.state),
      tool := item.tool.OrElse(existing.tool),
      input := item.input.OrElse(existing.input),
      output := item.output.OrElse(existing.output),
      createdAt := item.createdAt.OrElse(existing.createdAt))
  }

  function IndexOfCall(folded: seq<Row>, id: string): (k: nat)
    ensures k <= |folded|
    ensures k < |folded| ==> OnCall(folded[k], id)
    ensures forall j :: 0 <= j < k ==> !OnCall(folded[j], id)
  {
    if folded == [] || OnCall(folded[0], id) then 0 else 1 + IndexOfCall(folded[1..], id)
  }

  // One turn of the loop.
  function FoldOne(folded: seq<Row>, item: Row): seq<Row> {
    if IsTool(item) then
      var k := IndexOfCall(folded, item.callId.value);
      if k < |folded| then folded[k := Update(folded[k], item)] else folded + [item]
    else folded + [item]
  }

  function FoldAll(folded: seq<Row>, items: seq<Row>): seq<Row>
    decreases |items|
  {
    if items == [] then folded else FoldAll(FoldOne(folded, items[0]), items[1..])
  }

  predicate Before(a: Row, b: Row) { a.seq_ - b.seq_ <= 0 }

  function FoldToolLifecycles(items: seq<Row>): seq<Row> { FoldAll([], Sort(Before, items)) }

  method Fold(items: seq<Row>) returns (folded: seq<Row>)
    ensures folded == FoldToolLifecycles(items)
  {
    var sorted := Sort(Before, items);
    folded := [];
    for i := 0 to |sorted|
      invariant FoldAll(folded, sorted[i..]) == FoldAll([], sorted)
    {
      var item := sorted[i];
      ghost var before := folded;
      assert sorted[i..][0] == item && sorted[i..][1..] == sorted[i + 1..];
      if IsTool(item) {
        var existingIndex := IndexOfCall(folded, item.callId.value);
        if existingIndex < |folded| {
          folded := folded[existingIndex := Update(folded[existingIndex], item)];
          assert folded == FoldOne(before, item);
          continue;
        }
      }
      folded := folded + [item];
      assert folded == FoldOne(before, item);
    }
    assert sorted[|sorted|..] == [];
  }

  // ---------------------------------------------------------------- group by call

  function CallRows(rows: seq<Row>, id: string): seq<Row> {
    if rows == [] then []
    else if OnCall(rows[0], id) then [rows[0]] + CallRows(rows[1..], id)
    else CallRows(rows[1..], id)
  }

  function WithoutCalls(rows: seq<Row>, ids: set<string>): (r: seq<Row>)
    ensures |r| <= |rows|
  {
    if rows == [] then []
    else if IsTool(rows[0]) && rows[0].callId.value in ids then WithoutCalls(rows[1..], ids)
    else [rows[0]] + WithoutCalls(rows[1..], ids)
  }

  // The last value that was supplied.
  function LastSupplied<T>(values: seq<Option<T>>): Option<T> {
    if values == [] then None
    else values[|values| - 1].OrElse(LastSupplied(values[..|values| - 1]))
  }

  function Values<T>(rows: seq<Row>, field: Row -> Option<T>): seq<Option<T>> {
    seq(|rows|, i requires 0 <= i < |rows| => field(rows[i]))
  }

  function StateOf(row: Row): Option<string> { row.state }
  function ToolOf(row: Row): Option<string> { row.tool }
  function InputOf(row: Row): Option<string> { row.input }
  function OutputOf(row: Row): Option<string> { row.output }
  function CreatedAtOf(row: Row): Option<string> { row.createdAt }

  // One row for a whole call: it stands where the first row stood, is a use if any row is,
  // and carries the last supplied value of each lifecycle field.
  function Combined(rows: seq<Row>): Row
    requires rows != []
  {
    rows[0].(
      kind := if |rows| == 1 then rows[0].kind
              else if exists r :: r in rows && r.kind == ToolUse then ToolUse else ToolResult,
      state := LastSupplied(Values(rows, StateOf)),
      tool := LastSupplied(Values(rows, ToolOf)),
      input := LastSupplied(Values(rows, InputOf)),
      output := LastSupplied(Values(rows, OutputOf)),
      createdAt := LastSupplied(Values(rows, CreatedAtOf)))
  }

  function Grouped(rows: seq<Row>): seq<Row>
    decreases |rows|
  {
    if rows == [] then []
    else if !IsTool(rows[0]) then [rows[0]] + Grouped(rows[1..])
    else
      var id := rows[0].callId.value;
      [Combined([rows[0]] + CallRows(rows[1..], id))] + Grouped(WithoutCalls(rows[1..], {id}))
  }

  // ---------------------------------------------------------------- updating is combining

  lemma {:induction false} LastSuppliedJoins<T>(a: seq<Option<T>>, b: seq<Option<T>>)
    ensures LastSupplied(a + b) == LastSupplied(b).OrElse(LastSupplied(a))
  {
    if b == [] {
      assert a + b == a;
    } else {
      assert (a + b)[..|a + b| - 1] == a + b[..|b| - 1];
      LastSuppliedJoins(a, b[..|b| - 1]);
    }
  }

  lemma ValuesJoin<T>(a: seq<Row>, b: seq<Row>, field: Row -> Option<T>)
    ensures Values(a + b, field) == Values(a, field) + Values(b, field)
  {
  }

  lemma LastOne<T>(row: Row, field: Row -> Option<T>)
    ensures LastSupplied(Values([row], field)) == field(row)
  {
    assert Values([row], field) == [field(row)];
    assert [field(row)][..0] == [];
  }

  lemma LastOfTwo<T>(first: Row, item: Row, field: Row -> Option<T>)
    ensures LastSupplied(Values([first, item], field)) == field(item).OrElse(field(first))
  {
    assert [first] + [item] == [first, item];
    ValuesJoin([first], [item], field);
    LastSuppliedJoins(Values([first], field), Values([item], field));
    LastOne(first, field);
    LastOne(item, field);
  }

  lemma LastOfPair<T>(first: Row, item: Row, more: seq<Row>, field: Row -> Option<T>, merged: Row)
    requires field(merged) == field(item).OrElse(field(first))
    ensures LastSupplied(Values([first, item] + more, field)) == LastSupplied(Values([merged] + more, field))
  {
    ValuesJoin([first, item], more, field);
    ValuesJoin([merged], more, field);
    LastSuppliedJoins(Values([first, item], field), Values(more, field));
    LastSuppliedJoins(Values([merged], field), Values(more, field));
    LastOfTwo(first, item, field);
    LastOne(merged, field);
  }

  lemma UpdateCombines(first: Row, item: Row, more: seq<Row>)
    requires IsTool(first) && IsTool(item)
    requires forall r :: r in more ==> IsTool(r)
    ensures Combined([Update(first, item)] + more) == Combined([first, item] + more)
  {
    var merged := Update(first, item);
    var a, b := [first, item] + more, [merged] + more;
    LastOfPair(first, item, more, StateOf, merged);
    LastOfPair(first, item, more, ToolOf, merged);
    LastOfPair(first, item, more, InputOf, merged);
    LastOfPair(first, item, more, OutputOf, merged);
    LastOfPair(first, item, more, CreatedAtOf, merged);
    KindsAgree(first, item, more);
  }

  lemma KindsAgree(first: Row, item: Row, more: seq<Row>)
    requires IsTool(first) && IsTool(item) && forall r :: r in more ==> IsTool(r)
    ensures Combined([Update(first, item)] + more).kind == Combined([first, item] + more).kind
  {
    var merged := Update(first, item);
    var a, b := [first, item] + more, [merged] + more;
    assert a[0] == first && a[1] == item && b[0] == merged;
    assert (exists r :: r in b && r.kind == ToolUse) <==> merged.kind == ToolUse || exists r :: r in more && r.kind == ToolUse;
    assert (exists r :: r in a && r.kind == ToolUse)
      <==> first.kind == ToolUse || item.kind == ToolUse || exists r :: r in more && r.kind == ToolUse;
  }

  lemma CombinedOne(row: Row)
    ensures Combined([row]) == row
  {
    LastOne(row, StateOf);
    LastOne(row, ToolOf);
    LastOne(row, InputOf);
    LastOne(row, OutputOf);
    LastOne(row, CreatedAtOf);
  }

  // ---------------------------------------------------------------- the loop groups by call

  predicate UniqueCalls(rows: seq<Row>) {
    forall i, j :: 0 <= i < j < |rows| && IsTool(rows[i]) && IsTool(rows[j]) ==> rows[i].callId != rows[j].callId
  }

  ghost function Calls(rows: seq<Row>): set<string> {
    set r | r in rows && IsTool(r) :: r.callId.value
  }

  function AbsorbedRow(row: Row, items: seq<Row>): Row {
    if IsTool(row) then Combined([row] + CallRows(items, row.callId.value)) else row
  }

  // The rows folded so far, once the rest of the items has been folded into them.
  function Absorbed(folded: seq<Row>, items: seq<Row>): seq<Row> {
    seq(|folded|, i requires 0 <= i < |folded| => AbsorbedRow(folded[i], items))
  }

  lemma {:induction false} CallRowsAre(items: seq<Row>, id: string)
    ensures forall r :: r in CallRows(items, id) ==> OnCall(r, id)
  {
    if items != [] { CallRowsAre(items[1..], id); }
  }

  lemma CallRowsFirst(item: Row, rest: seq<Row>, id: string)
    ensures CallRows([item] + rest, id) == if OnCall(item, id) then [item] + CallRows(rest, id) else CallRows(rest, id)
  {
    assert ([item] + rest)[1..] == rest;
  }

  lemma WithoutFirst(item: Row, rest: seq<Row>, ids: set<string>)
    ensures WithoutCalls([item] + rest, ids) ==
      if IsTool(item) && item.callId.value in ids then WithoutCalls(rest, ids) else [item] + WithoutCalls(rest, ids)
  {
    assert ([item] + rest)[1..] == rest;
  }

  lemma {:induction false} CallRowsWithout(items: seq<Row>, ids: set<string>, id: string)
    requires id !in ids
    ensures CallRows(WithoutCalls(items, ids), id) == CallRows(items, id)
  {
    if items != [] {
      CallRowsWithout(items[1..], ids, id);
      CallRowsFirst(items[0], WithoutCalls(items[1..], ids), id);
    }
  }

  lemma {:induction false} WithoutTwice(items: seq<Row>, a: set<string>, b: set<string>)
    ensures WithoutCalls(WithoutCalls(items, a), b) == WithoutCalls(items, a + b)
  {
    if items != [] {
      WithoutTwice(items[1..], a, b);
      WithoutFirst(items[0], WithoutCalls(items[1..], a), b);
    }
  }

  lemma FoldOneUnique(folded: seq<Row>, item: Row)
    requires UniqueCalls(folded)
    ensures UniqueCalls(FoldOne(folded, item))
    ensures Calls(FoldOne(folded, item)) == Calls(folded) + if IsTool(item) then {item.callId.value} else {}
  {
    var next := FoldOne(folded, item);
    if IsTool(item) && IndexOfCall(folded, item.callId.value) < |folded| {
      var k := IndexOfCall(folded, item.callId.value);
      assert folded[k] in folded && next[k] in next;
      forall r | r in folded && IsTool(r) ensures r.callId.value in Calls(next) {
        var j :| 0 <= j < |folded| && folded[j] == r;
        assert next[j] in next;
      }
      forall r | r in next && IsTool(r) ensures r.callId.value in Calls(folded) {
        var j :| 0 <= j < |next| && next[j] == r;
        assert folded[j] in folded;
      }
    } else {
      assert next == folded + [item];
      if IsTool(item) {
        forall j | 0 <= j < |folded| && IsTool(folded[j]) ensures folded[j].callId != item.callId {
          assert !OnCall(folded[j], item.callId.value);
        }
      }
    }
  }

  lemma AbsorbedElsewhere(folded: seq<Row>, item: Row, rest: seq<Row>, i: nat)
    requires i < |folded| && !(IsTool(folded[i]) && OnCall(item, folded[i].callId.value))
    ensures AbsorbedRow(folded[i], [item] + rest) == AbsorbedRow(folded[i], rest)
  {
    if IsTool(folded[i]) { CallRowsFirst(item, rest, folded[i].callId.value); }
  }

  // A row of a call that has been seen is absorbed by the row of that call.
  lemma AbsorbKnown(folded: seq<Row>, item: Row, rest: seq<Row>)
    requires UniqueCalls(folded) && IsTool(item) && item.callId.value in Calls(folded)
    ensures Absorbed(FoldOne(folded, item), rest) == Absorbed(folded, [item] + rest)
  {
    var id := item.callId.value;
    var k := IndexOfCall(folded, id);
    CallIsFound(folded, id);
    AbsorbAtCall(folded[k], item, rest);
    var next := FoldOne(folded, item);
    forall i | 0 <= i < |folded| && i != k
      ensures AbsorbedRow(next[i], rest) == AbsorbedRow(folded[i], [item] + rest)
    {
      assert !(IsTool(folded[i]) && folded[i].callId == folded[k].callId);
      AbsorbedElsewhere(folded, item, rest, i);
    }
  }

  lemma CallIsFound(folded: seq<Row>, id: string)
    requires id in Calls(folded)
    ensures IndexOfCall(folded, id) < |folded|
  {
    var r :| r in folded && IsTool(r) && r.callId.value == id;
    var j :| 0 <= j < |folded| && folded[j] == r;
    assert OnCall(folded[j], id);
  }

  lemma AbsorbAtCall(row: Row, item: Row, rest: seq<Row>)
    requires IsTool(item) && OnCall(row, item.callId.value)
    ensures AbsorbedRow(Update(row, item), rest) == AbsorbedRow(row, [item] + rest)
  {
    var more := CallRows(rest, item.callId.value);
    CallRowsFirst(item, rest, item.callId.value);
    CallRowsAre(rest, item.callId.value);
    UpdateCombines(row, item, more);
    assert [row] + ([item] + more) == [row, item] + more;
  }

  // Any other row is appended.
  lemma AbsorbNew(folded: seq<Row>, item: Row, rest: seq<Row>)
    requires UniqueCalls(folded) && !(IsTool(item) && item.callId.value in Calls(folded))
    ensures Absorbed(FoldOne(folded, item), rest) == Absorbed(folded, [item] + rest) + [AbsorbedRow(item, rest)]
  {
    forall i | 0 <= i < |folded| ensures AbsorbedRow(folded[i], [item] + rest) == AbsorbedRow(folded[i], rest)
      ensures IsTool(item) ==> !OnCall(folded[i], item.callId.value)
    {
      assert folded[i] in folded;
      AbsorbedElsewhere(folded, item, rest, i);
    }
    assert FoldOne(folded, item) == folded + [item];
  }

  lemma GroupedFirst(item: Row, left: seq<Row>)
    ensures Grouped([item] + left) ==
      if IsTool(item) then
        [Combined([item] + CallRows(left, item.callId.value))] + Grouped(WithoutCalls(left, {item.callId.value}))
      else [item] + Grouped(left)
  {
    assert ([item] + left)[1..] == left;
  }

  lemma {:induction false} LoopGroups(folded: seq<Row>, items: seq<Row>)
    requires UniqueCalls(folded)
    ensures FoldAll(folded, items) == Absorbed(folded, items) + Grouped(WithoutCalls(items, Calls(folded)))
    decreases |items|
  {
    if items == [] {
      AbsorbNothing(folded);
    } else {
      FoldOneUnique(folded, items[0]);
      LoopGroups(FoldOne(folded, items[0]), items[1..]);
      LoopTurn(folded, items[0], items[1..]);
      assert items == [items[0]] + items[1..];
    }
  }

  lemma LoopTurn(folded: seq<Row>, item: Row, rest: seq<Row>)
    requires UniqueCalls(folded)
    ensures var next := FoldOne(folded, item);
      Absorbed(next, rest) + Grouped(WithoutCalls(rest, Calls(next)))
        == Absorbed(folded, [item] + rest) + Grouped(WithoutCalls([item] + rest, Calls(folded)))
  {
    FoldOneUnique(folded, item);
    if IsTool(item) && item.callId.value in Calls(folded) {
      assert Calls(FoldOne(folded, item)) == Calls(folded);
      LoopTurnKnown(folded, item, rest);
    } else {
      LoopTurnNew(folded, item, rest, Calls(FoldOne(folded, item)));
    }
  }

  lemma LoopTurnKnown(folded: seq<Row>, item: Row, rest: seq<Row>)
    requires UniqueCalls(folded) && IsTool(item) && item.callId.value in Calls(folded)
    ensures Absorbed(FoldOne(folded, item), rest) + Grouped(WithoutCalls(rest, Calls(folded)))
         == Absorbed(folded, [item] + rest) + Grouped(WithoutCalls([item] + rest, Calls(folded)))
  {
    WithoutFirst(item, rest, Calls(folded));
    AbsorbKnown(folded, item, rest);
  }

  lemma LoopTurnNew(folded: seq<Row>, item: Row, rest: seq<Row>, next: set<string>)
    requires UniqueCalls(folded) && !(IsTool(item) && item.callId.value in Calls(folded))
    requires next == Calls(folded) + if IsTool(item) then {item.callId.value} else {}
    ensures Absorbed(FoldOne(folded, item), rest) + Grouped(WithoutCalls(rest, next))
         == Absorbed(folded, [item] + rest) + Grouped(WithoutCalls([item] + rest, Calls(folded)))
  {
    WithoutFirst(item, rest, Calls(folded));
    AbsorbNew(folded, item, rest);
    GroupNew(Calls(folded), item, rest);
    ConcatMiddle(Absorbed(folded, [item] + rest), AbsorbedRow(item, rest), Grouped(WithoutCalls(rest, next)));
  }

  lemma ConcatMiddle(base: seq<Row>, row: Row, tail: seq<Row>)
    ensures (base + [row]) + tail == base + ([row] + tail)
  {
  }

  lemma GroupNew(known: set<string>, item: Row, rest: seq<Row>)
    requires !(IsTool(item) && item.callId.value in known)
    ensures var next := known + if IsTool(item) then {item.callId.value} else {};
      Grouped([item] + WithoutCalls(rest, known)) == [AbsorbedRow(item, rest)] + Grouped(WithoutCalls(rest, next))
  {
    GroupedFirst(item, WithoutCalls(rest, known));
    if IsTool(item) {
      CallRowsWithout(rest, known, item.callId.value);
      WithoutTwice(rest, known, {item.callId.value});
    } else {
      assert known + {} == known;
    }
  }

  lemma AbsorbNothing(folded: seq<Row>)
    ensures Absorbed(folded, []) == folded
  {
    forall i | 0 <= i < |folded| ensures AbsorbedRow(folded[i], []) == folded[i] {
      CombinedOne(folded[i]);
      assert [folded[i]] + [] == [folded[i]];
    }
  }

  // Folding is sorting by seq and grouping by call id.
  lemma FoldingIsGrouping(items: seq<Row>)
    ensures FoldToolLifecycles(items) == Grouped(Sort(Before, items))
  {
    var sorted := Sort(Before, items);
    LoopGroups([], sorted);
    WithoutNone(sorted);
    NothingFolded(sorted);
  }

  lemma NothingFolded(items: seq<Row>)
    ensures Calls([]) == {} && Absorbed([], items) == []
    ensures forall tail :: Absorbed([], items) + tail == tail
  {
    assert Absorbed([], items) == [];
    forall tail: seq<Row> ensures [] + tail == tail { }
  }

  lemma {:induction false} WithoutNone(items: seq<Row>)
    ensures WithoutCalls(items, {}) == items
  {
    if items != [] { WithoutNone(items[1..]); }
  }

  // ---------------------------------------------------------------- laws

  predicate Ascending(rows: seq<Row>) {
    forall i, j :: 0 <= i < j < |rows| ==> rows[i].seq_ <= rows[j].seq_
  }

  lemma {:induction false} WithoutKeeps(rows: seq<Row>, ids: set<string>)
    ensures forall r :: r in WithoutCalls(rows, ids) <==> r in rows && !(IsTool(r) && r.callId.value in ids)
    ensures Ascending(rows) ==> Ascending(WithoutCalls(rows, ids))
  {
    if rows != [] {
      var rest := WithoutCalls(rows[1..], ids);
      assert rows == [rows[0]] + rows[1..];
      WithoutKeeps(rows[1..], ids);
      if Ascending(rows) {
        forall r | r in rest ensures rows[0].seq_ <= r.seq_ {
          assert r in rows[1..];
          var j :| 0 <= j < |rows[1..]| && rows[1..][j] == r;
          assert rows[j + 1] == r;
        }
        assert forall j :: 0 <= j < |rest| ==> rest[j] in rest;
      }
    }
  }

  lemma {:induction false} GroupedFacts(rows: seq<Row>, low: int)
    requires Ascending(rows) && forall r :: r in rows ==> low <= r.seq_
    ensures UniqueCalls(Grouped(rows)) && Ascending(Grouped(rows))
    ensures Calls(Grouped(rows)) == Calls(rows)
    ensures forall r :: r in Grouped(rows) ==> low <= r.seq_
    decreases |rows|
  {
    if rows != [] {
      var first := rows[0];
      assert rows == [first] + rows[1..] && first in rows;
      forall r | r in rows[1..] ensures first.seq_ <= r.seq_ {
        var j :| 0 <= j < |rows[1..]| && rows[1..][j] == r;
        assert rows[j + 1] == r;
      }
      var left := if IsTool(first) then WithoutCalls(rows[1..], {first.callId.value}) else rows[1..];
      if IsTool(first) { WithoutKeeps(rows[1..], {first.callId.value}); }
      GroupedFacts(left, first.seq_);
      GroupedStep(rows, left);
    }
  }

  lemma GroupedStep(rows: seq<Row>, left: seq<Row>)
    requires rows != []
    requires IsTool(rows[0]) ==> left == WithoutCalls(rows[1..], {rows[0].callId.value})
    requires !IsTool(rows[0]) ==> left == rows[1..]
    requires UniqueCalls(Grouped(left)) && Ascending(Grouped(left)) && Calls(Grouped(left)) == Calls(left)
    requires forall r :: r in Grouped(left) ==> rows[0].seq_ <= r.seq_
    ensures UniqueCalls(Grouped(rows)) && Ascending(Grouped(rows))
    ensures Calls(Grouped(rows)) == Calls(rows)
    ensures Grouped(rows) != [] && Grouped(rows)[0].seq_ == rows[0].seq_ && Grouped(rows)[1..] == Grouped(left)
  {
    var first, rest := rows[0], Grouped(left);
    assert rows == [first] + rows[1..];
    GroupedFirst(first, rows[1..]);
    var head := Grouped(rows)[0];
    assert Grouped(rows) == [head] + rest;
    CallsOfFirst(rows, left);
    ConsFacts(head, rest);
  }

  lemma ConsFacts(head: Row, rest: seq<Row>)
    requires UniqueCalls(rest) && Ascending(rest)
    requires forall r :: r in rest ==> head.seq_ <= r.seq_
    requires IsTool(head) ==> head.callId.value !in Calls(rest)
    ensures UniqueCalls([head] + rest) && Ascending([head] + rest)
    ensures Calls([head] + rest) == (if IsTool(head) then {head.callId.value} else {}) + Calls(rest)
  {
    forall j | 0 <= j < |rest| ensures head.seq_ <= rest[j].seq_ && (IsTool(rest[j]) ==> rest[j].callId.value in Calls(rest)) {
      assert rest[j] in rest;
    }
  }

  lemma CallsOfFirst(rows: seq<Row>, left: seq<Row>)
    requires rows != []
    requires IsTool(rows[0]) ==> left == WithoutCalls(rows[1..], {rows[0].callId.value})
    requires !IsTool(rows[0]) ==> left == rows[1..]
    ensures Calls(rows) == (if IsTool(rows[0]) then {rows[0].callId.value} else {}) + Calls(left)
    ensures IsTool(rows[0]) ==> rows[0].callId.value !in Calls(left)
  {
    assert rows == [rows[0]] + rows[1..];
    if IsTool(rows[0]) { WithoutKeeps(rows[1..], {rows[0].callId.value}); }
  }

  lemma {:induction false} GroupedFixpoint(rows: seq<Row>)
    requires UniqueCalls(rows)
    ensures Grouped(rows) == rows
    decreases |rows|
  {
    if rows != [] {
      assert rows == [rows[0]] + rows[1..];
      GroupedFixpoint(rows[1..]);
      if IsTool(rows[0]) {
        var id := rows[0].callId.value;
        NoneOnCall(rows[1..], id);
        CombinedOne(rows[0]);
        assert [rows[0]] + [] == [rows[0]];
      }
    }
  }

  lemma {:induction false} NoneOnCall(rows: seq<Row>, id: string)
    requires forall i :: 0 <= i < |rows| ==> !OnCall(rows[i], id)
    ensures CallRows(rows, id) == [] && WithoutCalls(rows, {id}) == rows
  {
    if rows != [] {
      assert rows == [rows[0]] + rows[1..];
      NoneOnCall(rows[1..], id);
    }
  }

  function Others(rows: seq<Row>): seq<Row> {
    if rows == [] then [] else if IsTool(rows[0]) then Others(rows[1..]) else [rows[0]] + Others(rows[1..])
  }

  lemma {:induction false} OthersWithout(rows: seq<Row>, ids: set<string>)
    ensures Others(WithoutCalls(rows, ids)) == Others(rows)
  {
    if rows != [] {
      OthersWithout(rows[1..], ids);
      var rest := WithoutCalls(rows[1..], ids);
      assert ([rows[0]] + rest)[1..] == rest;
    }
  }

  lemma {:induction false} OthersStay(rows: seq<Row>)
    ensures Others(Grouped(rows)) == Others(rows)
    decreases |rows|
  {
    if rows != [] {
      var first := rows[0];
      if IsTool(first) {
        var left := WithoutCalls(rows[1..], {first.callId.value});
        OthersStay(left);
        OthersWithout(rows[1..], {first.callId.value});
        CallRowsAre(rows[1..], first.callId.value);
        assert Grouped(rows)[1..] == Grouped(left);
      } else {
        OthersStay(rows[1..]);
        assert Grouped(rows)[1..] == Grouped(rows[1..]);
      }
    }
  }

  lemma SortIsAscending(items: seq<Row>)
    ensures Ascending(Sort(Before, items))
  {
    SortOrders(Before, items);
    assert forall i, j :: 0 <= i < j < |Sort(Before, items)| ==> Before(Sort(Before, items)[i], Sort(Before, items)[j]);
  }

  // The folded transcript: one row per call id and every call still there, in seq order,
  // with all other rows kept in their sorted order.
  lemma FoldLaws(items: seq<Row>)
    ensures var folded, sorted := FoldToolLifecycles(items), Sort(Before, items);
      && UniqueCalls(folded) && Ascending(folded)
      && Calls(folded) == Calls(items)
      && Others(folded) == Others(sorted)
  {
    var sorted := Sort(Before, items);
    FoldingIsGrouping(items);
    SortIsAscending(items);
    SortKeepsElements(Before, items);
    var low := if sorted == [] then 0 else sorted[0].seq_;
    assert forall r :: r in sorted ==> low <= r.seq_;
    GroupedFacts(sorted, low);
    OthersStay(sorted);
    assert Calls(sorted) == Calls(items);
  }

  lemma FoldIdempotent(items: seq<Row>)
    ensures FoldToolLifecycles(FoldToolLifecycles(items)) == FoldToolLifecycles(items)
  {
    var folded := FoldToolLifecycles(items);
    FoldLaws(items);
    SortFixesOrdered(Before, folded);
    FoldingIsGrouping(folded);
    GroupedFixpoint(folded);
  }

  predicate DistinctSeqs(items: seq<Row>) {
    forall i, j :: 0 <= i < j < |items| ==> items[i].seq_ != items[j].seq_
  }

  // Rows may arrive in any order.
  lemma FoldIgnoresArrivalOrder(a: seq<Row>, b: seq<Row>)
    requires multiset(a) == multiset(b) && DistinctSeqs(a)
    ensures FoldToolLifecycles(a) == FoldToolLifecycles(b)
  {
    assert Distinct(a);
    forall x, y | x in a && y in a && Before(x, y) && Before(y, x) ensures x == y {
      var i :| 0 <= i < |a| && a[i] == x;
      var j :| 0 <= j < |a| && a[j] == y;
    }
    assert AntisymmetricOn(Before, a);
    SortIgnoresInputOrder(Before, a, b);
  }

  // ---------------------------------------------------------------- call by call

  predicate UseOrResult(row: Row) { row.kind == ToolUse || row.kind == ToolResult }

  // Every call has one row, whatever mix of uses and results it came in, and every row that is
  // neither, or names no call, is still there.
  lemma OneRowPerCall(items: seq<Row>)
    ensures var folded := FoldToolLifecycles(items);
      && (forall i, j :: 0 <= i < j < |folded| && UseOrResult(folded[i]) && UseOrResult(folded[j]) ==>
            folded[i].callId != folded[j].callId || folded[i].callId == None || folded[i].callId == Some(""))
      && (forall id :: id != "" ==>
            ((exists r :: r in folded && UseOrResult(r) && r.callId == Some(id))
              <==> exists r :: r in items && UseOrResult(r) && r.callId == Some(id)))
      && (forall r :: (!UseOrResult(r) || r.callId == None || r.callId == Some("")) && r in items ==> r in folded)
      && (forall i, j :: 0 <= i < j < |folded| ==> folded[i].seq_ <= folded[j].seq_)
  {
    var folded, sorted := FoldToolLifecycles(items), Sort(Before, items);
    FoldLaws(items);
    SortKeepsElements(Before, items);
    forall id | id != ""
      ensures (exists r :: r in folded && UseOrResult(r) && r.callId == Some(id))
        <==> exists r :: r in items && UseOrResult(r) && r.callId == Some(id)
    {
      CallHasRow(folded, id);
      CallHasRow(items, id);
    }
    forall r | r in items && (!UseOrResult(r) || r.callId == None || r.callId == Some("")) ensures r in folded {
      OthersAre(sorted, r);
      OthersAre(folded, r);
    }
  }

  lemma CallHasRow(rows: seq<Row>, id: string)
    requires id != ""
    ensures id in Calls(rows) <==> exists r :: r in rows && UseOrResult(r) && r.callId == Some(id)
  {
  }

  lemma {:induction false} OthersAre(rows: seq<Row>, r: Row)
    ensures r in Others(rows) <==> r in rows && !IsTool(r)
  {
    if rows != [] {
      assert rows == [rows[0]] + rows[1..];
      OthersAre(rows[1..], r);
    }
  }

  // A use and its later result become one row where the use stood: a use, with the fields of
  // the result where it has them.
  lemma UseAndResult(use: Row, result: Row)
    requires use.kind == ToolUse && result.kind == ToolResult && use.seq_ < result.seq_
    requires use.callId.Some? && use.callId == result.callId && use.callId != Some("")
    ensures FoldToolLifecycles([use, result]) == FoldToolLifecycles([result, use])
    ensures var folded := FoldToolLifecycles([use, result]);
      && |folded| == 1
      && folded[0].seq_ == use.seq_ && folded[0].kind == ToolUse && folded[0].callId == use.callId
      && folded[0].rest == use.rest
      && folded[0].state == (if result.state.Some? then result.state else use.state)
      && folded[0].tool == (if result.tool.Some? then result.tool else use.tool)
      && folded[0].input == (if result.input.Some? then result.input else use.input)
      && folded[0].output == (if result.output.Some? then result.output else use.output)
      && folded[0].createdAt == (if result.createdAt.Some? then result.createdAt else use.createdAt)
  {
    assert [use, result][1..] == [result] && [result, use][1..] == [use] && [use][1..] == [] && [result][1..] == [];
    assert Sort(Before, [result]) == [result] && Sort(Before, [use]) == [use];
    assert Sort(Before, [use, result]) == [use, result] && Sort(Before, [result, use]) == [use, result];
    assert FoldOne([], use) == [use] && FoldOne([use], result) == [Update(use, result)];
    assert FoldAll([], [use, result]) == FoldAll([use], [result]) == FoldAll([Update(use, result)], []);
  }
}
