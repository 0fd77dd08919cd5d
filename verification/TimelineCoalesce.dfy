// Coalescing repeated activities of the mobile timeline (apps/mobile/lib/timeline-coalesce.ts):
// a row stands for a run of neighbouring entries and counts them.
module TimelineCoalesce {
  import opened Options

  datatype Kind = Activity | Comment

  // `time` is the parsed created_at (None when it does not parse); `body` stands for the
  // fields that are only carried along.
  datatype Entry = Entry(
    kind: Kind, action: Option<string>, actorType: string, actorId: string, time: Option<int>,
    count: Option<int>, body: string)

  const COALESCE_MS: int := 120000

  predicate NoTimeLimit(action: Option<string>) { action.GetOr("") in {"task_completed", "task_failed"} }

  predicate NeverCoalesces(action: Option<string>) { action.GetOr("") == "team_leader_evaluated" }

  function Abs(n: int): int { if n < 0 then -n else n }

  // A comparison with a time that does not parse is false.
  predicate Near(a: Option<int>, b: Option<int>) { a.Some? && b.Some? && Abs(a.value - b.value) <= COALESCE_MS }

  predicate SameActivity(prev: Entry, entry: Entry) {
    && entry.kind == Activity && prev.kind == Activity
    && prev.action == entry.action && prev.actorType == entry.actorType && prev.actorId == entry.actorId
  }

  predicate Mergeable(prev: Entry, entry: Entry) {
    && !NeverCoalesces(entry.action) && SameActivity(prev, entry)
    && (NoTimeLimit(entry.action) || Near(entry.time, prev.time))
  }

  // One turn of the loop.
  function Push(out: seq<Entry>, entry: Entry): seq<Entry> {
    if out != [] && Mergeable(out[|out| - 1], entry) then
      out[..|out| - 1] + [entry.(count := Some(out[|out| - 1].count.GetOr(1) + 1))]
    else out + [entry]
  }

  function PushAll(out: seq<Entry>, entries: seq<Entry>): seq<Entry>
    decreases |entries|
  {
    if entries == [] then out else PushAll(Push(out, entries[0]), entries[1..])
  }

  function Coalesced(entries: seq<Entry>): seq<Entry> { PushAll([], entries) }

  method CoalesceTimeline(entries: seq<Entry>) returns (out: seq<Entry>)
    ensures out == Coalesced(entries)
  {
    out := [];
    for i := 0 to |entries|
      invariant PushAll(out, entries[i..]) == PushAll([], entries)
    {
      var entry := entries[i];
      assert entries[i..][0] == entry && entries[i..][1..] == entries[i + 1..];
      if entry.kind == Activity {
        if |out| > 0 && !NeverCoalesces(entry.action) && SameActivity(out[|out| - 1], entry)
          && (NoTimeLimit(entry.action) || Near(entry.time, out[|out| - 1].time)) {
          var prev := out[|out| - 1];
          out := out[..|out| - 1] + [entry.(count := Some(prev.count.GetOr(1) + 1))];
          continue;
        }
      }
      out := out + [entry];
    }
    assert entries[|entries|..] == [];
  }

  // ---------------------------------------------------------------- maximal runs

  function Flatten(runs: seq<seq<Entry>>): seq<Entry> {
    if runs == [] then [] else runs[0] + Flatten(runs[1..])
  }

  // Consecutive entries of a run merge ...
  ghost predicate Run(run: seq<Entry>) {
    run != [] && forall i, j :: 0 <= i < |run| && j == i + 1 && j < |run| ==> Mergeable(run[i], run[j])
  }

  // ... and the last of a run does not merge with the first of the next.
  ghost predicate MaximalRuns(runs: seq<seq<Entry>>) {
    && (forall r :: 0 <= r < |runs| ==> Run(runs[r]))
    && (forall q, r :: 0 <= q < |runs| && r == q + 1 && r < |runs| ==>
          !Mergeable(runs[q][|runs[q]| - 1], runs[r][0]))
  }

  // A run is shown by its newest entry with the number of entries it stands for.
  function Shown(run: seq<Entry>): Entry
    requires run != []
  {
    if |run| == 1 then run[0]
    else run[|run| - 1].(count := Some(run[0].count.GetOr(1) + |run| - 1))
  }

  function AllShown(runs: seq<seq<Entry>>): seq<Entry>
    requires forall r :: 0 <= r < |runs| ==> runs[r] != []
  {
    seq(|runs|, r requires 0 <= r < |runs| => Shown(runs[r]))
  }

  lemma ShownMerges(run: seq<Entry>, entry: Entry)
    requires run != []
    ensures Mergeable(Shown(run), entry) <==> Mergeable(run[|run| - 1], entry)
  {
  }

  // The rest of a run is absorbed by the row that shows its beginning.
  lemma {:induction false} RestOfRun(out: seq<Entry>, run: seq<Entry>, k: nat, rest: seq<Entry>)
    requires 0 < k <= |run| && Run(run)
    ensures PushAll(out + [Shown(run[..k])], run[k..] + rest) == PushAll(out + [Shown(run)], rest)
    decreases |run| - k
  {
    if k == |run| {
      assert run[..k] == run && run[k..] + rest == rest;
    } else {
      var entries, now := run[k..] + rest, out + [Shown(run[..k])];
      assert entries[0] == run[k] && entries[1..] == run[k + 1..] + rest;
      assert run[..k][k - 1] == run[k - 1] && run[..k][0] == run[0];
      ShownMerges(run[..k], run[k]);
      assert run[..k + 1][k] == run[k] && run[..k + 1][0] == run[0];
      assert now[..|now| - 1] == out;
      assert Push(now, run[k]) == out + [Shown(run[..k + 1])];
      RestOfRun(out, run, k + 1, rest);
    }
  }

  lemma ShownInTurn(out: seq<Entry>, runs: seq<seq<Entry>>)
    requires forall r :: 0 <= r < |runs| ==> runs[r] != []
    requires runs != []
    ensures (out + [Shown(runs[0])]) + AllShown(runs[1..]) == out + AllShown(runs)
    ensures var next := out + [Shown(runs[0])]; next[|next| - 1] == Shown(runs[0])
  {
    assert AllShown(runs) == [Shown(runs[0])] + AllShown(runs[1..]);
  }

  lemma {:induction false} RunsAreShown(out: seq<Entry>, runs: seq<seq<Entry>>)
    requires MaximalRuns(runs)
    requires out == [] || runs == [] || !Mergeable(out[|out| - 1], runs[0][0])
    ensures PushAll(out, Flatten(runs)) == out + AllShown(runs)
    decreases |runs|
  {
    if runs == [] {
      assert out + AllShown(runs) == out;
    } else {
      NextRun(runs);
      ShownInTurn(out, runs);
      PushRun(out, runs[0], Flatten(runs[1..]));
      RunsAreShown(out + [Shown(runs[0])], runs[1..]);
    }
  }

  // A whole run is pushed as one row.
  lemma PushRun(out: seq<Entry>, run: seq<Entry>, rest: seq<Entry>)
    requires Run(run)
    requires out == [] || !Mergeable(out[|out| - 1], run[0])
    ensures PushAll(out, run + rest) == PushAll(out + [Shown(run)], rest)
  {
    assert (run + rest)[0] == run[0] && (run + rest)[1..] == run[1..] + rest;
    assert run[..1] == [run[0]];
    assert Push(out, run[0]) == out + [Shown(run[..1])];
    RestOfRun(out, run, 1, rest);
  }

  lemma NextRun(runs: seq<seq<Entry>>)
    requires MaximalRuns(runs) && runs != []
    ensures MaximalRuns(runs[1..])
    ensures |runs| > 1 ==> !Mergeable(Shown(runs[0]), runs[1][0])
  {
    var rest := runs[1..];
    assert forall r :: 0 <= r < |rest| ==> rest[r] == runs[r + 1];
    if |runs| > 1 { ShownMerges(runs[0], runs[1][0]); }
  }

  // Coalescing shows the timeline's partition into maximal runs, one row per run.
  lemma CoalescingShowsRuns(runs: seq<seq<Entry>>)
    requires MaximalRuns(runs)
    ensures Coalesced(Flatten(runs)) == AllShown(runs)
  {
    RunsAreShown([], runs);
    assert [] + AllShown(runs) == AllShown(runs);
  }

  lemma JoinRun(first: Entry, run: seq<Entry>)
    requires Run(run) && Mergeable(first, run[0])
    ensures Run([first] + run)
  {
    var longer := [first] + run;
    forall i, j | 0 <= i < |longer| && j == i + 1 && j < |longer| ensures Mergeable(longer[i], longer[j]) {
      if i > 0 { assert longer[i] == run[i - 1] && longer[j] == run[i]; }
    }
  }

  lemma JoinFirstRun(first: Entry, rest: seq<seq<Entry>>, runs: seq<seq<Entry>>)
    requires MaximalRuns(rest) && rest != [] && Mergeable(first, rest[0][0])
    requires |runs| == |rest| && runs[0] == [first] + rest[0]
    requires forall r :: 0 < r < |runs| ==> runs[r] == rest[r]
    ensures MaximalRuns(runs)
  {
    JoinRun(first, rest[0]);
    forall q, r | 0 <= q < |runs| && r == q + 1 && r < |runs|
      ensures !Mergeable(runs[q][|runs[q]| - 1], runs[r][0])
    {
      assert runs[q][|runs[q]| - 1] == rest[q][|rest[q]| - 1];
    }
  }

  lemma FlattenFirst(first: Entry, rest: seq<seq<Entry>>, runs: seq<seq<Entry>>)
    requires rest != [] && runs != [] && runs[0] == [first] + rest[0] && runs[1..] == rest[1..]
    ensures Flatten(runs) == [first] + Flatten(rest)
  {
  }

  // Every timeline has such a partition.
  lemma {:induction false} RunsExist(entries: seq<Entry>) returns (runs: seq<seq<Entry>>)
    ensures MaximalRuns(runs) && Flatten(runs) == entries
    decreases |entries|
  {
    if entries == [] {
      runs := [];
    } else {
      var rest := RunsExist(entries[1..]);
      assert entries == [entries[0]] + entries[1..];
      if rest != [] && Mergeable(entries[0], rest[0][0]) {
        runs := [[entries[0]] + rest[0]] + rest[1..];
        assert runs[1..] == rest[1..];
        JoinFirstRun(entries[0], rest, runs);
        FlattenFirst(entries[0], rest, runs);
      } else {
        runs := [[entries[0]]] + rest;
        assert runs[1..] == rest;
        assert forall r :: 0 < r < |runs| ==> runs[r] == rest[r - 1];
      }
    }
  }

  // ---------------------------------------------------------------- counts

  function Total(rows: seq<Entry>): int {
    if rows == [] then 0 else rows[0].count.GetOr(1) + Total(rows[1..])
  }

  lemma {:induction false} TotalOfShown(runs: seq<seq<Entry>>)
    requires forall r :: 0 <= r < |runs| ==> runs[r] != []
    requires forall e :: e in Flatten(runs) ==> e.count == None
    ensures Total(AllShown(runs)) == |Flatten(runs)|
  {
    if runs != [] {
      assert runs[0][0] in Flatten(runs);
      assert AllShown(runs)[1..] == AllShown(runs[1..]);
      TotalOfShown(runs[1..]);
      assert runs[0][|runs[0]| - 1] in Flatten(runs);
    }
  }

  // No entry is lost from the count.
  lemma CountsAddUp(entries: seq<Entry>)
    requires forall e :: e in entries ==> e.count == None
    ensures Total(Coalesced(entries)) == |entries|
  {
    var runs := RunsExist(entries);
    CoalescingShowsRuns(runs);
    TotalOfShown(runs);
  }

  // ---------------------------------------------------------------- coalescing again

  // Times that parse never run backwards.
  predicate Ascending(entries: seq<Entry>) {
    forall i, j :: 0 <= i < j < |entries| && entries[i].time.Some? && entries[j].time.Some?
      ==> entries[i].time.value <= entries[j].time.value
  }

  ghost predicate Separated(rows: seq<Entry>) {
    forall i, j :: 0 <= i < |rows| && j == i + 1 && j < |rows| ==> !Mergeable(rows[i], rows[j])
  }

  lemma {:induction false} SeparatedStays(out: seq<Entry>, rows: seq<Entry>)
    requires Separated(out + rows)
    ensures PushAll(out, rows) == out + rows
    decreases |rows|
  {
    if rows != [] {
      if out != [] {
        assert (out + rows)[|out| - 1] == out[|out| - 1] && (out + rows)[|out|] == rows[0];
      }
      assert (out + [rows[0]]) + rows[1..] == out + rows;
      SeparatedStays(out + [rows[0]], rows[1..]);
    } else {
      assert out + rows == out;
    }
  }

  lemma {:induction false} RunIsOneActivity(run: seq<Entry>, i: nat)
    requires i < |run| && Run(run)
    ensures i > 0 ==> !NeverCoalesces(run[0].action) && SameActivity(run[0], run[i])
    ensures i > 0 && !NoTimeLimit(run[0].action) ==> run[0].time.Some? && run[i].time.Some?
  {
    if i > 0 { assert Mergeable(run[i - 1], run[i]); }
    if i > 1 { RunIsOneActivity(run, i - 1); }
  }

  // Two neighbouring runs do not merge by their last entries either: the later run only
  // moves away in time.
  lemma NeighboursStayApart(a: Entry, run: seq<Entry>)
    requires Run(run) && !Mergeable(a, run[0])
    requires Ascending([a] + run)
    ensures !Mergeable(a, run[|run| - 1])
  {
    var all, n := [a] + run, |run| - 1;
    RunIsOneActivity(run, n);
    assert all[0] == a && all[1] == run[0] && all[n + 1] == run[n];
  }

  lemma {:induction false} FlattenSplits(runs: seq<seq<Entry>>, r: nat) returns (at: nat)
    requires 0 < r < |runs| && forall k :: 0 <= k < |runs| ==> runs[k] != []
    ensures at + 1 + |runs[r]| <= |Flatten(runs)|
    ensures Flatten(runs)[at] == runs[r - 1][|runs[r - 1]| - 1]
    ensures forall i :: 0 <= i < |runs[r]| ==> Flatten(runs)[at + 1 + i] == runs[r][i]
    decreases |runs|
  {
    var rest := Flatten(runs[1..]);
    assert Flatten(runs) == runs[0] + rest;
    if r == 1 {
      at := |runs[0]| - 1;
      assert rest == runs[1] + Flatten(runs[1..][1..]);
    } else {
      var inner := FlattenSplits(runs[1..], r - 1);
      at := |runs[0]| + inner;
    }
  }

  lemma EndsStayApart(entries: seq<Entry>, before: seq<Entry>, run: seq<Entry>, at: nat)
    requires Ascending(entries) && at + 1 + |run| <= |entries|
    requires Run(before) && Run(run) && !Mergeable(before[|before| - 1], run[0])
    requires entries[at] == before[|before| - 1]
    requires forall i :: 0 <= i < |run| ==> entries[at + 1 + i] == run[i]
    ensures !Mergeable(before[|before| - 1], run[|run| - 1])
  {
    var last := before[|before| - 1];
    var all := [last] + run;
    assert forall i :: 0 <= i < |all| ==> all[i] == entries[at + i];
    assert Ascending(all);
    NeighboursStayApart(last, run);
  }

  lemma {:induction false} PushingShortens(out: seq<Entry>, rows: seq<Entry>)
    ensures |PushAll(out, rows)| <= |out| + |rows|
    decreases |rows|
  {
    if rows != [] { PushingShortens(Push(out, rows[0]), rows[1..]); }
  }

  // Rows that all stay are rows of which no two neighbours merge.
  lemma {:induction false} FullLengthIsSeparated(out: seq<Entry>, rows: seq<Entry>)
    requires |PushAll(out, rows)| == |out| + |rows|
    ensures out != [] && rows != [] ==> !Mergeable(out[|out| - 1], rows[0])
    ensures Separated(rows)
    decreases |rows|
  {
    if rows != [] {
      var next := Push(out, rows[0]);
      PushingShortens(next, rows[1..]);
      FullLengthIsSeparated(next, rows[1..]);
      forall i, j | 0 <= i < |rows| && j == i + 1 && j < |rows| ensures !Mergeable(rows[i], rows[j]) {
        if i > 0 { assert rows[i] == rows[1..][i - 1] && rows[j] == rows[1..][i]; }
      }
    }
  }

  lemma SeparatedIffStays(rows: seq<Entry>)
    ensures Coalesced(rows) == rows <==> Separated(rows)
  {
    assert [] + rows == rows;
    if Separated(rows) { SeparatedStays([], rows); }
    if Coalesced(rows) == rows { FullLengthIsSeparated([], rows); }
  }

  // The last entry of every run stays apart from the last entry of the next one.
  ghost predicate EndsApart(runs: seq<seq<Entry>>)
    requires forall r :: 0 <= r < |runs| ==> runs[r] != []
  {
    forall q, r :: 0 <= q < |runs| && r == q + 1 && r < |runs| ==>
      !Mergeable(runs[q][|runs[q]| - 1], runs[r][|runs[r]| - 1])
  }

  lemma ShownBothEnds(before: seq<Entry>, run: seq<Entry>)
    requires before != [] && run != []
    ensures Mergeable(Shown(before), Shown(run)) <==> Mergeable(before[|before| - 1], run[|run| - 1])
  {
    ShownMerges(before, Shown(run));
  }

  // A second pass changes nothing exactly when no two neighbouring runs merge by their last
  // entries: by their last and first entries they never do.
  lemma CoalescingTwice(runs: seq<seq<Entry>>)
    requires MaximalRuns(runs)
    ensures Coalesced(Coalesced(Flatten(runs))) == Coalesced(Flatten(runs)) <==> EndsApart(runs)
  {
    CoalescingShowsRuns(runs);
    var rows := AllShown(runs);
    SeparatedIffStays(rows);
    forall q, r | 0 <= q < |runs| && r == q + 1 && r < |runs|
      ensures Mergeable(rows[q], rows[r]) <==> Mergeable(runs[q][|runs[q]| - 1], runs[r][|runs[r]| - 1])
    {
      ShownBothEnds(runs[q], runs[r]);
    }
  }

  // On a timeline in time order that is always so.
  lemma InTimeOrderOnceIsEnough(entries: seq<Entry>)
    requires Ascending(entries)
    ensures Coalesced(Coalesced(entries)) == Coalesced(entries)
  {
    var runs := RunsExist(entries);
    CoalescingTwice(runs);
    forall q, r | 0 <= q < |runs| && r == q + 1 && r < |runs|
      ensures !Mergeable(runs[q][|runs[q]| - 1], runs[r][|runs[r]| - 1])
    {
      var at := FlattenSplits(runs, r);
      EndsStayApart(entries, runs[q], runs[r], at);
    }
  }

  lemma FirstPassKeepsTwo(a: Entry, b: Entry, c: Entry)
    requires SameActivity(a, b) && SameActivity(b, c) && !NeverCoalesces(a.action) && !NoTimeLimit(a.action)
    requires a.time == Some(0) && b.time == Some(200000) && c.time == Some(100000)
    ensures Coalesced([a, b, c]) == [a, c.(count := Some(b.count.GetOr(1) + 1))]
  {
    var entries, merged := [a, b, c], c.(count := Some(b.count.GetOr(1) + 1));
    assert entries[1..] == [b, c] && [b, c][1..] == [c] && [c][1..] == [];
    assert Push([], a) == [a] && Push([a], b) == [a, b];
    assert [a, b][..1] == [a];
    assert Push([a, b], c) == [a, merged];
    assert Coalesced(entries) == PushAll([a], [b, c]) == PushAll([a, b], [c]) == PushAll([a, merged], []);
  }

  lemma TwoNeighboursMerge(a: Entry, c: Entry)
    requires SameActivity(a, c) && !NeverCoalesces(a.action) && !NoTimeLimit(a.action)
    requires a.time == Some(0) && c.time == Some(100000)
    ensures |Coalesced([a, c])| == 1
  {
    assert [a, c][1..] == [c] && [c][1..] == [] && [a][..0] == [];
    assert Push([], a) == [a] && Push([a], c) == [c.(count := Some(a.count.GetOr(1) + 1))];
    assert Coalesced([a, c]) == PushAll([a], [c]) == PushAll(Push([a], c), []);
  }

  // Out of order it may: the latest of three activities stands in the middle, too far from
  // the first to merge with it, and the third is near both.
  lemma OutOfOrderCoalescesAgain(a: Entry, b: Entry, c: Entry)
    requires SameActivity(a, b) && SameActivity(b, c) && !NeverCoalesces(a.action) && !NoTimeLimit(a.action)
    requires a.time == Some(0) && b.time == Some(200000) && c.time == Some(100000)
    ensures |Coalesced([a, b, c])| == 2 && |Coalesced(Coalesced([a, b, c]))| == 1
  {
    FirstPassKeepsTwo(a, b, c);
    TwoNeighboursMerge(a, c.(count := Some(b.count.GetOr(1) + 1)));
  }

  // ---------------------------------------------------------------- two neighbours

  // Two neighbours become one row exactly when both are the same action of the same actor, the
  // action is not a team leader's evaluation, and it is a finished or failed task or the two
  // are at most two minutes apart. The row is the later entry with the count.
  lemma NeighboursMergeIff(a: Entry, b: Entry)
    ensures var merged :=
        && a.kind == Activity && b.kind == Activity
        && a.action == b.action && a.actorType == b.actorType && a.actorId == b.actorId
        && b.action != Some("team_leader_evaluated")
        && (b.action == Some("task_completed") || b.action == Some("task_failed")
            || (a.time.Some? && b.time.Some? && -120000 <= b.time.value - a.time.value <= 120000));
      Coalesced([a, b]) ==
        if merged then [b.(count := Some((if a.count.Some? then a.count.value else 1) + 1))] else [a, b]
  {
    assert [a, b][1..] == [b] && [b][1..] == [] && [a][..0] == [];
    assert Push([], a) == [a] && Coalesced([a, b]) == PushAll([a], [b]) == PushAll(Push([a], b), []);
    WordsDiffer(b.action);
  }

  lemma WordsDiffer(action: Option<string>)
    ensures NeverCoalesces(action) <==> action == Some("team_leader_evaluated")
    ensures NoTimeLimit(action) <==> action == Some("task_completed") || action == Some("task_failed")
  {
    assert |"team_leader_evaluated"| == 21 && |"task_completed"| == 14 && |"task_failed"| == 11;
  }
}
