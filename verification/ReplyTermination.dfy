// When the bundling of replies ends, ids unique or not: the queue of a top-level comment
// empties exactly when no id below it is found below itself, however far down it stands.
module ReplyTermination {
  import opened ReplyThreads

  // From id `a`, taking a reply `k` times ends at id `b`.
  ghost predicate Steps(entries: seq<Entry>, a: string, b: string, k: nat)
    decreases k
  {
    if k == 0 then a == b
    else exists kid :: kid in Kids(CommentIds(entries), entries, a) && Steps(entries, kid.id, b, k - 1)
  }

  ghost predicate LoopFrom(entries: seq<Entry>, id: string, b: string, j: nat, k: nat) {
    k > 0 && Steps(entries, id, b, j) && Steps(entries, b, b, k)
  }

  ghost predicate LoopBelow(entries: seq<Entry>, id: string) {
    exists b, j: nat, k: nat :: LoopFrom(entries, id, b, j, k)
  }

  // ---------------------------------------------------------------- a loop never ends

  lemma StepOn(entries: seq<Entry>, queue: seq<string>, x: string, b: string, j: nat) returns (next: string)
    requires queue != [] && x in queue && j > 0 && Steps(entries, x, b, j)
    ensures next in NextQueue(entries, queue)
    ensures if queue[0] == x then Steps(entries, next, b, j - 1) else next == x
  {
    var kids := Kids(CommentIds(entries), entries, queue[0]);
    var rest := NextQueue(entries, queue);
    if queue[0] == x {
      var kid :| kid in kids && Steps(entries, kid.id, b, j - 1);
      var i :| 0 <= i < |kids| && kids[i] == kid;
      assert rest[|queue| - 1 + i] == kid.id;
      next := kid.id;
    } else {
      var i :| 0 <= i < |queue| && queue[i] == x;
      assert rest[i - 1] == x;
      next := x;
    }
  }

  lemma {:induction false} LoopNeverEnds(
    entries: seq<Entry>, queue: seq<string>, x: string, b: string, j: nat, k: nat, n: nat)
    requires x in queue && LoopFrom(entries, x, b, j, k)
    ensures QueueAfter(entries, queue, n) != []
    decreases n
  {
    if n > 0 {
      // at the loop itself, go round it once
      var steps := if j > 0 then j else k;
      var next := StepOn(entries, queue, x, b, steps);
      LoopNeverEnds(entries, NextQueue(entries, queue), next, b, if queue[0] == x then steps - 1 else j, k, n - 1);
    }
  }

  // ---------------------------------------------------------------- without one it ends

  // No chain of replies below the id is longer than `d`.
  ghost predicate Shallow(entries: seq<Entry>, id: string, d: nat)
    decreases d
  {
    forall kid :: kid in Kids(CommentIds(entries), entries, id) ==> d > 0 && Shallow(entries, kid.id, d - 1)
  }

  // The turns that an id costs.
  ghost function Weight(entries: seq<Entry>, id: string, d: nat): (w: nat)
    ensures w > 0
    decreases d, 0
  {
    1 + if d == 0 then 0 else WeightOf(entries, IdsOf(Kids(CommentIds(entries), entries, id)), d - 1)
  }

  ghost function WeightOf(entries: seq<Entry>, list: seq<string>, d: nat): nat
    decreases d, |list|
  {
    if list == [] then 0 else Weight(entries, list[0], d) + WeightOf(entries, list[1..], d)
  }

  // The same for a queue whose ids have different depths below them.
  ghost function QueueWeight(entries: seq<Entry>, queue: seq<string>, depths: seq<nat>): nat
    requires |queue| == |depths|
  {
    if queue == [] then 0 else Weight(entries, queue[0], depths[0]) + QueueWeight(entries, queue[1..], depths[1..])
  }

  lemma {:induction false} QueueWeightGrows(
    entries: seq<Entry>, queue: seq<string>, depths: seq<nat>, list: seq<string>, d: nat)
    requires |queue| == |depths|
    ensures QueueWeight(entries, queue + list, depths + seq(|list|, i => d))
         == QueueWeight(entries, queue, depths) + WeightOf(entries, list, d)
    decreases |queue| + |list|
  {
    var more := seq(|list|, i => d);
    if queue != [] {
      assert (queue + list)[0] == queue[0] && (queue + list)[1..] == queue[1..] + list;
      assert (depths + more)[0] == depths[0] && (depths + more)[1..] == depths[1..] + more;
      QueueWeightGrows(entries, queue[1..], depths[1..], list, d);
    } else if list != [] {
      assert queue + list == list && depths + more == more;
      assert more[1..] == seq(|list| - 1, i => d);
      QueueWeightGrows(entries, [], [], list[1..], d);
      assert [] + list[1..] == list[1..] && [] + more[1..] == more[1..];
    } else {
      assert queue + list == [];
    }
  }

  ghost predicate AllShallow(entries: seq<Entry>, queue: seq<string>, depths: seq<nat>) {
    |queue| == |depths| && forall i :: 0 <= i < |queue| ==> Shallow(entries, queue[i], depths[i])
  }

  // The depths after one turn.
  ghost function NextDepths(entries: seq<Entry>, queue: seq<string>, depths: seq<nat>): seq<nat>
    requires queue != [] && |queue| == |depths|
  {
    depths[1..]
    + seq(|Kids(CommentIds(entries), entries, queue[0])|, i => if depths[0] == 0 then 0 else depths[0] - 1)
  }

  lemma FirstIsIn<T>(list: seq<T>)
    ensures list != [] ==> list[0] in list
  {
  }

  lemma TurnCostsOne(entries: seq<Entry>, queue: seq<string>, depths: seq<nat>)
    requires queue != [] && AllShallow(entries, queue, depths)
    ensures AllShallow(entries, NextQueue(entries, queue), NextDepths(entries, queue, depths))
    ensures QueueWeight(entries, NextQueue(entries, queue), NextDepths(entries, queue, depths)) + 1
         == QueueWeight(entries, queue, depths)
  {
    var kids := Kids(CommentIds(entries), entries, queue[0]);
    var d: nat := if depths[0] == 0 then 0 else depths[0] - 1;
    var next, depths' := NextQueue(entries, queue), NextDepths(entries, queue, depths);
    forall i | 0 <= i < |next| ensures Shallow(entries, next[i], depths'[i]) {
      if i < |queue| - 1 {
        assert next[i] == queue[i + 1] && depths'[i] == depths[i + 1];
      } else {
        assert kids[i - (|queue| - 1)] in kids;
      }
    }
    assert seq(|IdsOf(kids)|, i => d) == seq(|kids|, i => d);
    QueueWeightGrows(entries, queue[1..], depths[1..], IdsOf(kids), d);
    FirstIsIn(kids);
  }

  lemma {:induction false} ShallowEnds(entries: seq<Entry>, queue: seq<string>, depths: seq<nat>)
    requires AllShallow(entries, queue, depths)
    ensures QueueAfter(entries, queue, QueueWeight(entries, queue, depths)) == []
    decreases QueueWeight(entries, queue, depths)
  {
    if queue != [] {
      TurnCostsOne(entries, queue, depths);
      ShallowEnds(entries, NextQueue(entries, queue), NextDepths(entries, queue, depths));
    }
  }

  // A chain of replies, by ids.
  ghost predicate IdPath(entries: seq<Entry>, path: seq<string>) {
    && path != []
    && (forall i :: 0 <= i < |path| ==> path[i] in CommentIds(entries))
    && (forall i, j :: 0 <= i < j < |path| ==> Steps(entries, path[i], path[j], j - i))
  }

  lemma {:induction false} StepsThenReply(entries: seq<Entry>, a: string, b: string, k: nat, kid: Entry)
    requires Steps(entries, a, b, k) && kid in Kids(CommentIds(entries), entries, b)
    ensures Steps(entries, a, kid.id, k + 1)
    decreases k
  {
    if k == 0 {
      assert Steps(entries, kid.id, kid.id, 0);
    } else {
      var first :| first in Kids(CommentIds(entries), entries, a) && Steps(entries, first.id, b, k - 1);
      StepsThenReply(entries, first.id, b, k - 1, kid);
    }
  }

  lemma PathGrows(entries: seq<Entry>, path: seq<string>, kid: Entry)
    requires IdPath(entries, path) && kid in Kids(CommentIds(entries), entries, path[|path| - 1])
    ensures IdPath(entries, path + [kid.id])
  {
    var last, longer := |path| - 1, path + [kid.id];
    KidsAre(CommentIds(entries), entries, path[last]);
    forall i | 0 <= i < |path| ensures Steps(entries, path[i], kid.id, |path| - i) {
      assert Steps(entries, path[last], path[last], 0);
      StepsThenReply(entries, path[i], path[last], last - i, kid);
    }
  }

  lemma {:induction false} DistinctBounded(path: seq<string>, ids: set<string>)
    requires forall i, j :: 0 <= i < j < |path| ==> path[i] != path[j]
    requires forall i :: 0 <= i < |path| ==> path[i] in ids
    ensures |path| <= |ids|
  {
    if path != [] {
      var most, last := path[..|path| - 1], path[|path| - 1];
      DistinctBounded(most, ids - {last});
    }
  }

  lemma PathIsBounded(entries: seq<Entry>, path: seq<string>)
    requires IdPath(entries, path) && !LoopBelow(entries, path[0])
    ensures |path| <= |CommentIds(entries)|
  {
    forall i, j | 0 <= i < j < |path| ensures path[i] != path[j] {
      assert Steps(entries, path[0], path[0], 0);
      assert Steps(entries, path[0], path[i], i);
      assert Steps(entries, path[i], path[j], j - i);
      assert !LoopFrom(entries, path[0], path[i], i, j - i);
    }
    DistinctBounded(path, CommentIds(entries));
  }

  lemma {:induction false} LooplessIsShallow(entries: seq<Entry>, path: seq<string>)
    requires IdPath(entries, path) && !LoopBelow(entries, path[0])
    ensures |path| <= |CommentIds(entries)|
    ensures Shallow(entries, path[|path| - 1], |CommentIds(entries)| - |path|)
    decreases |CommentIds(entries)| - |path|
  {
    PathIsBounded(entries, path);
    var last, d: nat := path[|path| - 1], |CommentIds(entries)| - |path|;
    forall kid | kid in Kids(CommentIds(entries), entries, last) ensures d > 0 && Shallow(entries, kid.id, d - 1) {
      PathGrows(entries, path, kid);
      PathIsBounded(entries, path + [kid.id]);
      LooplessIsShallow(entries, path + [kid.id]);
    }
    assert Shallow(entries, last, d);
  }

  // The queue of a comment ends if and only if there is no loop below it.
  lemma EndsIffLoopless(entries: seq<Entry>, id: string)
    requires id in CommentIds(entries)
    ensures Ends(entries, [id]) <==> !LoopBelow(entries, id)
  {
    if LoopBelow(entries, id) {
      var b, j: nat, k: nat :| LoopFrom(entries, id, b, j, k);
      forall n: nat ensures QueueAfter(entries, [id], n) != [] {
        LoopNeverEnds(entries, [id], id, b, j, k, n);
      }
    } else {
      LooplessIsShallow(entries, [id]);
      var depths: seq<nat> := [|CommentIds(entries)| - 1];
      ShallowEnds(entries, [id], depths);
    }
  }

  // So bundling returns exactly for timelines with no loop below a top-level comment.
  lemma BundlingEndsIff(entries: seq<Entry>)
    ensures var tops := TopLevel(CommentIds(entries), entries);
      AllEnd(entries, tops)
      <==> forall i :: 0 <= i < |tops| && tops[i].kind == Comment ==> !LoopBelow(entries, tops[i].id)
  {
    var tops := TopLevel(CommentIds(entries), entries);
    TopLevelAreTop(entries);
    forall i | 0 <= i < |tops| && tops[i].kind == Comment
      ensures EndsAt(entries, tops[i]) <==> !LoopBelow(entries, tops[i].id)
    {
      assert tops[i] in tops;
      EndsIffLoopless(entries, tops[i].id);
    }
  }

  // The smallest timeline on which it does not return: a comment, and a reply to it that has
  // the same id.
  lemma TwinNeverEnds(top: Entry, twin: Entry)
    requires top.kind == Comment && twin.kind == Comment && top.parentId.None? && twin.parentId.Some?
    requires top.id == twin.id == twin.parentId.value != ""
    ensures var entries := [top, twin];
      TopLevel(CommentIds(entries), entries) == [top] && !Ends(entries, [top.id])
  {
    var entries := [top, twin];
    var ids := CommentIds(entries);
    assert entries[0] == top && entries[1] == twin && top in entries && twin in entries;
    assert entries[..1] == [top] && [top][..0] == [];
    assert TopLevel(ids, [top]) == TopLevel(ids, []) + [top];
    KidsAre(ids, entries, top.id);
    assert Steps(entries, twin.id, top.id, 0);
    assert Steps(entries, top.id, top.id, 1);
    assert LoopFrom(entries, top.id, top.id, 0, 1);
    EndsIffLoopless(entries, top.id);
  }
}
