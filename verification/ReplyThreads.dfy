// Bundling comment threads for the flat mobile timeline (apps/mobile/lib/timeline-thread.ts):
// every top-level entry becomes a row and carries its whole descendant chain, the replies of
// one level before those of the next.
module ReplyThreads {
  import opened Options

  datatype Kind = Comment | Activity

  datatype Entry = Entry(kind: Kind, id: string, parentId: Option<string>, content: string)

  datatype Row = Row(entry: Entry, replies: seq<Entry>)

  function CommentIds(entries: seq<Entry>): set<string> {
    set e | e in entries && e.kind == Comment :: e.id
  }

  ghost predicate UniqueCommentIds(entries: seq<Entry>) {
    forall i, j :: 0 <= i < j < |entries| && entries[i].kind == Comment && entries[j].kind == Comment
      ==> entries[i].id != entries[j].id
  }

  // A comment whose parent comment is loaded; any other entry is top level, orphans included.
  predicate IsReply(ids: set<string>, e: Entry) {
    e.kind == Comment && e.parentId.Some? && e.parentId.value != "" && e.parentId.value in ids
  }

  predicate IsKid(ids: set<string>, parent: string, e: Entry) {
    IsReply(ids, e) && e.parentId.value == parent
  }

  function TopLevel(ids: set<string>, entries: seq<Entry>): seq<Entry> {
    if entries == [] then []
    else
      var rest := TopLevel(ids, entries[..|entries| - 1]);
      var e := entries[|entries| - 1];
      if IsReply(ids, e) then rest else rest + [e]
  }

  function Kids(ids: set<string>, entries: seq<Entry>, parent: string): seq<Entry> {
    if entries == [] then []
    else
      var rest := Kids(ids, entries[..|entries| - 1], parent);
      var e := entries[|entries| - 1];
      if IsKid(ids, parent, e) then rest + [e] else rest
  }

  // The kids of every entry of a list, in the order of the list.
  function KidsOfAll(ids: set<string>, entries: seq<Entry>, list: seq<Entry>): seq<Entry> {
    if list == [] then []
    else KidsOfAll(ids, entries, list[..|list| - 1]) + Kids(ids, entries, list[|list| - 1].id)
  }

  // ---------------------------------------------------------------- basic facts

  lemma {:induction false} TopLevelAre(ids: set<string>, entries: seq<Entry>)
    ensures forall e :: multiset(TopLevel(ids, entries))[e]
              == if IsReply(ids, e) then 0 else multiset(entries)[e]
  {
    if entries != [] {
      TopLevelAre(ids, entries[..|entries| - 1]);
      assert entries == entries[..|entries| - 1] + [entries[|entries| - 1]];
    }
  }

  lemma {:induction false} KidsAre(ids: set<string>, entries: seq<Entry>, parent: string)
    ensures forall e :: e in Kids(ids, entries, parent) <==> e in entries && IsKid(ids, parent, e)
  {
    if entries != [] {
      KidsAre(ids, entries[..|entries| - 1], parent);
      assert entries == entries[..|entries| - 1] + [entries[|entries| - 1]];
    }
  }

  lemma {:induction false} KidsOfAllAre(ids: set<string>, entries: seq<Entry>, list: seq<Entry>)
    ensures forall e :: e in KidsOfAll(ids, entries, list) <==>
              (e in entries && IsReply(ids, e) && exists p :: p in list && p.id == e.parentId.value)
  {
    if list != [] {
      var most, last := list[..|list| - 1], list[|list| - 1];
      assert list == most + [last];
      KidsOfAllAre(ids, entries, most);
      KidsAre(ids, entries, last.id);
    }
  }

  predicate DistinctIds(list: seq<Entry>) {
    forall i, j :: 0 <= i < j < |list| ==> list[i].id != list[j].id
  }

  lemma {:induction false} KidsDistinct(ids: set<string>, entries: seq<Entry>, parent: string)
    requires UniqueCommentIds(entries)
    ensures DistinctIds(Kids(ids, entries, parent))
  {
    if entries != [] {
      var most, last := entries[..|entries| - 1], entries[|entries| - 1];
      KidsDistinct(ids, most, parent);
      KidsAre(ids, most, parent);
      forall e | e in most && IsKid(ids, parent, e) && last.kind == Comment ensures e.id != last.id {
        var i :| 0 <= i < |most| && most[i] == e;
        assert entries[i] == e;
      }
      var rest := Kids(ids, most, parent);
      forall j | 0 <= j < |rest| ensures rest[j] in most && IsKid(ids, parent, rest[j]) {
        assert rest[j] in rest;
      }
    }
  }

  lemma SameIdSameComment(entries: seq<Entry>, a: Entry, b: Entry)
    requires UniqueCommentIds(entries)
    requires a in entries && b in entries && a.kind == Comment && b.kind == Comment && a.id == b.id
    ensures a == b
  {
    var i :| 0 <= i < |entries| && entries[i] == a;
    var j :| 0 <= j < |entries| && entries[j] == b;
  }

  lemma {:induction false} DistinctIdsBounded(list: seq<Entry>, ids: set<string>)
    requires DistinctIds(list) && forall e :: e in list ==> e.id in ids
    ensures |list| <= |ids|
  {
    if list != [] {
      var most, last := list[..|list| - 1], list[|list| - 1];
      assert list == most + [last] && last in list;
      forall e | e in most ensures e.id in ids - {last.id} {
        var i :| 0 <= i < |most| && most[i] == e;
        assert list[i] == e && e in list;
      }
      DistinctIdsBounded(most, ids - {last.id});
    }
  }

  // ---------------------------------------------------------------- the breadth-first walk

  // The first `h` entries of the walk have been taken from the queue, and the walk is the
  // start followed by their kids.
  ghost predicate Walking(entries: seq<Entry>, walk: seq<Entry>, h: nat) {
    var ids := CommentIds(entries);
    && h <= |walk| && walk != []
    && !IsReply(ids, walk[0])
    && (forall e :: e in walk ==> e in entries && e.kind == Comment)
    && DistinctIds(walk)
    && walk == [walk[0]] + KidsOfAll(ids, entries, walk[..h])
  }

  lemma WalkStarts(entries: seq<Entry>, t: Entry)
    requires t in entries && t.kind == Comment && !IsReply(CommentIds(entries), t)
    ensures Walking(entries, [t], 0)
  {
    assert [t][..0] == [];
    assert KidsOfAll(CommentIds(entries), entries, [t][..0]) == [];
  }

  // No kid of the next entry has been walked: its only parent is that entry.
  // A walked entry whose parent is the next one to be taken from the queue would be among the
  // kids of an entry taken before.
  lemma WalkedParent(entries: seq<Entry>, walk: seq<Entry>, h: nat, j: nat) returns (i: nat)
    requires Walking(entries, walk, h) && 0 < j < |walk|
    ensures i < h && walk[j].parentId == Some(walk[i].id)
  {
    var ids := CommentIds(entries);
    KidsOfAllAre(ids, entries, walk[..h]);
    assert walk[j] == KidsOfAll(ids, entries, walk[..h])[j - 1];
    var p :| p in walk[..h] && p.id == walk[j].parentId.value;
    i :| 0 <= i < h && walk[i] == p;
  }

  lemma KidsAreNew(entries: seq<Entry>, walk: seq<Entry>, h: nat, kid: Entry)
    requires UniqueCommentIds(entries) && Walking(entries, walk, h) && h < |walk|
    requires kid in Kids(CommentIds(entries), entries, walk[h].id)
    ensures forall j :: 0 <= j < |walk| ==> walk[j].id != kid.id
  {
    KidsAre(CommentIds(entries), entries, walk[h].id);
    forall j | 0 <= j < |walk| ensures walk[j].id != kid.id {
      KidIsNotWalked(entries, walk, h, kid, j);
    }
  }

  lemma KidIsNotWalked(entries: seq<Entry>, walk: seq<Entry>, h: nat, kid: Entry, j: nat)
    requires UniqueCommentIds(entries) && Walking(entries, walk, h) && h < |walk| && j < |walk|
    requires kid in entries && IsKid(CommentIds(entries), walk[h].id, kid)
    ensures walk[j].id != kid.id
  {
    assert walk[j] in walk;
    if j > 0 {
      var i := WalkedParent(entries, walk, h, j);
      assert walk[i].id != walk[h].id;
    }
    if walk[j].id == kid.id { SameIdSameComment(entries, walk[j], kid); }
  }

  lemma NextIdsDiffer(entries: seq<Entry>, walk: seq<Entry>, h: nat)
    requires UniqueCommentIds(entries) && Walking(entries, walk, h) && h < |walk|
    ensures DistinctIds(walk + Kids(CommentIds(entries), entries, walk[h].id))
  {
    var kids := Kids(CommentIds(entries), entries, walk[h].id);
    KidsDistinct(CommentIds(entries), entries, walk[h].id);
    forall i, j | 0 <= i < |walk| && 0 <= j < |kids| ensures walk[i].id != kids[j].id {
      assert kids[j] in kids;
      KidsAreNew(entries, walk, h, kids[j]);
    }
  }

  lemma WalkedSoFar(entries: seq<Entry>, walk: seq<Entry>, h: nat)
    requires h < |walk| && walk == [walk[0]] + KidsOfAll(CommentIds(entries), entries, walk[..h])
    ensures var kids := Kids(CommentIds(entries), entries, walk[h].id);
      walk + kids == [walk[0]] + KidsOfAll(CommentIds(entries), entries, (walk + kids)[..h + 1])
  {
    var ids := CommentIds(entries);
    var kids := Kids(ids, entries, walk[h].id);
    var list := (walk + kids)[..h + 1];
    assert list[..h] == walk[..h] && list[h] == walk[h];
    assert walk + kids == [walk[0]] + (KidsOfAll(ids, entries, walk[..h]) + kids);
  }

  lemma WalkAdvances(entries: seq<Entry>, walk: seq<Entry>, h: nat)
    requires UniqueCommentIds(entries) && Walking(entries, walk, h) && h < |walk|
    ensures Walking(entries, walk + Kids(CommentIds(entries), entries, walk[h].id), h + 1)
  {
    var ids := CommentIds(entries);
    var kids := Kids(ids, entries, walk[h].id);
    var next := walk + kids;
    NextIdsDiffer(entries, walk, h);
    KidsAre(ids, entries, walk[h].id);
    WalkedSoFar(entries, walk, h);
  }

  lemma WalkBounded(entries: seq<Entry>, walk: seq<Entry>, h: nat)
    requires Walking(entries, walk, h)
    ensures |walk| <= |CommentIds(entries)|
  {
    DistinctIdsBounded(walk, CommentIds(entries));
  }

  // The walk ends: every comment enters the queue at most once.
  function Walk(entries: seq<Entry>, walk: seq<Entry>, h: nat): (r: seq<Entry>)
    requires UniqueCommentIds(entries) && Walking(entries, walk, h)
    ensures Walking(entries, r, |r|) && r[0] == walk[0]
    decreases |CommentIds(entries)| - h
  {
    WalkBounded(entries, walk, h);
    if h == |walk| then walk
    else
      WalkAdvances(entries, walk, h);
      Walk(entries, walk + Kids(CommentIds(entries), entries, walk[h].id), h + 1)
  }

  function Replies(entries: seq<Entry>, t: Entry): seq<Entry>
    requires UniqueCommentIds(entries)
    requires t in entries && !IsReply(CommentIds(entries), t)
  {
    if t.kind == Activity then []
    else
      WalkStarts(entries, t);
      Walk(entries, [t], 0)[1..]
  }

  function RowsOf(entries: seq<Entry>, tops: seq<Entry>): seq<Row>
    requires UniqueCommentIds(entries)
    requires forall t :: t in tops ==> t in entries && !IsReply(CommentIds(entries), t)
  {
    seq(|tops|, i requires 0 <= i < |tops| => Row(tops[i], Replies(entries, tops[i])))
  }

  lemma TopLevelInEntries(entries: seq<Entry>)
    ensures var ids := CommentIds(entries);
      forall t :: t in TopLevel(ids, entries) <==> t in entries && !IsReply(ids, t)
  {
    var ids := CommentIds(entries);
    TopLevelAre(ids, entries);
    forall t ensures t in TopLevel(ids, entries) <==> t in entries && !IsReply(ids, t) {
      assert t in TopLevel(ids, entries) <==> multiset(TopLevel(ids, entries))[t] > 0;
      assert t in entries <==> multiset(entries)[t] > 0;
    }
  }

  lemma TopLevelAreTop(entries: seq<Entry>)
    ensures var ids := CommentIds(entries);
      forall t :: t in TopLevel(ids, entries) ==> t in entries && !IsReply(ids, t)
  {
    TopLevelInEntries(entries);
  }

  function Rows(entries: seq<Entry>): seq<Row>
    requires UniqueCommentIds(entries)
  {
    TopLevelAreTop(entries);
    RowsOf(entries, TopLevel(CommentIds(entries), entries))
  }

  // ---------------------------------------------------------------- the loops

  function IdsOf(list: seq<Entry>): seq<string> {
    seq(|list|, i requires 0 <= i < |list| => list[i].id)
  }

  // Pushes every child of one parent to the output and its id to the queue.
  method PushAll(out: seq<Entry>, queue: seq<string>, kids: seq<Entry>)
    returns (out': seq<Entry>, queue': seq<string>)
    ensures out' == out + kids && queue' == queue + IdsOf(kids)
  {
    out', queue' := out, queue;
    for i := 0 to |kids|
      invariant out' == out + kids[..i] && queue' == queue + IdsOf(kids[..i])
    {
      assert kids[..i + 1] == kids[..i] + [kids[i]];
      assert IdsOf(kids[..i + 1]) == IdsOf(kids[..i]) + [kids[i].id];
      out' := out' + [kids[i]];
      queue' := queue' + [kids[i].id];
    }
    assert kids[..|kids|] == kids;
  }

  ghost predicate IsChildIndex(childrenByParent: map<string, seq<Entry>>, ids: set<string>, entries: seq<Entry>) {
    && (forall p :: p in childrenByParent ==> childrenByParent[p] == Kids(ids, entries, p))
    && (forall p :: p !in childrenByParent ==> Kids(ids, entries, p) == [])
  }

  // The queue after one turn, and after `n` turns, of the loop.
  ghost function NextQueue(entries: seq<Entry>, queue: seq<string>): seq<string>
    requires queue != []
  {
    queue[1..] + IdsOf(Kids(CommentIds(entries), entries, queue[0]))
  }

  ghost function QueueAfter(entries: seq<Entry>, queue: seq<string>, n: nat): seq<string>
    decreases n
  {
    if n == 0 || queue == [] then queue else QueueAfter(entries, NextQueue(entries, queue), n - 1)
  }

  // What those turns push to the output.
  ghost function Collected(entries: seq<Entry>, queue: seq<string>, n: nat): seq<Entry>
    decreases n
  {
    if n == 0 || queue == [] then []
    else Kids(CommentIds(entries), entries, queue[0]) + Collected(entries, NextQueue(entries, queue), n - 1)
  }

  ghost predicate Ends(entries: seq<Entry>, queue: seq<string>) {
    exists n: nat :: QueueAfter(entries, queue, n) == []
  }

  ghost function Turns(entries: seq<Entry>, queue: seq<string>): (n: nat)
    requires Ends(entries, queue)
    ensures QueueAfter(entries, queue, n) == []
  {
    var n: nat :| QueueAfter(entries, queue, n) == [];
    n
  }

  ghost predicate EndsAt(entries: seq<Entry>, t: Entry) {
    t.kind == Comment ==> Ends(entries, [t.id])
  }

  // The replies that are bundled with a top-level entry.
  ghost function Bundle(entries: seq<Entry>, t: Entry): seq<Entry>
    requires EndsAt(entries, t)
  {
    if t.kind == Activity then [] else Collected(entries, [t.id], Turns(entries, [t.id]))
  }

  method CollectDescendants(ghost entries: seq<Entry>, childrenByParent: map<string, seq<Entry>>, t: Entry)
    returns (out: seq<Entry>)
    requires t.kind == Comment && EndsAt(entries, t)
    requires IsChildIndex(childrenByParent, CommentIds(entries), entries)
    ensures out == Bundle(entries, t)
  {
    out := [];
    var queue: seq<string> := [t.id];
    ghost var left := Turns(entries, [t.id]);
    while |queue| > 0
      invariant QueueAfter(entries, queue, left) == []
      invariant out + Collected(entries, queue, left) == Bundle(entries, t)
      decreases left
    {
      ghost var before, more := out, Collected(entries, NextQueue(entries, queue), left - 1);
      var pid := queue[0];
      ghost var expected := Kids(CommentIds(entries), entries, pid);
      assert before + (expected + more) == (before + expected) + more;
      queue := queue[1..];
      var kids := if pid in childrenByParent then childrenByParent[pid] else [];
      out, queue := PushAll(out, queue, kids);
      left := left - 1;
    }
  }

  // ---------------------------------------------------------------- with unique ids

  // After `n` more turns the queue is empty and the walk so far has become `full`.
  ghost predicate CollectsTo(entries: seq<Entry>, walk: seq<Entry>, h: nat, n: nat, full: seq<Entry>)
    requires h <= |walk|
  {
    && QueueAfter(entries, IdsOf(walk[h..]), n) == []
    && full == walk + Collected(entries, IdsOf(walk[h..]), n)
  }

  lemma WalkUnfolds(entries: seq<Entry>, walk: seq<Entry>, h: nat, next: seq<Entry>)
    requires UniqueCommentIds(entries) && Walking(entries, walk, h) && h < |walk|
    requires next == walk + Kids(CommentIds(entries), entries, walk[h].id)
    ensures h < |CommentIds(entries)| && Walking(entries, next, h + 1)
    ensures Walk(entries, walk, h) == Walk(entries, next, h + 1)
  {
    WalkBounded(entries, walk, h);
    WalkAdvances(entries, walk, h);
  }

  lemma NothingLeft(entries: seq<Entry>, walk: seq<Entry>)
    ensures CollectsTo(entries, walk, |walk|, 0, walk)
  {
    assert IdsOf(walk[|walk|..]) == [];
  }

  ghost function NextWalk(entries: seq<Entry>, walk: seq<Entry>, h: nat): seq<Entry>
    requires h < |walk|
  {
    walk + Kids(CommentIds(entries), entries, walk[h].id)
  }

  ghost predicate TurnKeeps(
    entries: seq<Entry>, live: (seq<Entry>, nat) -> bool, end: (seq<Entry>, nat) -> seq<Entry>,
    bound: nat, walk: seq<Entry>, h: nat)
  {
    h <= |walk| && live(walk, h) ==>
      if h == |walk| then end(walk, h) == walk
      else
        var next := NextWalk(entries, walk, h);
        h < bound && live(next, h + 1) && end(walk, h) == end(next, h + 1)
  }

  // Walks that stay live turn by turn, and are bounded, empty the queue.
  lemma {:induction false} TurnsCollect(
    entries: seq<Entry>, live: (seq<Entry>, nat) -> bool, end: (seq<Entry>, nat) -> seq<Entry>,
    bound: nat, walk: seq<Entry>, h: nat)
    returns (n: nat)
    requires h <= |walk| && live(walk, h)
    requires forall w, k: nat :: TurnKeeps(entries, live, end, bound, w, k)
    ensures CollectsTo(entries, walk, h, n, end(walk, h))
    decreases if h < bound then bound - h else 0
  {
    assert TurnKeeps(entries, live, end, bound, walk, h);
    if h == |walk| {
      n := 0;
      NothingLeft(entries, walk);
    } else {
      var next := NextWalk(entries, walk, h);
      var rest := TurnsCollect(entries, live, end, bound, next, h + 1);
      n := rest + 1;
      WalkOneTurn(entries, walk, h, next, rest, end(next, h + 1));
    }
  }

  // With unique comment ids the queue of every walk ends, and the output is the walk.
  lemma WalkCollects(entries: seq<Entry>, walk: seq<Entry>, h: nat) returns (n: nat)
    requires UniqueCommentIds(entries) && Walking(entries, walk, h)
    ensures CollectsTo(entries, walk, h, n, Walk(entries, walk, h))
  {
    var live := (w: seq<Entry>, k: nat) => Walking(entries, w, k);
    var end := (w: seq<Entry>, k: nat) =>
      if UniqueCommentIds(entries) && Walking(entries, w, k) then Walk(entries, w, k) else w;
    forall w, k: nat ensures TurnKeeps(entries, live, end, |CommentIds(entries)|, w, k) {
      if k < |w| && live(w, k) { WalkUnfolds(entries, w, k, NextWalk(entries, w, k)); }
    }
    n := TurnsCollect(entries, live, end, |CommentIds(entries)|, walk, h);
  }

  lemma QueueShift(entries: seq<Entry>, walk: seq<Entry>, h: nat)
    requires h < |walk|
    ensures var kids, queue := Kids(CommentIds(entries), entries, walk[h].id), IdsOf(walk[h..]);
      queue != [] && queue[0] == walk[h].id && NextQueue(entries, queue) == IdsOf((walk + kids)[h + 1..])
  {
    var kids, queue := Kids(CommentIds(entries), entries, walk[h].id), IdsOf(walk[h..]);
    assert |queue| == |walk| - h;
    assert (walk + kids)[h + 1..] == walk[h + 1..] + kids;
  }

  lemma WalkOneTurn(entries: seq<Entry>, walk: seq<Entry>, h: nat, next: seq<Entry>, n: nat, full: seq<Entry>)
    requires h < |walk| && next == walk + Kids(CommentIds(entries), entries, walk[h].id)
    requires CollectsTo(entries, next, h + 1, n, full)
    ensures CollectsTo(entries, walk, h, n + 1, full)
  {
    QueueShift(entries, walk, h);
    var queue, kids := IdsOf(walk[h..]), Kids(CommentIds(entries), entries, walk[h].id);
    var more := Collected(entries, NextQueue(entries, queue), n);
    assert Collected(entries, queue, n + 1) == kids + more;
    assert walk + (kids + more) == next + more;
  }

  // How many turns are counted does not matter once the queue is empty.
  lemma {:induction false} CollectedOnce(entries: seq<Entry>, queue: seq<string>, n: nat, m: nat)
    requires QueueAfter(entries, queue, n) == [] && QueueAfter(entries, queue, m) == []
    ensures Collected(entries, queue, n) == Collected(entries, queue, m)
    decreases n
  {
    if n > 0 && m > 0 && queue != [] { CollectedOnce(entries, NextQueue(entries, queue), n - 1, m - 1); }
  }

  lemma BundleIsReplies(entries: seq<Entry>, t: Entry)
    requires UniqueCommentIds(entries)
    requires t in entries && !IsReply(CommentIds(entries), t)
    ensures EndsAt(entries, t) && Bundle(entries, t) == Replies(entries, t)
  {
    if t.kind == Comment {
      WalkStarts(entries, t);
      assert [t][0..] == [t] && IdsOf([t]) == [t.id];
      var n := WalkCollects(entries, [t], 0);
      CollectedOnce(entries, [t.id], n, Turns(entries, [t.id]));
    }
  }

  method Partition(entries: seq<Entry>)
    returns (topLevel: seq<Entry>, childrenByParent: map<string, seq<Entry>>)
    ensures topLevel == TopLevel(CommentIds(entries), entries)
    ensures IsChildIndex(childrenByParent, CommentIds(entries), entries)
  {
    var commentIds := set e | e in entries && e.kind == Comment :: e.id;
    assert commentIds == CommentIds(entries);
    topLevel, childrenByParent := [], map[];
    for i := 0 to |entries|
      invariant topLevel == TopLevel(commentIds, entries[..i])
      invariant IsChildIndex(childrenByParent, commentIds, entries[..i])
    {
      var e := entries[i];
      ghost var seen := entries[..i + 1];
      assert seen[..i] == entries[..i] && seen[i] == e;
      if IsReply(commentIds, e) {
        var parent := e.parentId.value;
        var list := if parent in childrenByParent then childrenByParent[parent] else [];
        childrenByParent := childrenByParent[parent := list + [e]];
      } else {
        topLevel := topLevel + [e];
      }
    }
    assert entries[..|entries|] == entries;
  }

  ghost predicate AllEnd(entries: seq<Entry>, tops: seq<Entry>) {
    forall i :: 0 <= i < |tops| ==> EndsAt(entries, tops[i])
  }

  ghost function Bundles(entries: seq<Entry>, tops: seq<Entry>): seq<Row>
    requires AllEnd(entries, tops)
  {
    seq(|tops|, i requires 0 <= i < |tops| => Row(tops[i], Bundle(entries, tops[i])))
  }

  // Returns for every timeline on which the queue of each top-level comment ends.
  method BuildTimelineRows(entries: seq<Entry>) returns (rows: seq<Row>)
    requires AllEnd(entries, TopLevel(CommentIds(entries), entries))
    ensures rows == Bundles(entries, TopLevel(CommentIds(entries), entries))
  {
    var topLevel, childrenByParent := Partition(entries);
    rows := [];
    for i := 0 to |topLevel|
      invariant |rows| == i
      invariant forall j :: 0 <= j < i ==> rows[j] == Row(topLevel[j], Bundle(entries, topLevel[j]))
    {
      var entry := topLevel[i];
      assert EndsAt(entries, entry);
      var replies: seq<Entry> := [];
      if entry.kind == Comment { replies := CollectDescendants(entries, childrenByParent, entry); }
      rows := rows + [Row(entry, replies)];
    }
  }

  lemma BundlesAreRows(entries: seq<Entry>)
    requires UniqueCommentIds(entries)
    ensures var tops := TopLevel(CommentIds(entries), entries);
      AllEnd(entries, tops) && Bundles(entries, tops) == Rows(entries)
  {
    var tops := TopLevel(CommentIds(entries), entries);
    TopLevelAreTop(entries);
    forall i | 0 <= i < |tops| ensures EndsAt(entries, tops[i]) && Bundle(entries, tops[i]) == Replies(entries, tops[i]) {
      assert tops[i] in tops;
      BundleIsReplies(entries, tops[i]);
    }
  }
}
