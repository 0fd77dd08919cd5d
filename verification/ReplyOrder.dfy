// The order of the replies in a bundle: for which threads the breadth-first walk follows the
// timeline.
module ReplyOrder {
  import opened Options
  import opened ReplyThreads
  import opened ReplyThreadLaws

  ghost predicate Before(entries: seq<Entry>, x: Entry, y: Entry) {
    exists i, j :: 0 <= i < j < |entries| && entries[i] == x && entries[j] == y
  }

  ghost predicate InTimelineOrder(entries: seq<Entry>, list: seq<Entry>) {
    forall a, b :: 0 <= a < b < |list| ==> Before(entries, list[a], list[b])
  }

  ghost predicate Below(entries: seq<Entry>, e: Entry, t: Entry) {
    e in entries && e != t && Descends(entries, e, t)
  }

  // Along the timeline, the parents of the entries below `t` come in timeline order, where
  // `t` itself counts as the first of them.
  ghost predicate ParentsInOrder(entries: seq<Entry>, t: Entry) {
    forall x, y, p, q ::
      Below(entries, x, t) && Below(entries, y, t) && Before(entries, x, y)
      && IsParent(entries, p, x) && IsParent(entries, q, y)
      ==> p == t || (q != t && !Before(entries, q, p))
  }

  lemma BeforeIsOneWay(entries: seq<Entry>, x: Entry, y: Entry)
    requires UniqueCommentIds(entries) && x.kind == Comment && y.kind == Comment
    requires Before(entries, x, y)
    ensures x != y && !Before(entries, y, x)
  {
    var i, j :| 0 <= i < j < |entries| && entries[i] == x && entries[j] == y;
    forall k, l | 0 <= k < l < |entries| && entries[k] == y ensures entries[l] != x {
      assert k == j;
    }
  }

  lemma OneIsBefore(entries: seq<Entry>, x: Entry, y: Entry)
    requires x in entries && y in entries && x != y
    ensures Before(entries, x, y) || Before(entries, y, x)
  {
    var i :| 0 <= i < |entries| && entries[i] == x;
    var j :| 0 <= j < |entries| && entries[j] == y;
    assert i < j ==> Before(entries, x, y);
  }

  // ---------------------------------------------------------------- the order of a walk

  lemma {:induction false} KidsInOrder(ids: set<string>, entries: seq<Entry>, parent: string, a: nat, b: nat)
    requires a < b < |Kids(ids, entries, parent)|
    ensures Before(entries, Kids(ids, entries, parent)[a], Kids(ids, entries, parent)[b])
  {
    var most, last := entries[..|entries| - 1], entries[|entries| - 1];
    var kids, rest := Kids(ids, entries, parent), Kids(ids, most, parent);
    if b < |rest| {
      KidsInOrder(ids, most, parent, a, b);
      var i, j :| 0 <= i < j < |most| && most[i] == kids[a] && most[j] == kids[b];
      assert entries[i] == kids[a] && entries[j] == kids[b];
    } else {
      KidsAre(ids, most, parent);
      assert rest[a] in rest;
      var i :| 0 <= i < |most| && most[i] == kids[a];
      assert entries[i] == kids[a] && entries[|entries| - 1] == kids[b];
    }
  }

  lemma {:induction false} KidsOfAllAt(ids: set<string>, entries: seq<Entry>, list: seq<Entry>, c: nat)
    returns (h: nat)
    requires c < |KidsOfAll(ids, entries, list)|
    ensures h < |list| && KidsOfAll(ids, entries, list)[c] in Kids(ids, entries, list[h].id)
  {
    var most := list[..|list| - 1];
    if c < |KidsOfAll(ids, entries, most)| {
      h := KidsOfAllAt(ids, entries, most, c);
    } else {
      h := |list| - 1;
      var kids := Kids(ids, entries, list[h].id);
      assert kids[c - |KidsOfAll(ids, entries, most)|] in kids;
    }
  }

  // Of two kids in the list, the first has the earlier parent, or they are siblings in
  // timeline order.
  lemma {:induction false} KidsOfAllOrder(ids: set<string>, entries: seq<Entry>, list: seq<Entry>, c: nat, d: nat)
    returns (g: nat, h: nat)
    requires c < d < |KidsOfAll(ids, entries, list)|
    ensures g <= h < |list|
    ensures var all := KidsOfAll(ids, entries, list);
      && all[c] in Kids(ids, entries, list[g].id) && all[d] in Kids(ids, entries, list[h].id)
      && (g == h ==> Before(entries, all[c], all[d]))
  {
    var most, last := list[..|list| - 1], |list| - 1;
    var before, kids := KidsOfAll(ids, entries, most), Kids(ids, entries, list[last].id);
    assert KidsOfAll(ids, entries, list) == before + kids;
    if d < |before| {
      g, h := KidsOfAllOrder(ids, entries, most, c, d);
    } else {
      h := last;
      assert kids[d - |before|] in kids;
      if c < |before| {
        g := KidsOfAllAt(ids, entries, most, c);
      } else {
        g := last;
        assert kids[c - |before|] in kids;
        KidsInOrder(ids, entries, list[last].id, c - |before|, d - |before|);
      }
    }
  }

  ghost predicate KidAt(entries: seq<Entry>, walk: seq<Entry>, c: nat, g: nat) {
    g < |walk| && c < |walk| && walk[c] in Kids(CommentIds(entries), entries, walk[g].id)
  }

  ghost predicate HasEarlierParent(entries: seq<Entry>, walk: seq<Entry>, c: nat) {
    exists g: nat :: g < c && KidAt(entries, walk, c, g)
  }

  // Every walked entry but the first has its parent before it.
  ghost predicate EarlierParents(entries: seq<Entry>, walk: seq<Entry>) {
    forall c: nat :: 0 < c < |walk| ==> HasEarlierParent(entries, walk, c)
  }

  lemma {:induction false} WalkHasEarlierParents(entries: seq<Entry>, walk: seq<Entry>, h: nat)
    requires UniqueCommentIds(entries) && Walking(entries, walk, h) && EarlierParents(entries, walk)
    ensures EarlierParents(entries, Walk(entries, walk, h))
    decreases |CommentIds(entries)| - h
  {
    WalkBounded(entries, walk, h);
    if h < |walk| {
      var kids := Kids(CommentIds(entries), entries, walk[h].id);
      WalkAdvances(entries, walk, h);
      KidsHaveEarlierParents(entries, walk, h, kids);
      WalkHasEarlierParents(entries, walk + kids, h + 1);
    }
  }

  lemma KidsHaveEarlierParents(entries: seq<Entry>, walk: seq<Entry>, h: nat, kids: seq<Entry>)
    requires EarlierParents(entries, walk) && h < |walk|
    requires kids == Kids(CommentIds(entries), entries, walk[h].id)
    ensures EarlierParents(entries, walk + kids)
  {
    var next := walk + kids;
    forall c: nat | 0 < c < |next| ensures HasEarlierParent(entries, next, c) {
      if c < |walk| {
        assert HasEarlierParent(entries, walk, c);
        var g: nat :| g < c && KidAt(entries, walk, c, g);
        assert KidAt(entries, next, c, g);
      } else {
        assert kids[c - |walk|] in kids;
        assert KidAt(entries, next, c, h);
      }
    }
  }

  ghost predicate Finished(entries: seq<Entry>, walk: seq<Entry>) {
    Walking(entries, walk, |walk|) && EarlierParents(entries, walk)
  }

  lemma FinishedWalk(entries: seq<Entry>, t: Entry)
    requires UniqueCommentIds(entries)
    requires t in entries && t.kind == Comment && !IsReply(CommentIds(entries), t)
    ensures Finished(entries, [t] + Replies(entries, t))
  {
    WalkStarts(entries, t);
    WalkHasEarlierParents(entries, [t], 0);
    assert [t] + Replies(entries, t) == Walk(entries, [t], 0);
  }

  lemma KidsShareParent(entries: seq<Entry>, walk: seq<Entry>, c: nat, f: nat, g: nat)
    requires DistinctIds(walk) && KidAt(entries, walk, c, f) && KidAt(entries, walk, c, g)
    ensures f == g
  {
    KidsAre(CommentIds(entries), entries, walk[f].id);
    KidsAre(CommentIds(entries), entries, walk[g].id);
  }

  lemma KidHasParent(entries: seq<Entry>, walk: seq<Entry>, c: nat, g: nat)
    requires Finished(entries, walk) && KidAt(entries, walk, c, g)
    ensures IsParent(entries, walk[g], walk[c])
    ensures c > 0 ==> g < c
  {
    KidsAre(CommentIds(entries), entries, walk[g].id);
    assert walk[g] in walk;
    if c > 0 {
      assert HasEarlierParent(entries, walk, c);
      var f: nat :| f < c && KidAt(entries, walk, c, f);
      KidsShareParent(entries, walk, c, f, g);
    }
  }

  lemma WalkedKids(entries: seq<Entry>, walk: seq<Entry>, all: seq<Entry>, a: nat, b: nat) returns (g: nat, h: nat)
    requires walk != [] && walk == [walk[0]] + all && 0 < a < b < |walk|
    requires all == KidsOfAll(CommentIds(entries), entries, walk)
    ensures g <= h && KidAt(entries, walk, a, g) && KidAt(entries, walk, b, h)
    ensures g == h ==> Before(entries, walk[a], walk[b])
  {
    g, h := KidsOfAllOrder(CommentIds(entries), entries, walk, a - 1, b - 1);
    assert walk[a] == all[a - 1] && walk[b] == all[b - 1];
  }

  lemma FinishedIsKids(entries: seq<Entry>, walk: seq<Entry>)
    requires Finished(entries, walk)
    ensures walk != [] && walk == [walk[0]] + KidsOfAll(CommentIds(entries), entries, walk)
  {
    assert walk[..|walk|] == walk;
  }

  // Two walked entries: the parents were walked in the same order, or they are siblings in
  // timeline order.
  lemma WalkedPair(entries: seq<Entry>, walk: seq<Entry>, a: nat, b: nat) returns (g: nat, h: nat)
    requires Finished(entries, walk) && 0 < a < b < |walk|
    ensures g <= h && g < a && h < b
    ensures IsParent(entries, walk[g], walk[a]) && IsParent(entries, walk[h], walk[b])
    ensures g == h ==> Before(entries, walk[a], walk[b])
  {
    FinishedIsKids(entries, walk);
    g, h := WalkedKids(entries, walk, KidsOfAll(CommentIds(entries), entries, walk), a, b);
    KidHasParent(entries, walk, a, g);
    KidHasParent(entries, walk, b, h);
  }

  // ---------------------------------------------------------------- exactly when in order

  lemma WalkedIsBelow(entries: seq<Entry>, t: Entry, a: nat)
    requires UniqueCommentIds(entries)
    requires t in entries && t.kind == Comment && !IsReply(CommentIds(entries), t)
    requires 0 < a <= |Replies(entries, t)|
    ensures var e := ([t] + Replies(entries, t))[a]; Below(entries, e, t) && e.kind == Comment
  {
    FinishedWalk(entries, t);
    RepliesAreDescendants(entries, t);
    var walk := [t] + Replies(entries, t);
    assert walk[a] == Replies(entries, t)[a - 1] && walk[a] in walk;
  }

  lemma OrderStep(entries: seq<Entry>, t: Entry, x: Entry, y: Entry, p: Entry, q: Entry)
    requires ParentsInOrder(entries, t) && Below(entries, x, t) && Below(entries, y, t) && x != y
    requires IsParent(entries, p, x) && IsParent(entries, q, y) && q != t
    requires p == t || Before(entries, p, q)
    ensures Before(entries, x, y)
  {
    OneIsBefore(entries, x, y);
  }

  lemma WalkIsDistinct(entries: seq<Entry>, walk: seq<Entry>, a: nat, b: nat)
    requires Finished(entries, walk) && a < b < |walk|
    ensures walk[a] != walk[b]
  {
    assert walk[a].id != walk[b].id;
  }

  lemma {:induction false} OrderedByParents(entries: seq<Entry>, t: Entry, a: nat, b: nat)
    requires UniqueCommentIds(entries)
    requires t in entries && t.kind == Comment && !IsReply(CommentIds(entries), t)
    requires ParentsInOrder(entries, t) && 0 < a < b <= |Replies(entries, t)|
    ensures var walk := [t] + Replies(entries, t); Before(entries, walk[a], walk[b])
    decreases b
  {
    var walk := [t] + Replies(entries, t);
    FinishedWalk(entries, t);
    var g, h := WalkedPair(entries, walk, a, b);
    if g < h {
      WalkedIsBelow(entries, t, a);
      WalkedIsBelow(entries, t, b);
      WalkIsDistinct(entries, walk, a, b);
      WalkIsDistinct(entries, walk, 0, h);
      if g > 0 { OrderedByParents(entries, t, g, h); }
      OrderStep(entries, t, walk[a], walk[b], walk[g], walk[h]);
    }
  }

  // Where an entry below `t` was walked.
  lemma WalkedAt(entries: seq<Entry>, t: Entry, x: Entry) returns (i: nat)
    requires UniqueCommentIds(entries)
    requires t in entries && t.kind == Comment && !IsReply(CommentIds(entries), t)
    requires Below(entries, x, t)
    ensures 0 < i <= |Replies(entries, t)| && ([t] + Replies(entries, t))[i] == x && x.kind == Comment
  {
    RepliesAreDescendants(entries, t);
    var j :| 0 <= j < |Replies(entries, t)| && Replies(entries, t)[j] == x;
    i := j + 1;
    WalkedIsBelow(entries, t, i);
  }

  lemma ParentsByOrder(entries: seq<Entry>, t: Entry, x: Entry, y: Entry, p: Entry, q: Entry)
    requires UniqueCommentIds(entries)
    requires t in entries && t.kind == Comment && !IsReply(CommentIds(entries), t)
    requires InTimelineOrder(entries, Replies(entries, t))
    requires Below(entries, x, t) && Below(entries, y, t) && Before(entries, x, y)
    requires IsParent(entries, p, x) && IsParent(entries, q, y)
    ensures p == t || (q != t && !Before(entries, q, p))
  {
    var walk := [t] + Replies(entries, t);
    var i := WalkedAt(entries, t, x);
    var j := WalkedAt(entries, t, y);
    WalkedInOrder(entries, t, i, j);
    FinishedWalk(entries, t);
    var g, h := WalkedPair(entries, walk, i, j);
    SameIdSameComment(entries, p, walk[g]);
    SameIdSameComment(entries, q, walk[h]);
    if g > 0 { SecondIsNotFirst(entries, t, g, h); }
  }

  lemma WalkedInOrder(entries: seq<Entry>, t: Entry, i: nat, j: nat)
    requires UniqueCommentIds(entries)
    requires t in entries && t.kind == Comment && !IsReply(CommentIds(entries), t)
    requires InTimelineOrder(entries, Replies(entries, t))
    requires 0 < i <= |Replies(entries, t)| && 0 < j <= |Replies(entries, t)|
    requires Before(entries, ([t] + Replies(entries, t))[i], ([t] + Replies(entries, t))[j])
    ensures i < j
  {
    var replies := Replies(entries, t);
    WalkedIsBelow(entries, t, i);
    WalkedIsBelow(entries, t, j);
    BeforeIsOneWay(entries, replies[i - 1], replies[j - 1]);
  }

  lemma SecondIsNotFirst(entries: seq<Entry>, t: Entry, g: nat, h: nat)
    requires UniqueCommentIds(entries)
    requires t in entries && t.kind == Comment && !IsReply(CommentIds(entries), t)
    requires InTimelineOrder(entries, Replies(entries, t)) && 0 < g <= h <= |Replies(entries, t)|
    ensures var walk := [t] + Replies(entries, t);
      walk[h] != t && !Before(entries, walk[h], walk[g])
  {
    var replies := Replies(entries, t);
    WalkedIsBelow(entries, t, g);
    WalkedIsBelow(entries, t, h);
    if g < h {
      assert Before(entries, replies[g - 1], replies[h - 1]);
      BeforeIsOneWay(entries, replies[g - 1], replies[h - 1]);
    } else if Before(entries, replies[g - 1], replies[g - 1]) {
      BeforeIsOneWay(entries, replies[g - 1], replies[g - 1]);
    }
  }

  // The replies of a row stand in timeline order if and only if the parents of the entries
  // below it do, along the timeline.
  lemma RepliesInOrderIff(entries: seq<Entry>, t: Entry)
    requires UniqueCommentIds(entries)
    requires t in entries && t.kind == Comment && !IsReply(CommentIds(entries), t)
    ensures InTimelineOrder(entries, Replies(entries, t)) <==> ParentsInOrder(entries, t)
  {
    if ParentsInOrder(entries, t) { OrderFromParents(entries, t); }
    if InTimelineOrder(entries, Replies(entries, t)) { ParentsFromOrder(entries, t); }
  }

  lemma OrderFromParents(entries: seq<Entry>, t: Entry)
    requires UniqueCommentIds(entries) && ParentsInOrder(entries, t)
    requires t in entries && t.kind == Comment && !IsReply(CommentIds(entries), t)
    ensures InTimelineOrder(entries, Replies(entries, t))
  {
    var replies := Replies(entries, t);
    forall a, b | 0 <= a < b < |replies| ensures Before(entries, replies[a], replies[b]) {
      OrderedByParents(entries, t, a + 1, b + 1);
    }
  }

  lemma ParentsFromOrder(entries: seq<Entry>, t: Entry)
    requires UniqueCommentIds(entries)
    requires t in entries && t.kind == Comment && !IsReply(CommentIds(entries), t)
    requires InTimelineOrder(entries, Replies(entries, t))
    ensures ParentsInOrder(entries, t)
  {
    forall x, y, p, q |
      Below(entries, x, t) && Below(entries, y, t) && Before(entries, x, y)
      && IsParent(entries, p, x) && IsParent(entries, q, y)
      ensures p == t || (q != t && !Before(entries, q, p))
    {
      ParentsByOrder(entries, t, x, y, p, q);
    }
  }

  // A thread that is not in order: a reply to a reply, and after it a reply to the root.
  lemma LaterReplyStandsEarlier(a: Entry, b: Entry, c: Entry, d: Entry)
    requires a.kind == Comment && b.kind == Comment && c.kind == Comment && d.kind == Comment
    requires a.parentId == None && b.parentId == Some(a.id) && c.parentId == Some(b.id) && d.parentId == Some(a.id)
    requires a.id != "" && b.id != "" && DistinctIds([a, b, c, d])
    ensures var entries := [a, b, c, d];
      && UniqueCommentIds(entries) && a in entries && !IsReply(CommentIds(entries), a)
      && Before(entries, c, d) && !InTimelineOrder(entries, Replies(entries, a))
  {
    var entries := [a, b, c, d];
    assert entries[0] == a && entries[1] == b && entries[2] == c && entries[3] == d;
    LateThread(entries, a, b, c, d);
    RepliesInOrderIff(entries, a);
  }

  lemma LateThread(entries: seq<Entry>, a: Entry, b: Entry, c: Entry, d: Entry)
    requires a in entries && b in entries && a.kind == Comment && b.kind == Comment
    requires c in entries && d in entries && c.kind == Comment && d.kind == Comment
    requires b.parentId == Some(a.id) && c.parentId == Some(b.id) && d.parentId == Some(a.id)
    requires a.id != "" && b.id != "" && c != a && d != a && b != a && Before(entries, c, d)
    ensures !ParentsInOrder(entries, a)
  {
    assert a.id in CommentIds(entries) && b.id in CommentIds(entries);
    assert Climbs(entries, a, a, 0) && IsParent(entries, a, b) && IsParent(entries, a, d) && IsParent(entries, b, c);
    assert Climbs(entries, b, a, 1) && Climbs(entries, d, a, 1);
    assert Climbs(entries, c, a, 2);
    assert Below(entries, c, a) && Below(entries, d, a);
  }
}
