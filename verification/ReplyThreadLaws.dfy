// What the bundled timeline promises: a row holds its entry's descendants, and nothing is lost
// unless a comment is its own ancestor.
module ReplyThreadLaws {
  import opened Options
  import opened ReplyThreads

  // Following parent links from `e` for `k` steps ends at `t`.
  ghost predicate Climbs(entries: seq<Entry>, e: Entry, t: Entry, k: nat)
    decreases k
  {
    if k == 0 then e == t
    else
      IsReply(CommentIds(entries), e)
      && exists p :: IsParent(entries, p, e) && Climbs(entries, p, t, k - 1)
  }

  ghost predicate IsParent(entries: seq<Entry>, p: Entry, e: Entry) {
    p in entries && p.kind == Comment && e.parentId == Some(p.id)
  }

  ghost predicate Acyclic(entries: seq<Entry>) {
    forall e, k: nat :: e in entries && k > 0 ==> !Climbs(entries, e, e, k)
  }

  lemma HasParent(entries: seq<Entry>, e: Entry) returns (p: Entry)
    requires IsReply(CommentIds(entries), e)
    ensures IsParent(entries, p, e)
  {
    p :| p in entries && p.kind == Comment && p.id == e.parentId.value;
  }

  lemma {:induction false} ClimbSplits(entries: seq<Entry>, a: Entry, b: Entry, c: Entry, j: nat, k: nat)
    requires Climbs(entries, a, b, j) && Climbs(entries, b, c, k)
    ensures Climbs(entries, a, c, j + k)
    decreases j
  {
    if j > 0 {
      var p :| IsParent(entries, p, a) && Climbs(entries, p, b, j - 1);
      ClimbSplits(entries, p, b, c, j - 1, k);
    }
  }

  // Parents are unique, so two climbs to entries without a parent end at the same one.
  lemma {:induction false} RootIsUnique(
    entries: seq<Entry>, e: Entry, t: Entry, j: nat, u: Entry, k: nat)
    requires UniqueCommentIds(entries)
    requires Climbs(entries, e, t, j) && Climbs(entries, e, u, k)
    requires !IsReply(CommentIds(entries), t) && !IsReply(CommentIds(entries), u)
    ensures t == u
    decreases j
  {
    if j > 0 && k > 0 {
      var p :| IsParent(entries, p, e) && Climbs(entries, p, t, j - 1);
      var q :| IsParent(entries, q, e) && Climbs(entries, q, u, k - 1);
      SameIdSameComment(entries, p, q);
      RootIsUnique(entries, p, t, j - 1, u, k - 1);
    }
  }

  // ---------------------------------------------------------------- rows hold descendants

  ghost predicate Descends(entries: seq<Entry>, e: Entry, t: Entry) {
    exists k: nat :: Climbs(entries, e, t, k)
  }

  lemma {:induction false} WalkDescends(entries: seq<Entry>, walk: seq<Entry>, h: nat, t: Entry)
    requires UniqueCommentIds(entries) && Walking(entries, walk, h)
    requires forall e :: e in walk ==> Descends(entries, e, t)
    ensures forall e :: e in Walk(entries, walk, h) ==> Descends(entries, e, t)
    decreases |CommentIds(entries)| - h
  {
    WalkBounded(entries, walk, h);
    if h < |walk| {
      var ids := CommentIds(entries);
      var kids := Kids(ids, entries, walk[h].id);
      WalkAdvances(entries, walk, h);
      KidsAre(ids, entries, walk[h].id);
      assert walk[h] in walk;
      forall e | e in kids ensures Descends(entries, e, t) {
        var k: nat :| Climbs(entries, walk[h], t, k);
        assert IsParent(entries, walk[h], e);
        assert Climbs(entries, e, t, k + 1);
      }
      WalkDescends(entries, walk + kids, h + 1, t);
    }
  }

  // A finished walk is closed under kids, so it reaches everything below its start.
  lemma {:induction false} WalkReaches(entries: seq<Entry>, walk: seq<Entry>, e: Entry, k: nat)
    requires UniqueCommentIds(entries) && Walking(entries, walk, |walk|)
    requires e in entries && Climbs(entries, e, walk[0], k)
    ensures e in walk
    decreases k
  {
    if k == 0 {
      assert walk[0] in walk;
    } else {
      var p :| IsParent(entries, p, e) && Climbs(entries, p, walk[0], k - 1);
      WalkReaches(entries, walk, p, k - 1);
      KidsOfAllAre(CommentIds(entries), entries, walk);
      assert walk[..|walk|] == walk;
      assert e in KidsOfAll(CommentIds(entries), entries, walk);
    }
  }

  // The replies of a row: the proper descendants of its entry, each once, breadth first,
  // where the kids of one parent keep the order of the timeline.
  lemma RepliesAreDescendants(entries: seq<Entry>, t: Entry)
    requires UniqueCommentIds(entries)
    requires t in entries && t.kind == Comment && !IsReply(CommentIds(entries), t)
    ensures var replies := Replies(entries, t);
      && DistinctIds(replies)
      && (forall e :: e in replies <==> e in entries && e != t && Descends(entries, e, t))
      && replies == KidsOfAll(CommentIds(entries), entries, [t] + replies)
  {
    WalkStarts(entries, t);
    var walk := Walk(entries, [t], 0);
    var replies := Replies(entries, t);
    assert walk == [t] + replies;
    assert Climbs(entries, t, t, 0);
    WalkDescends(entries, [t], 0, t);
    assert walk[..|walk|] == walk;
    forall e ensures e in replies <==> e in entries && e != t && Descends(entries, e, t) {
      if e in replies {
        var j :| 0 <= j < |replies| && replies[j] == e;
        assert walk[j + 1] == e && walk[0].id != walk[j + 1].id;
      }
      if e in entries && e != t && Descends(entries, e, t) {
        var k: nat :| Climbs(entries, e, t, k);
        WalkReaches(entries, walk, e, k);
      }
    }
    forall i, j | 0 <= i < j < |replies| ensures replies[i].id != replies[j].id {
      assert walk[i + 1].id != walk[j + 1].id;
    }
  }

  // ---------------------------------------------------------------- climbing out

  // A climb that has not ended: each comment is the parent of the one before.
  ghost predicate Chain(entries: seq<Entry>, chain: seq<Entry>) {
    && chain != []
    && (forall i :: 0 <= i < |chain| ==> chain[i] in entries)
    && (forall i :: 0 <= i < |chain| ==> Climbs(entries, chain[0], chain[i], i))
    && (forall i, j :: 0 <= i < j < |chain| ==> Climbs(entries, chain[i], chain[j], j - i))
    && (forall i :: 0 < i < |chain| ==> chain[i].kind == Comment)
  }

  lemma ChainDistinct(entries: seq<Entry>, chain: seq<Entry>)
    requires UniqueCommentIds(entries) && Acyclic(entries) && Chain(entries, chain)
    requires chain[0].kind == Comment
    ensures DistinctIds(chain) && |chain| <= |CommentIds(entries)|
  {
    forall i, j | 0 <= i < j < |chain| ensures chain[i].id != chain[j].id {
      var k: nat := j - i;
      assert Climbs(entries, chain[i], chain[j], k) && !Climbs(entries, chain[i], chain[i], k);
      if chain[i].id == chain[j].id { SameIdSameComment(entries, chain[i], chain[j]); }
    }
    DistinctIdsBounded(chain, CommentIds(entries));
  }

  lemma {:induction false} ClimbOut(entries: seq<Entry>, chain: seq<Entry>) returns (t: Entry, k: nat)
    requires UniqueCommentIds(entries) && Acyclic(entries) && Chain(entries, chain)
    requires chain[0].kind == Comment
    ensures t in entries && t.kind == Comment && !IsReply(CommentIds(entries), t)
    ensures Climbs(entries, chain[0], t, k)
    decreases |CommentIds(entries)| - |chain|
  {
    ChainDistinct(entries, chain);
    var last := chain[|chain| - 1];
    if !IsReply(CommentIds(entries), last) {
      return last, |chain| - 1;
    }
    var p := HasParent(entries, last);
    ExtendChain(entries, chain, p);
    ChainDistinct(entries, chain + [p]);
    t, k := ClimbOut(entries, chain + [p]);
  }

  lemma ExtendChain(entries: seq<Entry>, chain: seq<Entry>, p: Entry)
    requires Chain(entries, chain) && IsReply(CommentIds(entries), chain[|chain| - 1])
    requires IsParent(entries, p, chain[|chain| - 1])
    ensures Chain(entries, chain + [p])
  {
    var last, longer := chain[|chain| - 1], chain + [p];
    assert Climbs(entries, p, p, 0);
    assert Climbs(entries, last, p, 1);
    forall i | 0 <= i < |chain| ensures Climbs(entries, longer[i], p, |chain| - i) {
      if i < |chain| - 1 {
        ClimbSplits(entries, chain[i], last, p, |chain| - 1 - i, 1);
      }
    }
  }

  // ---------------------------------------------------------------- conservation

  // Every entry a list of rows shows.
  ghost function Shown(rows: seq<Row>): multiset<Entry> {
    if rows == [] then multiset{}
    else multiset{rows[0].entry} + multiset(rows[0].replies) + Shown(rows[1..])
  }

  lemma {:induction false} DistinctCountsOnce(list: seq<Entry>, x: Entry)
    requires DistinctIds(list)
    ensures multiset(list)[x] == if x in list then 1 else 0
  {
    if list != [] {
      var most, last := list[..|list| - 1], list[|list| - 1];
      assert list == most + [last];
      DistinctCountsOnce(most, x);
      assert last !in most;
    }
  }

  lemma RowCount(entries: seq<Entry>, t: Entry, x: Entry, root: Option<Entry>)
    requires UniqueCommentIds(entries) && x in entries
    requires t in entries && !IsReply(CommentIds(entries), t)
    requires root.Some? ==> !IsReply(CommentIds(entries), root.value) && Descends(entries, x, root.value)
    requires root.None? ==> forall u :: u in entries && !IsReply(CommentIds(entries), u) ==> !Descends(entries, x, u)
    requires root.Some? ==> root.value.kind == Comment
    requires IsReply(CommentIds(entries), x)
    ensures multiset(Replies(entries, t))[x] == if root == Some(t) then 1 else 0
  {
    if t.kind == Comment {
      RepliesAreDescendants(entries, t);
      DistinctCountsOnce(Replies(entries, t), x);
      if root.Some? && Descends(entries, x, t) {
        var j: nat :| Climbs(entries, x, t, j);
        var k: nat :| Climbs(entries, x, root.value, k);
        RootIsUnique(entries, x, t, j, root.value, k);
      }
    }
  }

  lemma ShownSplits(entries: seq<Entry>, tops: seq<Entry>)
    requires UniqueCommentIds(entries) && tops != []
    requires forall t :: t in tops ==> t in entries && !IsReply(CommentIds(entries), t)
    ensures tops[0] in tops
    ensures Shown(RowsOf(entries, tops))
         == multiset{tops[0]} + multiset(Replies(entries, tops[0])) + Shown(RowsOf(entries, tops[1..]))
  {
    assert tops[0] in tops;
    var rows := RowsOf(entries, tops);
    assert rows[1..] == RowsOf(entries, tops[1..]);
  }

  // How often the rows of some top-level entries show a reply.
  lemma {:induction false} ShownReply(entries: seq<Entry>, tops: seq<Entry>, x: Entry, root: Option<Entry>)
    requires UniqueCommentIds(entries) && x in entries && IsReply(CommentIds(entries), x)
    requires forall t :: t in tops ==> t in entries && !IsReply(CommentIds(entries), t)
    requires root.Some? ==>
      !IsReply(CommentIds(entries), root.value) && root.value.kind == Comment && Descends(entries, x, root.value)
    requires root.None? ==> forall u :: u in entries && !IsReply(CommentIds(entries), u) ==> !Descends(entries, x, u)
    ensures Shown(RowsOf(entries, tops))[x] == if root.Some? then multiset(tops)[root.value] else 0
  {
    if tops != [] {
      assert tops[0] in tops && tops == [tops[0]] + tops[1..];
      RowCount(entries, tops[0], x, root);
      ShownReply(entries, tops[1..], x, root);
      ShownSplits(entries, tops);
    }
  }

  lemma TopIsNoReply(entries: seq<Entry>, t: Entry, x: Entry)
    requires UniqueCommentIds(entries) && (x !in entries || !IsReply(CommentIds(entries), x))
    requires t in entries && !IsReply(CommentIds(entries), t)
    ensures multiset(Replies(entries, t))[x] == 0
  {
    if t.kind == Comment {
      RepliesAreDescendants(entries, t);
      KidsOfAllAre(CommentIds(entries), entries, [t] + Replies(entries, t));
    }
    assert x !in Replies(entries, t);
  }

  lemma {:induction false} ShownTop(entries: seq<Entry>, tops: seq<Entry>, x: Entry)
    requires UniqueCommentIds(entries) && (x !in entries || !IsReply(CommentIds(entries), x))
    requires forall t :: t in tops ==> t in entries && !IsReply(CommentIds(entries), t)
    ensures Shown(RowsOf(entries, tops))[x] == multiset(tops)[x]
  {
    if tops != [] {
      var t := tops[0];
      assert t in tops && tops == [t] + tops[1..];
      ShownTop(entries, tops[1..], x);
      TopIsNoReply(entries, t, x);
      ShownSplits(entries, tops);
    }
  }

  lemma {:induction false} CommentCountsOnce(entries: seq<Entry>, e: Entry)
    requires UniqueCommentIds(entries) && e in entries && e.kind == Comment
    ensures multiset(entries)[e] == 1
  {
    var most, last := entries[..|entries| - 1], entries[|entries| - 1];
    assert entries == most + [last];
    if e in most {
      var i :| 0 <= i < |most| && most[i] == e;
      assert entries[i] == e;
      CommentCountsOnce(most, e);
    }
  }

  lemma AncestorsExist(entries: seq<Entry>, x: Entry) returns (t: Entry)
    requires UniqueCommentIds(entries) && Acyclic(entries) && x in entries && x.kind == Comment
    ensures t in entries && t.kind == Comment && !IsReply(CommentIds(entries), t) && Descends(entries, x, t)
  {
    var k: nat;
    assert Climbs(entries, x, x, 0);
    t, k := ClimbOut(entries, [x]);
  }

  lemma ShownOfAcyclic(entries: seq<Entry>, x: Entry)
    requires UniqueCommentIds(entries) && Acyclic(entries)
    ensures Shown(Rows(entries))[x] == multiset(entries)[x]
  {
    var ids := CommentIds(entries);
    var tops := TopLevel(ids, entries);
    TopLevelAre(ids, entries);
    TopLevelInEntries(entries);
    if x in entries && IsReply(ids, x) {
      var t := AncestorsExist(entries, x);
      ShownReply(entries, tops, x, Some(t));
      CommentCountsOnce(entries, x);
      CommentCountsOnce(entries, t);
    } else {
      ShownTop(entries, tops, x);
      assert x in entries || multiset(entries)[x] == 0;
    }
  }

  lemma {:induction false} CycleNeverEnds(entries: seq<Entry>, e: Entry, n: nat, t: Entry, k: nat)
    requires UniqueCommentIds(entries) && n > 0 && Climbs(entries, e, e, n)
    requires Climbs(entries, e, t, k)
    ensures IsReply(CommentIds(entries), t)
    decreases k
  {
    if k > 0 {
      var p :| IsParent(entries, p, e) && Climbs(entries, p, t, k - 1);
      var q :| IsParent(entries, q, e) && Climbs(entries, q, e, n - 1);
      SameIdSameComment(entries, p, q);
      assert Climbs(entries, e, p, 1) by { assert Climbs(entries, p, p, 0); }
      ClimbSplits(entries, p, e, p, n - 1, 1);
      CycleNeverEnds(entries, p, n, t, k - 1);
    }
  }

  lemma CycleIsNotShown(entries: seq<Entry>, e: Entry, n: nat)
    requires UniqueCommentIds(entries) && e in entries && n > 0 && Climbs(entries, e, e, n)
    ensures Shown(Rows(entries))[e] == 0 && multiset(entries)[e] == 1
  {
    forall u | u in entries && !IsReply(CommentIds(entries), u) ensures !Descends(entries, e, u) {
      forall k: nat ensures !Climbs(entries, e, u, k) {
        if Climbs(entries, e, u, k) { CycleNeverEnds(entries, e, n, u, k); }
      }
    }
    CommentCountsOnce(entries, e);
    TopLevelInEntries(entries);
    ShownReply(entries, TopLevel(CommentIds(entries), entries), e, None);
  }

  // Two comments that are each other's reply: the bundled timeline is empty.
  lemma TwoCycleIsNotShown(a: Entry, b: Entry)
    requires a.kind == Comment && b.kind == Comment && a.id != b.id && a.id != "" && b.id != ""
    requires a.parentId == Some(b.id) && b.parentId == Some(a.id)
    ensures UniqueCommentIds([a, b]) && Climbs([a, b], a, a, 2) && Rows([a, b]) == []
  {
    var entries := [a, b];
    var ids := CommentIds(entries);
    assert entries[0] == a && entries[1] == b && a in entries && b in entries;
    assert IsReply(ids, a) && IsReply(ids, b);
    assert IsParent(entries, b, a) && IsParent(entries, a, b);
    assert Climbs(entries, a, a, 0);
    assert Climbs(entries, b, a, 1);
    assert entries[..1] == [a] && [a][..0] == [];
    assert TopLevel(ids, [a]) == TopLevel(ids, []);
  }

  // The rows show exactly the input, every entry as often as it was given, if and only if
  // no comment is among its own ancestors; the comments of a cycle are shown nowhere.
  lemma ConservedIffAcyclic(entries: seq<Entry>)
    requires UniqueCommentIds(entries)
    ensures Shown(Rows(entries)) == multiset(entries) <==> Acyclic(entries)
  {
    if Acyclic(entries) {
      forall x ensures Shown(Rows(entries))[x] == multiset(entries)[x] {
        ShownOfAcyclic(entries, x);
      }
    }
    forall e, k: nat | e in entries && k > 0 && Climbs(entries, e, e, k)
      ensures Shown(Rows(entries))[e] != multiset(entries)[e]
    {
      CycleIsNotShown(entries, e, k);
    }
  }

  // The rows stand for the top-level entries in timeline order, and a reply stands in the
  // row of its root ancestor and nowhere else.
  lemma RowHoldsDescendants(entries: seq<Entry>, i: nat, e: Entry)
    requires UniqueCommentIds(entries) && i < |Rows(entries)|
    ensures |Rows(entries)| == |TopLevel(CommentIds(entries), entries)|
    ensures var t := TopLevel(CommentIds(entries), entries)[i];
      && Rows(entries)[i].entry == t
      && (e in Rows(entries)[i].replies <==>
            e in entries && t.kind == Comment && e != t && Descends(entries, e, t))
  {
    TopLevelInEntries(entries);
    var tops := TopLevel(CommentIds(entries), entries);
    assert tops[i] in tops;
    if tops[i].kind == Comment { RepliesAreDescendants(entries, tops[i]); }
  }

  // An entry heads a row exactly when it is no comment whose parent comment is loaded: other
  // activities, comments without a parent and orphans all do.
  lemma HeadsRowIff(entries: seq<Entry>, e: Entry)
    requires UniqueCommentIds(entries)
    ensures (exists i :: 0 <= i < |Rows(entries)| && Rows(entries)[i].entry == e)
      <==> e in entries
           && !(e.kind == Comment && e.parentId.Some? && e.parentId.value != ""
                && exists p :: p in entries && p.kind == Comment && p.id == e.parentId.value)
  {
    var ids := CommentIds(entries);
    var tops := TopLevel(ids, entries);
    TopLevelAre(ids, entries);
    if e in tops {
      var i :| 0 <= i < |tops| && tops[i] == e;
      RowHoldsDescendants(entries, i, e);
    }
    forall i | 0 <= i < |Rows(entries)| ensures Rows(entries)[i].entry in tops {
      RowHoldsDescendants(entries, i, e);
    }
    assert e in tops <==> multiset(tops)[e] > 0;
    assert e in entries <==> multiset(entries)[e] > 0;
  }
}
