// One inbox row per issue (apps/mobile/lib/inbox-display.ts).
module InboxRows {
  import opened Options
  import opened StableSort

  // `carried` stands for the details and fields that are only copied.
  datatype Details = Details(commentId: Option<string>, carried: string)

  datatype Item = Item(
    id: string, issueId: Option<string>, archived: bool, time: int, details: Option<Details>, body: string)

  function Key(item: Item): string { item.issueId.GetOr(item.id) }

  function CommentOf(item: Item): Option<string> {
    if item.details.None? then None else item.details.value.commentId
  }

  predicate HasComment(item: Item) { CommentOf(item).Some? && CommentOf(item).value != "" }

  // `b.time - a.time <= 0`: newest first.
  predicate Newer(a: Item, b: Item) { b.time - a.time <= 0 }

  function Active(items: seq<Item>): seq<Item> {
    if items == [] then []
    else
      var rest := Active(items[..|items| - 1]);
      if items[|items| - 1].archived then rest else rest + [items[|items| - 1]]
  }

  function Group(items: seq<Item>, key: string): seq<Item> {
    if items == [] then []
    else
      var rest := Group(items[..|items| - 1], key);
      if Key(items[|items| - 1]) == key then rest + [items[|items| - 1]] else rest
  }

  // Keys in order of first appearance, as a Map keeps them.
  function Keys(items: seq<Item>): seq<string> {
    if items == [] then []
    else
      var rest := Keys(items[..|items| - 1]);
      if Key(items[|items| - 1]) in rest then rest else rest + [Key(items[|items| - 1])]
  }

  function FirstComment(group: seq<Item>): Option<string> {
    if group == [] then None
    else if HasComment(group[0]) then CommentOf(group[0])
    else FirstComment(group[1..])
  }

  // The row of a group that is sorted newest first. A comment id that is present but empty
  // stops the search for another one.
  function RowOf(group: seq<Item>): Item
    requires group != []
  {
    var newest := group[0];
    var commentId := CommentOf(newest).OrElse(FirstComment(group));
    if commentId.Some? && commentId.value != "" && CommentOf(newest) != commentId then WithComment(newest, commentId)
    else newest
  }

  // `{ ...newest, details: { ...(newest.details ?? {}), comment_id } }`
  function WithComment(item: Item, commentId: Option<string>): Item {
    item.(details := Some(Details(commentId, if item.details.Some? then item.details.value.carried else "")))
  }

  function RowFor(items: seq<Item>, key: string): Item
    requires Group(items, key) != []
  {
    SortKeepsElements(Newer, Group(items, key));
    RowOf(Sort(Newer, Group(items, key)))
  }

  function RowsFor(items: seq<Item>, keys: seq<string>): seq<Item>
    requires forall k :: k in keys ==> Group(items, k) != []
  {
    seq(|keys|, i requires 0 <= i < |keys| => RowFor(items, keys[i]))
  }

  lemma {:induction false} GroupAre(items: seq<Item>, key: string)
    ensures forall i :: i in Group(items, key) <==> i in items && Key(i) == key
    ensures multiset(Group(items, key)) <= multiset(items)
  {
    if items != [] {
      var most, last := items[..|items| - 1], items[|items| - 1];
      assert items == most + [last];
      GroupAre(most, key);
    }
  }

  lemma {:induction false} KeysAre(items: seq<Item>)
    ensures forall k :: k in Keys(items) <==> exists i :: i in items && Key(i) == k
    ensures Distinct(Keys(items))
  {
    if items != [] {
      var most, last := items[..|items| - 1], items[|items| - 1];
      assert items == most + [last];
      KeysAre(most);
    }
  }

  lemma KeysHaveGroups(items: seq<Item>)
    ensures forall k :: k in Keys(items) ==> Group(items, k) != []
  {
    KeysAre(items);
    forall k | k in Keys(items) ensures Group(items, k) != [] {
      var i :| i in items && Key(i) == k;
      GroupAre(items, k);
      assert i in Group(items, k);
    }
  }

  function Rows(items: seq<Item>): seq<Item> {
    var active := Active(items);
    KeysHaveGroups(active);
    Sort(Newer, RowsFor(active, Keys(active)))
  }

  // The Map of groups, with its keys in insertion order.
  method GroupByKey(active: seq<Item>) returns (order: seq<string>, groups: map<string, seq<Item>>)
    ensures order == Keys(active)
    ensures forall k :: k in order ==> k in groups && groups[k] == Group(active, k)
  {
    order, groups := [], map[];
    for i := 0 to |active|
      invariant order == Keys(active[..i])
      invariant forall k :: k in groups <==> k in order
      invariant forall k :: Lookup(groups, k).GetOr([]) == Group(active[..i], k)
    {
      var item := active[i];
      assert active[..i + 1][..i] == active[..i];
      var key := Key(item);
      if key !in groups { order := order + [key]; }
      groups := groups[key := Lookup(groups, key).GetOr([]) + [item]];
    }
    assert active[..|active|] == active;
    assert forall k :: k in order ==> groups[k] == Lookup(groups, k).GetOr([]);
  }

  // One turn of the loop: the row of one group.
  method MergeGroup(active: seq<Item>, key: string, group: seq<Item>) returns (row: Item)
    requires group == Group(active, key) && group != []
    ensures row == RowFor(active, key)
  {
    SortKeepsElements(Newer, group);
    row := RowOf(Sort(Newer, group));
  }

  lemma PrefixGrows<T>(s: seq<T>, i: nat)
    requires i < |s|
    ensures s[..i + 1] == s[..i] + [s[i]]
  {
  }

  // The row of each group, in the order of the Map.
  method MergeGroups(active: seq<Item>, order: seq<string>, groups: map<string, seq<Item>>)
    returns (merged: seq<Item>)
    requires forall k :: k in order ==> k in groups && groups[k] == Group(active, k) && groups[k] != []
    ensures merged == RowsFor(active, order)
  {
    merged := [];
    for i := 0 to |order|
      invariant merged == RowsFor(active, order)[..i]
    {
      PrefixGrows(RowsFor(active, order), i);
      var row := MergeGroup(active, order[i], groups[order[i]]);
      merged := merged + [row];
    }
  }

  method DeduplicateInboxItems(items: seq<Item>) returns (rows: seq<Item>)
    ensures rows == Rows(items)
  {
    var active := Active(items);
    var order, groups := GroupByKey(active);
    KeysHaveGroups(active);
    var merged := MergeGroups(active, order, groups);
    rows := Sort(Newer, merged);
  }

  // ---------------------------------------------------------------- laws

  lemma {:induction false} ActiveAre(items: seq<Item>)
    ensures forall i :: i in Active(items) <==> i in items && !i.archived
  {
    if items != [] {
      assert items == items[..|items| - 1] + [items[|items| - 1]];
      ActiveAre(items[..|items| - 1]);
    }
  }

  lemma NewerIsPreorder(items: seq<Item>)
    ensures PreorderOn(Newer, items)
  {
  }

  ghost predicate Member(i: Item, active: seq<Item>, key: string) { i in active && Key(i) == key }

  ghost predicate IsNewest(newest: Item, active: seq<Item>, key: string) {
    Member(newest, active, key) && forall i :: Member(i, active, key) ==> i.time <= newest.time
  }

  ghost predicate IsNewestComment(c: Item, active: seq<Item>, key: string) {
    && Member(c, active, key) && HasComment(c)
    && forall i :: Member(i, active, key) && HasComment(i) ==> i.time <= c.time
  }

  // The row of a key: the newest of its unarchived items; when that item has no comment
  // anchor at all, not even an empty one, it borrows the newest one of its group.
  ghost predicate IsRowOf(row: Item, active: seq<Item>, key: string) {
    exists newest :: IsNewest(newest, active, key) && Anchored(row, newest, active, key)
  }

  ghost predicate Anchored(row: Item, newest: Item, active: seq<Item>, key: string) {
    if CommentOf(newest).Some? || (forall i :: Member(i, active, key) ==> !HasComment(i)) then row == newest
    else exists c :: IsNewestComment(c, active, key) && row == WithComment(newest, CommentOf(c))
  }

  // The group of a key, sorted, lists its members newest first.
  lemma SortedGroup(active: seq<Item>, key: string)
    ensures var sorted := Sort(Newer, Group(active, key));
      && |sorted| == |Group(active, key)|
      && (forall i :: i in sorted <==> Member(i, active, key))
      && (forall a, b :: 0 <= a < b < |sorted| ==> sorted[b].time <= sorted[a].time)
  {
    var sorted := Sort(Newer, Group(active, key));
    GroupAre(active, key);
    SortKeepsElements(Newer, Group(active, key));
    NewerIsPreorder(Group(active, key));
    SortOrders(Newer, Group(active, key));
    assert forall a, b :: 0 <= a < b < |sorted| ==> Newer(sorted[a], sorted[b]);
  }

  lemma {:induction false} FirstCommentAt(group: seq<Item>) returns (k: nat)
    ensures k <= |group| && forall j :: 0 <= j < k ==> !HasComment(group[j])
    ensures k < |group| ==> HasComment(group[k]) && FirstComment(group) == CommentOf(group[k])
    ensures k == |group| ==> FirstComment(group) == None
  {
    if group == [] || HasComment(group[0]) { return 0; }
    var rest := FirstCommentAt(group[1..]);
    k := rest + 1;
  }

  lemma RowIsNewest(active: seq<Item>, key: string)
    requires Group(active, key) != []
    ensures Sort(Newer, Group(active, key)) != []
    ensures IsRowOf(RowOf(Sort(Newer, Group(active, key))), active, key)
  {
    var sorted := Sort(Newer, Group(active, key));
    SortedGroup(active, key);
    RowOfSorted(sorted, active, key);
  }

  lemma RowOfSorted(sorted: seq<Item>, active: seq<Item>, key: string)
    requires sorted != [] && forall i :: i in sorted <==> Member(i, active, key)
    requires forall a, b :: 0 <= a < b < |sorted| ==> sorted[b].time <= sorted[a].time
    ensures IsRowOf(RowOf(sorted), active, key)
  {
    var newest := sorted[0];
    assert newest in sorted;
    forall i | Member(i, active, key) ensures i.time <= newest.time {
      assert i in sorted;
    }
    var k := FirstCommentAt(sorted);
    if k < |sorted| {
      CommentAtIsNewest(sorted, active, key, k);
    } else {
      forall i | Member(i, active, key) ensures !HasComment(i) { assert i in sorted; }
    }
    assert Anchored(RowOf(sorted), newest, active, key);
  }

  lemma CommentAtIsNewest(sorted: seq<Item>, active: seq<Item>, key: string, k: nat)
    requires forall i :: i in sorted <==> Member(i, active, key)
    requires forall a, b :: 0 <= a < b < |sorted| ==> sorted[b].time <= sorted[a].time
    requires k < |sorted| && HasComment(sorted[k]) && forall j :: 0 <= j < k ==> !HasComment(sorted[j])
    ensures IsNewestComment(sorted[k], active, key)
  {
    assert sorted[k] in sorted;
    forall i | Member(i, active, key) && HasComment(i) ensures i.time <= sorted[k].time {
      assert i in sorted;
    }
  }

  lemma RowKeepsKey(row: Item, active: seq<Item>, key: string)
    requires IsRowOf(row, active, key)
    ensures Key(row) == key && (forall i :: i in active ==> !i.archived) ==> !row.archived
    ensures Key(row) == key
  {
  }

  lemma RowsForAre(active: seq<Item>, keys: seq<string>)
    requires forall k :: k in keys ==> Group(active, k) != []
    ensures |RowsFor(active, keys)| == |keys|
    ensures forall i :: 0 <= i < |keys| ==> IsRowOf(RowsFor(active, keys)[i], active, keys[i])
  {
    forall i | 0 <= i < |keys| ensures IsRowOf(RowsFor(active, keys)[i], active, keys[i]) {
      assert keys[i] in keys;
      RowIsNewest(active, keys[i]);
    }
  }

  // One row per key of an unarchived item, newest first.
  lemma InboxLaws(items: seq<Item>)
    ensures var rows, active := Rows(items), Active(items);
      && (forall row :: row in rows ==> IsRowOf(row, active, Key(row)))
      && (forall i :: i in items && !i.archived ==> exists row :: row in rows && Key(row) == Key(i))
      && |rows| == |Keys(active)|
      && (forall a, b :: 0 <= a < b < |rows| ==> Key(rows[a]) != Key(rows[b]) && rows[b].time <= rows[a].time)
  {
    var active := Active(items);
    var unsorted := RowsBeforeSort(active);
    ActiveAre(items);
    assert Rows(items) == Sort(Newer, unsorted);
    SortedRowsKeep(active, unsorted);
    RowsInOrder(unsorted);
  }

  lemma SortedRowsKeep(active: seq<Item>, unsorted: seq<Item>)
    requires DistinctKeys(unsorted)
    requires forall row :: row in unsorted ==> IsRowOf(row, active, Key(row))
    requires forall i :: i in active ==> exists row :: row in unsorted && Key(row) == Key(i)
    ensures var rows := Sort(Newer, unsorted);
      && |rows| == |unsorted| && DistinctKeys(rows)
      && (forall row :: row in rows ==> IsRowOf(row, active, Key(row)))
      && (forall i :: i in active ==> exists row :: row in rows && Key(row) == Key(i))
  {
    var rows := Sort(Newer, unsorted);
    SortKeepsElements(Newer, unsorted);
    KeysDistinctAfterSort(unsorted, rows);
    forall i | i in active ensures exists row :: row in rows && Key(row) == Key(i) {
      var row :| row in unsorted && Key(row) == Key(i);
      assert row in rows;
    }
  }

  lemma RowsInOrder(unsorted: seq<Item>)
    ensures var rows := Sort(Newer, unsorted);
      forall a, b :: 0 <= a < b < |rows| ==> rows[b].time <= rows[a].time
  {
    var rows := Sort(Newer, unsorted);
    NewerIsPreorder(unsorted);
    SortOrders(Newer, unsorted);
    assert forall a, b :: 0 <= a < b < |rows| ==> Newer(rows[a], rows[b]);
  }

  lemma RowsBeforeSort(active: seq<Item>) returns (unsorted: seq<Item>)
    ensures forall k :: k in Keys(active) ==> Group(active, k) != []
    ensures unsorted == RowsFor(active, Keys(active))
    ensures |unsorted| == |Keys(active)| && DistinctKeys(unsorted)
    ensures forall row :: row in unsorted ==> IsRowOf(row, active, Key(row))
    ensures forall i :: i in active ==> exists row :: row in unsorted && Key(row) == Key(i)
  {
    var keys := Keys(active);
    KeysHaveGroups(active);
    KeysAre(active);
    unsorted := RowsFor(active, keys);
    RowsForAre(active, keys);
    forall i | 0 <= i < |keys| ensures Key(unsorted[i]) == keys[i] { RowKeepsKey(unsorted[i], active, keys[i]); }
    forall i | i in active ensures exists row :: row in unsorted && Key(row) == Key(i) {
      assert Key(i) in keys;
      var j :| 0 <= j < |keys| && keys[j] == Key(i);
      assert unsorted[j] in unsorted;
    }
  }

  predicate DistinctKeys(rows: seq<Item>) {
    forall a, b :: 0 <= a < b < |rows| ==> Key(rows[a]) != Key(rows[b])
  }

  lemma KeysDistinctAfterSort(unsorted: seq<Item>, rows: seq<Item>)
    requires DistinctKeys(unsorted) && multiset(unsorted) == multiset(rows)
    ensures DistinctKeys(rows)
  {
    assert Distinct(unsorted);
    PermutedDistinct(unsorted, rows);
    SameMultisetSameElements(unsorted, rows);
    forall a, b | 0 <= a < b < |rows| ensures Key(rows[a]) != Key(rows[b]) {
      assert rows[a] in unsorted && rows[b] in unsorted;
    }
  }

  // ---------------------------------------------------------------- the promised anchor

  // The newest item of a key: the first to arrive among those with the latest time.
  function NewestOf(active: seq<Item>, key: string): Item
    requires Group(active, key) != []
  {
    SortKeepsElements(Newer, Group(active, key));
    Sort(Newer, Group(active, key))[0]
  }

  ghost predicate SomeComment(active: seq<Item>, key: string) {
    exists i :: Member(i, active, key) && HasComment(i)
  }

  // The row carries the newest non-empty comment anchor of its group, if there is one.
  ghost predicate CarriesNewestAnchor(row: Item, active: seq<Item>, key: string) {
    SomeComment(active, key) ==> exists c :: IsNewestComment(c, active, key) && CommentOf(row) == CommentOf(c)
  }

  // The code keeps this promise for a group exactly unless its newest item has an anchor that
  // is present but empty while another item has one to offer.
  lemma AnchorKeptIff(active: seq<Item>, key: string)
    requires Group(active, key) != []
    ensures CarriesNewestAnchor(RowFor(active, key), active, key)
      <==> !(CommentOf(NewestOf(active, key)) == Some("") && SomeComment(active, key))
  {
    var sorted := Sort(Newer, Group(active, key));
    SortedGroup(active, key);
    var newest := sorted[0];
    assert newest in sorted && newest == NewestOf(active, key);
    var k := FirstCommentAt(sorted);
    if k < |sorted| {
      CommentAtIsNewest(sorted, active, key, k);
      assert HasComment(newest) ==> k == 0;
    } else {
      forall i | Member(i, active, key) ensures !HasComment(i) { assert i in sorted; }
    }
  }

  // The row of the result for a key is the row of its group.
  lemma RowsAreRowFor(items: seq<Item>, row: Item)
    requires row in Rows(items)
    ensures Group(Active(items), Key(row)) != [] && row == RowFor(Active(items), Key(row))
  {
    var active := Active(items);
    KeysHaveGroups(active);
    SortKeepsElements(Newer, RowsFor(active, Keys(active)));
    RowForItsKey(active, Keys(active), row);
  }

  lemma RowForItsKey(active: seq<Item>, keys: seq<string>, row: Item)
    requires forall k :: k in keys ==> Group(active, k) != []
    requires row in RowsFor(active, keys)
    ensures Group(active, Key(row)) != [] && row == RowFor(active, Key(row))
  {
    var i :| 0 <= i < |keys| && RowsFor(active, keys)[i] == row;
    assert keys[i] in keys;
    RowIsNewest(active, keys[i]);
    RowKeepsKey(row, active, keys[i]);
  }

  // So a row of the result carries the newest anchor of its group exactly unless the newest
  // item of the group has an empty one and another item has not.
  lemma AnchorPromiseIff(items: seq<Item>, row: Item)
    requires row in Rows(items)
    ensures var active, key := Active(items), Key(row);
      && Group(active, key) != []
      && (CarriesNewestAnchor(row, active, key)
          <==> !(CommentOf(NewestOf(active, key)) == Some("") && SomeComment(active, key)))
  {
    RowsAreRowFor(items, row);
    AnchorKeptIff(Active(items), Key(row));
  }

  // A status event with an empty anchor hides the comment it follows.
  lemma EmptyAnchorHidesComment(event: Item, comment: Item)
    requires Key(event) == Key(comment) && event.time > comment.time
    requires CommentOf(event) == Some("") && HasComment(comment)
    ensures Group([event, comment], Key(event)) == [event, comment]
    ensures RowFor([event, comment], Key(event)) == event
    ensures !CarriesNewestAnchor(event, [event, comment], Key(event))
  {
    var active, key := [event, comment], Key(event);
    TwoInGroup(event, comment);
    assert active[1..] == [comment] && [comment][1..] == [];
    assert Insert(Newer, comment, []) == [comment];
    assert Insert(Newer, event, [comment]) == active;
    assert Sort(Newer, active) == active;
    assert comment in active && Member(comment, active, key);
  }

  lemma TwoInGroup(a: Item, b: Item)
    requires Key(a) == Key(b)
    ensures Group([a, b], Key(a)) == [a, b]
  {
    assert [a, b][..1] == [a] && [a][..0] == [];
    assert Group([a], Key(a)) == Group([], Key(a)) + [a];
  }

  // ---------------------------------------------------------------- again, and in any order

  lemma {:induction false} SingletonGroups(rows: seq<Item>, i: nat)
    requires DistinctKeys(rows) && i < |rows|
    ensures Group(rows, Key(rows[i])) == [rows[i]]
  {
    var most := rows[..|rows| - 1];
    if i < |most| {
      SingletonGroups(most, i);
    } else {
      NoGroup(most, Key(rows[i]));
    }
  }

  lemma {:induction false} NoGroup(rows: seq<Item>, key: string)
    requires forall i :: 0 <= i < |rows| ==> Key(rows[i]) != key
    ensures Group(rows, key) == []
  {
    if rows != [] { NoGroup(rows[..|rows| - 1], key); }
  }

  lemma {:induction false} DistinctKeysList(rows: seq<Item>)
    requires DistinctKeys(rows)
    ensures |Keys(rows)| == |rows| && forall i :: 0 <= i < |rows| ==> Keys(rows)[i] == Key(rows[i])
  {
    if rows != [] {
      var most := rows[..|rows| - 1];
      DistinctKeysList(most);
    }
  }

  lemma {:induction false} ActiveStays(rows: seq<Item>)
    requires forall i :: 0 <= i < |rows| ==> !rows[i].archived
    ensures Active(rows) == rows
  {
    if rows != [] {
      ActiveStays(rows[..|rows| - 1]);
      assert rows == rows[..|rows| - 1] + [rows[|rows| - 1]];
    }
  }

  lemma RowOfOne(item: Item)
    ensures Sort(Newer, [item]) == [item] && RowOf([item]) == item
  {
    assert [item][1..] == [];
    assert Insert(Newer, item, []) == [item];
    assert FirstComment([item][1..]) == None;
    assert FirstComment([item]) == if HasComment(item) then CommentOf(item) else None;
  }

  lemma RowsForSingles(rows: seq<Item>)
    requires DistinctKeys(rows)
    requires |Keys(rows)| == |rows| && forall i :: 0 <= i < |rows| ==> Keys(rows)[i] == Key(rows[i])
    requires forall k :: k in Keys(rows) ==> Group(rows, k) != []
    ensures RowsFor(rows, Keys(rows)) == rows
  {
    forall i | 0 <= i < |rows| ensures RowsFor(rows, Keys(rows))[i] == rows[i] {
      SingletonGroups(rows, i);
      RowOfOne(rows[i]);
    }
  }

  // Grouping the rows again changes nothing.
  lemma InboxIdempotent(items: seq<Item>)
    ensures Rows(Rows(items)) == Rows(items)
  {
    var rows := Rows(items);
    InboxLaws(items);
    ActiveAre(items);
    forall i | 0 <= i < |rows| ensures !rows[i].archived {
      assert rows[i] in rows;
      RowKeepsKey(rows[i], Active(items), Key(rows[i]));
    }
    ActiveStays(rows);
    DistinctKeysList(rows);
    KeysHaveGroups(rows);
    RowsForSingles(rows);
    assert Ordered(Newer, rows);
    SortFixesOrdered(Newer, rows);
  }

  predicate DistinctTimes(items: seq<Item>) {
    forall i, j :: 0 <= i < j < |items| ==> items[i].time != items[j].time
  }

  // No two of the items share a time.
  ghost predicate TimesTellApart(items: seq<Item>) {
    forall x, y :: x in items && y in items && x.time == y.time ==> x == y
  }

  lemma DistinctTimesTellApart(a: seq<Item>)
    requires DistinctTimes(a)
    ensures TimesTellApart(a) && TimesTellApart(Active(a))
  {
    forall x, y | x in a && y in a && x.time == y.time ensures x == y {
      var i :| 0 <= i < |a| && a[i] == x;
      var j :| 0 <= j < |a| && a[j] == y;
    }
    ActiveAre(a);
  }

  lemma SameActive(a: seq<Item>, b: seq<Item>)
    requires multiset(a) == multiset(b)
    ensures forall i :: i in Active(a) <==> i in Active(b)
    ensures TimesTellApart(a) ==> TimesTellApart(b) && TimesTellApart(Active(b))
  {
    SameMultisetSameElements(a, b);
    ActiveAre(a);
    ActiveAre(b);
  }

  // The order in which items arrive does not matter when their times differ.
  lemma InboxIgnoresArrivalOrder(a: seq<Item>, b: seq<Item>)
    requires multiset(a) == multiset(b) && DistinctTimes(a)
    ensures Rows(a) == Rows(b)
  {
    DistinctTimesTellApart(a);
    SameActive(a, b);
    forall row ensures row in Rows(a) <==> row in Rows(b) {
      if row in Rows(a) { RowCarriesOver(a, b, row); }
      if row in Rows(b) { RowCarriesOver(b, a, row); }
    }
    RowTimesDiffer(a);
    RowTimesDiffer(b);
    OrderedArrangementIsUnique(Newer, Rows(a), Rows(b));
  }

  lemma RowCarriesOver(a: seq<Item>, b: seq<Item>, row: Item)
    requires forall i :: i in Active(a) <==> i in Active(b)
    requires TimesTellApart(Active(a))
    requires row in Rows(a)
    ensures row in Rows(b)
  {
    var n := RowHasItem(a, row);
    var other := ItemHasRow(b, n);
    SameGroupSameRow(Active(a), Active(b), Key(row), row, other);
  }

  lemma RowHasItem(items: seq<Item>, row: Item) returns (n: Item)
    requires row in Rows(items)
    ensures IsRowOf(row, Active(items), Key(row)) && Member(n, Active(items), Key(row))
  {
    InboxLaws(items);
    n :| IsNewest(n, Active(items), Key(row)) && Anchored(row, n, Active(items), Key(row));
  }

  lemma ItemHasRow(items: seq<Item>, item: Item) returns (row: Item)
    requires item in Active(items)
    ensures row in Rows(items) && IsRowOf(row, Active(items), Key(item))
  {
    InboxLaws(items);
    ActiveAre(items);
    row :| row in Rows(items) && Key(row) == Key(item);
  }

  // Two rows that borrow the newest comment of their group borrow the same one.
  lemma SameNewestSameRow(a: seq<Item>, b: seq<Item>, key: string, n: Item, row: Item, other: Item)
    requires forall i :: Member(i, a, key) <==> Member(i, b, key)
    requires forall x, y :: x in a && y in a && x.time == y.time ==> x == y
    requires Anchored(row, n, a, key) && Anchored(other, n, b, key)
    ensures row == other
  {
    if CommentOf(n).None? && exists i :: Member(i, a, key) && HasComment(i) {
      var c :| IsNewestComment(c, a, key) && row == WithComment(n, CommentOf(c));
      var d :| IsNewestComment(d, b, key) && other == WithComment(n, CommentOf(d));
      assert c == d;
    }
  }

  // Two rows of the same group are the same row when no two of its items share a time.
  lemma SameGroupSameRow(a: seq<Item>, b: seq<Item>, key: string, row: Item, other: Item)
    requires forall i :: i in a <==> i in b
    requires forall x, y :: x in a && y in a && x.time == y.time ==> x == y
    requires IsRowOf(row, a, key) && IsRowOf(other, b, key)
    ensures row == other
  {
    assert forall i :: Member(i, a, key) <==> Member(i, b, key);
    var n :| IsNewest(n, a, key) && Anchored(row, n, a, key);
    var m :| IsNewest(m, b, key) && Anchored(other, m, b, key);
    assert n == m;
    SameNewestSameRow(a, b, key, n, row, other);
  }

  lemma RowsInDescendingTime(items: seq<Item>)
    ensures Ordered(Newer, Rows(items)) && Distinct(Rows(items))
  {
    InboxLaws(items);
    var rows := Rows(items);
    forall a, b | 0 <= a < b < |rows| ensures Newer(rows[a], rows[b]) && rows[a] != rows[b] {
      assert Key(rows[a]) != Key(rows[b]);
    }
  }

  lemma RowTimesDiffer(items: seq<Item>)
    requires TimesTellApart(Active(items))
    ensures Ordered(Newer, Rows(items)) && Distinct(Rows(items)) && AntisymmetricOn(Newer, Rows(items))
  {
    RowsInDescendingTime(items);
    var rows := Rows(items);
    forall x, y | x in rows && y in rows && Newer(x, y) && Newer(y, x) ensures x == y {
      var n := RowHasItem(items, x);
      var m := RowHasItem(items, y);
      SameTimeSameKey(Active(items), x, y);
    }
  }

  lemma SameTimeSameKey(active: seq<Item>, x: Item, y: Item)
    requires TimesTellApart(active)
    requires IsRowOf(x, active, Key(x)) && IsRowOf(y, active, Key(y)) && x.time == y.time
    ensures x == y
  {
    var n :| IsNewest(n, active, Key(x)) && Anchored(x, n, active, Key(x));
    var m :| IsNewest(m, active, Key(y)) && Anchored(y, m, active, Key(y));
    assert n == m;
    SameGroupSameRow(active, active, Key(x), x, y);
  }

  // ---------------------------------------------------------------- issue by issue

  // Items of one issue belong together; an item without an issue stands for itself.
  predicate SameSubject(a: Item, b: Item) {
    match a.issueId
    case Some(x) => (match b.issueId case Some(y) => x == y case None => x == b.id)
    case None => (match b.issueId case Some(y) => a.id == y case None => a.id == b.id)
  }

  predicate HasAnchor(item: Item, c: string) {
    c != "" && item.details.Some? && item.details.value.commentId == Some(c)
  }

  // `c` is the newest non-empty comment anchor of the unarchived items that belong to `n`.
  ghost predicate NewestAnchor(items: seq<Item>, n: Item, c: string) {
    exists i :: i in items && !i.archived && SameSubject(i, n) && HasAnchor(i, c)
      && forall j, d :: j in items && !j.archived && SameSubject(j, n) && HasAnchor(j, d) ==> j.time <= i.time
  }

  // The row is the newest of its items. It takes the newest anchor of the others exactly where it
  // has none at all, not even an empty one; what else its details carry stays.
  ghost predicate ShowsNewest(items: seq<Item>, row: Item, n: Item) {
    && n in items && !n.archived && (forall i :: i in items && !i.archived && SameSubject(i, n) ==> i.time <= n.time)
    && row.id == n.id && row.issueId == n.issueId && row.time == n.time && row.body == n.body && !row.archived
    && (if (n.details.None? || n.details.value.commentId.None?) && exists c :: NewestAnchor(items, n, c) then
          && row.details.Some? && row.details.value.commentId.Some?
          && NewestAnchor(items, n, row.details.value.commentId.value)
          && row.details.value.carried == (if n.details.Some? then n.details.value.carried else "")
        else row.details == n.details)
  }

  lemma SubjectIsKey(a: Item, b: Item)
    ensures SameSubject(a, b) <==> Key(a) == Key(b)
  {
  }

  lemma AnchorIsComment(i: Item, c: string)
    ensures HasAnchor(i, c) <==> HasComment(i) && CommentOf(i) == Some(c)
  {
  }

  lemma RowShowsNewest(items: seq<Item>, row: Item, n: Item)
    requires IsNewest(n, Active(items), Key(row)) && Anchored(row, n, Active(items), Key(row))
    ensures ShowsNewest(items, row, n)
  {
    ActiveAre(items);
    forall i | i in items && !i.archived && SameSubject(i, n) ensures i.time <= n.time {
      SubjectIsKey(i, n);
      assert Member(i, Active(items), Key(row));
    }
    if CommentOf(n).None? && exists i :: Member(i, Active(items), Key(row)) && HasComment(i) {
      var c :| IsNewestComment(c, Active(items), Key(row)) && row == WithComment(n, CommentOf(c));
      BorrowedIsNewest(items, n, c, Key(row));
    } else if CommentOf(n).None? {
      NothingToBorrow(items, n);
    }
  }

  lemma NothingToBorrow(items: seq<Item>, n: Item)
    requires forall i :: Member(i, Active(items), Key(n)) ==> !HasComment(i)
    ensures !exists c :: NewestAnchor(items, n, c)
  {
    ActiveAre(items);
    forall i, c | i in items && !i.archived && SameSubject(i, n) ensures !HasAnchor(i, c) {
      SubjectIsKey(i, n);
      AnchorIsComment(i, c);
      assert Member(i, Active(items), Key(n));
    }
  }

  lemma BorrowedIsNewest(items: seq<Item>, n: Item, c: Item, key: string)
    requires Key(n) == key && IsNewestComment(c, Active(items), key)
    ensures NewestAnchor(items, n, CommentOf(c).value)
  {
    ActiveAre(items);
    SubjectIsKey(c, n);
    AnchorIsComment(c, CommentOf(c).value);
    forall j, d | j in items && !j.archived && SameSubject(j, n) && HasAnchor(j, d) ensures j.time <= c.time {
      SubjectIsKey(j, n);
      AnchorIsComment(j, d);
      assert Member(j, Active(items), key);
    }
  }

  // One row for each issue with an unarchived item, and for each such item without an issue,
  // newest first.
  lemma OneRowPerIssue(items: seq<Item>)
    ensures var rows := Rows(items);
      && (forall i :: i in items && !i.archived ==> exists row :: row in rows && SameSubject(row, i))
      && (forall a, b :: 0 <= a < b < |rows| ==> !SameSubject(rows[a], rows[b]) && rows[b].time <= rows[a].time)
      && (forall row :: row in rows ==> exists n :: ShowsNewest(items, row, n))
  {
    var rows := Rows(items);
    InboxLaws(items);
    forall i | i in items && !i.archived ensures exists row :: row in rows && SameSubject(row, i) {
      var row :| row in rows && Key(row) == Key(i);
      SubjectIsKey(row, i);
    }
    forall a, b | 0 <= a < b < |rows| ensures !SameSubject(rows[a], rows[b]) { SubjectIsKey(rows[a], rows[b]); }
    forall row | row in rows ensures exists n :: ShowsNewest(items, row, n) {
      var n :| IsNewest(n, Active(items), Key(row)) && Anchored(row, n, Active(items), Key(row));
      RowShowsNewest(items, row, n);
    }
  }
}
