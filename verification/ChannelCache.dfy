// The flat transcript cache of packages/core/channels/cache.ts: rows are absorbed one at a time
// and then sorted.
module ChannelCache {
  import opened Options
  import opened StableSort

  // Everything that identifies the request behind a message; the endpoint returns no
  // client mutation id, so this is how a response is matched to its placeholder.
  datatype Request = Request(
    workspaceId: string, channelId: string, authorType: string, authorId: string,
    content: string, parentId: Option<string>, quotedMessageId: Option<string>)

  datatype Entry = Entry(
    id: string, request: Request, createdAt: string, updatedAt: string, optimistic: Option<bool>)

  predicate Pending(e: Entry) { e.optimistic == Some(true) }

  predicate SameMessageRequest(left: Entry, right: Entry) { left.request == right.request }

  // `{ ...existing, ...incoming }`: only `optimistic` can be absent from a row.
  function Spread(existing: Entry, incoming: Entry): Entry {
    incoming.(optimistic := incoming.optimistic.OrElse(existing.optimistic))
  }

  function MergeMessage(existing: Entry, incoming: Entry): Entry {
    if Pending(existing) && !Pending(incoming) then incoming
    else if !Pending(existing) && Pending(incoming) then existing
    else Spread(existing, incoming)
  }

  // ---------------------------------------------------------------- comparator

  // `Date.parse` (None for NaN) and `localeCompare`.
  datatype Clock = Clock(parse: string -> Option<int>, collate: (string, string) -> int) {

    function Compare(left: Entry, right: Entry): int {
      var l, r := parse(left.createdAt), parse(right.createdAt);
      if l.Some? && r.Some? && l != r then l.value - r.value
      else
        var byTimestamp := collate(left.createdAt, right.createdAt);
        if byTimestamp != 0 then byTimestamp else collate(left.id, right.id)
    }

    predicate Le(left: Entry, right: Entry) { Compare(left, right) <= 0 }

    // The collation is a total order.
    ghost predicate Lawful() {
      && (forall a, b :: collate(a, b) == 0 <==> a == b)
      && (forall a, b :: collate(a, b) < 0 <==> collate(b, a) > 0)
      && (forall a, b, c {:trigger collate(a, b), collate(b, c), collate(a, c)} ::
            collate(a, b) <= 0 && collate(b, c) <= 0 ==> collate(a, c) <= 0)
    }

    // No unparseable timestamp collates between two parsed ones whose times run the
    // other way. Holds in particular when every timestamp parses, or none does.
    ghost predicate Consistent(stamps: set<string>) {
      forall a, b, c ::
        a in stamps && b in stamps && c in stamps
        && parse(a).Some? && parse(b).Some? && parse(c).None?
        && collate(a, c) < 0 && collate(c, b) < 0
        ==> parse(a).value <= parse(b).value
    }
  }

  ghost function Stamps(list: seq<Entry>): set<string> {
    set e | e in list :: e.createdAt
  }

  lemma LeIsTotal(clock: Clock, a: Entry, b: Entry)
    requires clock.Lawful()
    ensures clock.Le(a, b) || clock.Le(b, a)
    ensures clock.Le(a, b) && clock.Le(b, a) ==> a.id == b.id
  {
    assert clock.collate(a.id, b.id) < 0 || clock.collate(a.id, b.id) == 0 || clock.collate(b.id, a.id) < 0;
    assert clock.collate(a.createdAt, b.createdAt) < 0 || clock.collate(a.createdAt, b.createdAt) == 0
      || clock.collate(b.createdAt, a.createdAt) < 0;
  }

  lemma LeIsTransitive(clock: Clock, a: Entry, b: Entry, c: Entry)
    requires clock.Lawful()
    requires clock.Consistent({a.createdAt, b.createdAt, c.createdAt})
    requires clock.Le(a, b) && clock.Le(b, c)
    ensures clock.Le(a, c)
  {
    var ta, tb, tc := a.createdAt, b.createdAt, c.createdAt;
    var collate := clock.collate;
    assert collate(ta, tb) <= 0 && collate(tb, tc) <= 0 ==> collate(ta, tc) <= 0;
    assert collate(ta, tc) == 0 <==> ta == tc;
    assert collate(a.id, b.id) <= 0 && collate(b.id, c.id) <= 0 ==> collate(a.id, c.id) <= 0;
    if !clock.Le(a, c) {
      LeIsTotal(clock, a, c);
      assert clock.Le(c, a);
      assert collate(tb, tc) <= 0 && collate(tc, ta) <= 0 ==> collate(tb, ta) <= 0;
      assert collate(tc, ta) <= 0 && collate(ta, tb) <= 0 ==> collate(tc, tb) <= 0;
    }
  }

  lemma ConsistentGivesPreorder(clock: Clock, rows: seq<Entry>)
    requires clock.Lawful() && clock.Consistent(Stamps(rows))
    ensures PreorderOn(clock.Le, rows)
  {
    forall x, y | x in rows && y in rows ensures clock.Le(x, y) || clock.Le(y, x) {
      LeIsTotal(clock, x, y);
    }
    forall x, y, z | x in rows && y in rows && z in rows && clock.Le(x, y) && clock.Le(y, z)
      ensures clock.Le(x, z)
    {
      LeIsTransitive(clock, x, y, z);
    }
  }

  // Three rows that each sort strictly before the next cannot be put in order.
  lemma CycleHasNoOrder(clock: Clock, rows: seq<Entry>, a: Entry, b: Entry, c: Entry)
    requires clock.Lawful() && Ordered(clock.Le, rows)
    requires a in rows && b in rows && c in rows
    ensures clock.Le(a, b) || clock.Le(b, c) || clock.Le(c, a)
  {
    var i :| 0 <= i < |rows| && rows[i] == a;
    var j :| 0 <= j < |rows| && rows[j] == b;
    var k :| 0 <= k < |rows| && rows[k] == c;
    LeIsTotal(clock, a, a);
  }

  // The exact condition under which a transcript can be sorted at all.
  lemma SortableIffConsistent(clock: Clock, rows: seq<Entry>)
    requires clock.Lawful()
    ensures Ordered(clock.Le, Sort(clock.Le, rows)) <==> clock.Consistent(Stamps(rows))
    ensures (exists t :: multiset(t) == multiset(rows) && Ordered(clock.Le, t))
      <==> clock.Consistent(Stamps(rows))
  {
    if clock.Consistent(Stamps(rows)) {
      ConsistentGivesPreorder(clock, rows);
      SortOrders(clock.Le, rows);
      assert multiset(Sort(clock.Le, rows)) == multiset(rows);
    }
    forall t: seq<Entry> | multiset(t) == multiset(rows) && Ordered(clock.Le, t)
      ensures clock.Consistent(Stamps(rows))
    {
      SameMultisetSameElements(t, rows);
      OrderedImpliesConsistent(clock, t);
      assert Stamps(t) == Stamps(rows);
    }
    assert multiset(Sort(clock.Le, rows)) == multiset(rows);
  }

  lemma OrderedImpliesConsistent(clock: Clock, t: seq<Entry>)
    requires clock.Lawful() && Ordered(clock.Le, t)
    ensures clock.Consistent(Stamps(t))
  {
    var stamps := Stamps(t);
    forall a, b, c |
      a in stamps && b in stamps && c in stamps
      && clock.parse(a).Some? && clock.parse(b).Some? && clock.parse(c).None?
      && clock.collate(a, c) < 0 && clock.collate(c, b) < 0
      ensures clock.parse(a).value <= clock.parse(b).value
    {
      var x :| x in t && x.createdAt == a;
      var y :| y in t && y.createdAt == b;
      var z :| z in t && z.createdAt == c;
      CycleHasNoOrder(clock, t, z, x, y);
    }
  }

  // ---------------------------------------------------------------- merging lists

  function IndexOfId(list: seq<Entry>, id: string): (k: nat)
    ensures k <= |list|
    ensures k < |list| ==> list[k].id == id
    ensures forall j :: 0 <= j < k ==> list[j].id != id
  {
    if list == [] || list[0].id == id then 0 else 1 + IndexOfId(list[1..], id)
  }

  predicate Answers(message: Entry, item: Entry) {
    Pending(item) && SameMessageRequest(item, message)
  }

  function IndexOfPlaceholder(list: seq<Entry>, message: Entry): (k: nat)
    ensures k <= |list|
    ensures k < |list| ==> Answers(message, list[k])
    ensures forall j :: 0 <= j < k ==> !Answers(message, list[j])
  {
    if list == [] || Answers(message, list[0]) then 0 else 1 + IndexOfPlaceholder(list[1..], message)
  }

  // One turn of the loop over `incoming`.
  function Absorb(list: seq<Entry>, message: Entry): seq<Entry> {
    var byId := IndexOfId(list, message.id);
    if byId < |list| then list[byId := MergeMessage(list[byId], message)]
    else
      var placeholder := IndexOfPlaceholder(list, message);
      if placeholder < |list| then list[placeholder := message] else list + [message]
  }

  function AbsorbAll(list: seq<Entry>, incoming: seq<Entry>): seq<Entry>
    decreases |incoming|
  {
    if incoming == [] then list else AbsorbAll(Absorb(list, incoming[0]), incoming[1..])
  }

  // Did any turn change the list?
  predicate Touched(list: seq<Entry>, incoming: seq<Entry>)
    decreases |incoming|
  {
    incoming != []
    && (Absorb(list, incoming[0]) != list || Touched(Absorb(list, incoming[0]), incoming[1..]))
  }

  function Merge(clock: Clock, existing: seq<Entry>, incoming: seq<Entry>): seq<Entry> {
    if Touched(existing, incoming) then Sort(clock.Le, AbsorbAll(existing, incoming)) else existing
  }

  method MergeMessageLists(clock: Clock, existing: seq<Entry>, incoming: seq<Entry>)
    returns (result: seq<Entry>)
    ensures result == Merge(clock, existing, incoming)
  {
    var next := existing;
    var changed := false;
    for i := 0 to |incoming|
      invariant AbsorbAll(next, incoming[i..]) == AbsorbAll(existing, incoming)
      invariant changed || Touched(next, incoming[i..]) <==> Touched(existing, incoming)
      invariant !changed ==> next == existing
    {
      var message := incoming[i];
      ghost var before := next;
      assert incoming[i..][1..] == incoming[i + 1..];
      var byId := IndexOfId(next, message.id);
      if byId < |next| {
        var merged := MergeMessage(next[byId], message);
        if merged != next[byId] {
          next := next[byId := merged];
          changed := true;
        }
        assert next == Absorb(before, message);
        continue;
      }
      var placeholder := IndexOfPlaceholder(next, message);
      if placeholder < |next| {
        next := next[placeholder := message];
      } else {
        next := next + [message];
      }
      changed := true;
      assert next == Absorb(before, message) != before;
    }
    if !changed { return existing; }
    return Sort(clock.Le, next);
  }

  // ---------------------------------------------------------------- invariants

  predicate UniqueIds(list: seq<Entry>) {
    forall i, j :: 0 <= i < j < |list| ==> list[i].id != list[j].id
  }

  function Ids(list: seq<Entry>): set<string> {
    set e | e in list :: e.id
  }

  ghost function ServerIds(list: seq<Entry>): set<string> {
    set e | e in list && !Pending(e) :: e.id
  }

  // A turn writes `message` or its merge at one position and touches no other.
  ghost function TurnIndex(list: seq<Entry>, message: Entry): (k: nat)
    ensures k <= |list|
  {
    var byId := IndexOfId(list, message.id);
    if byId < |list| then byId else IndexOfPlaceholder(list, message)
  }

  lemma AbsorbShape(list: seq<Entry>, message: Entry)
    ensures var k, next := TurnIndex(list, message), Absorb(list, message);
      && |next| == (if k < |list| then |list| else |list| + 1)
      && next[k].id == message.id
      && (next[k] == message || (k < |list| && list[k].id == message.id && next[k] == MergeMessage(list[k], message)))
      && (k < |list| && list[k].id != message.id ==> Answers(message, list[k]) && message.id !in Ids(list))
      && (forall j :: 0 <= j < |list| && j != k ==> next[j] == list[j])
  {
    var byId := IndexOfId(list, message.id);
    if byId == |list| {
      assert forall e :: e in list ==> e.id != message.id;
    }
  }

  // One turn adds exactly the server id that arrives and keeps every other server row.
  lemma AbsorbServerIds(list: seq<Entry>, message: Entry)
    ensures ServerIds(Absorb(list, message)) == ServerIds(list) + ServerIds([message])
    ensures forall e :: (e in list && !Pending(e) && (e.id != message.id || Pending(message)))
              ==> e in Absorb(list, message)
  {
    var next := Absorb(list, message);
    var k := TurnIndex(list, message);
    AbsorbShape(list, message);
    forall e | e in list && !Pending(e) ensures e.id in ServerIds(next)
      ensures e.id != message.id || Pending(message) ==> e in next
    {
      var j :| 0 <= j < |list| && list[j] == e;
      assert next[j] in next;
    }
    assert next[k] in next;
  }

  lemma AbsorbInvariants(list: seq<Entry>, message: Entry)
    requires UniqueIds(list)
    ensures UniqueIds(Absorb(list, message))
    ensures ServerIds(Absorb(list, message)) == ServerIds(list) + ServerIds([message])
    ensures Ids(Absorb(list, message)) <= Ids(list) + {message.id}
    ensures forall e :: (e in list && !Pending(e) && (e.id != message.id || Pending(message)))
              ==> e in Absorb(list, message)
  {
    AbsorbServerIds(list, message);
    AbsorbShape(list, message);
  }

  lemma {:induction false} AbsorbAllServerIds(list: seq<Entry>, incoming: seq<Entry>)
    ensures ServerIds(AbsorbAll(list, incoming)) == ServerIds(list) + ServerIds(incoming)
    ensures forall e :: (e in list && !Pending(e) && e.id !in ServerIds(incoming))
              ==> e in AbsorbAll(list, incoming)
    decreases |incoming|
  {
    if incoming != [] {
      var message, rest := incoming[0], incoming[1..];
      assert incoming == [message] + rest;
      AbsorbServerIds(list, message);
      AbsorbAllServerIds(Absorb(list, message), rest);
      assert ServerIds(incoming) == ServerIds([message]) + ServerIds(rest);
    }
  }

  lemma {:induction false} AbsorbAllInvariants(list: seq<Entry>, incoming: seq<Entry>)
    requires UniqueIds(list)
    ensures UniqueIds(AbsorbAll(list, incoming))
    ensures Stamps(AbsorbAll(list, incoming)) <= Stamps(list) + Stamps(incoming)
    ensures Ids(AbsorbAll(list, incoming)) <= Ids(list) + Ids(incoming)
    decreases |incoming|
  {
    if incoming != [] {
      var message, rest := incoming[0], incoming[1..];
      assert incoming == [message] + rest && message in incoming;
      AbsorbInvariants(list, message);
      AbsorbStamps(list, message);
      AbsorbAllInvariants(Absorb(list, message), rest);
      assert Stamps(rest) <= Stamps(incoming);
    }
  }

  lemma AbsorbStamps(list: seq<Entry>, message: Entry)
    ensures Stamps(Absorb(list, message)) <= Stamps(list) + {message.createdAt}
  {
    AbsorbShape(list, message);
    var next := Absorb(list, message);
    forall e | e in next ensures e.createdAt in Stamps(list) + {message.createdAt} {
      var j :| 0 <= j < |next| && next[j] == e;
      if j != TurnIndex(list, message) { assert list[j] in list; }
      else if j < |list| { assert list[j] in list; }
    }
  }

  lemma UntouchedIsSame(list: seq<Entry>, incoming: seq<Entry>)
    requires !Touched(list, incoming)
    ensures AbsorbAll(list, incoming) == list
    decreases |incoming|
  {
  }

  lemma PermutedKeepsRows(a: seq<Entry>, b: seq<Entry>)
    requires multiset(a) == multiset(b)
    requires UniqueIds(a)
    ensures UniqueIds(b)
    ensures forall e :: e in a <==> e in b
    ensures ServerIds(a) == ServerIds(b) && Stamps(a) == Stamps(b) && Ids(a) == Ids(b)
  {
    SameMultisetSameElements(a, b);
    forall i, j | 0 <= i < j < |b| ensures b[i].id != b[j].id {
      assert b[i] in a && b[j] in a;
      if b[i].id == b[j].id {
        UniqueRowCountsOnce(a, b[i]);
        CountTwice(b, i, j);
        assert false;
      }
    }
  }

  lemma {:induction false} UniqueRowCountsOnce(a: seq<Entry>, e: Entry)
    requires UniqueIds(a)
    ensures multiset(a)[e] <= 1
    ensures forall f :: f in a && e in a && f.id == e.id ==> f == e
  {
    if a != [] {
      assert a == [a[0]] + a[1..];
      UniqueRowCountsOnce(a[1..], e);
      if e == a[0] {
        assert e !in a[1..];
      }
    }
  }

  // Whatever the two lists are, the server ids of their merge are those of both.
  lemma MergeServerIds(clock: Clock, existing: seq<Entry>, incoming: seq<Entry>)
    ensures ServerIds(Merge(clock, existing, incoming)) == ServerIds(existing) + ServerIds(incoming)
  {
    AbsorbAllServerIds(existing, incoming);
    if Touched(existing, incoming) {
      SortKeepsElements(clock.Le, AbsorbAll(existing, incoming));
    } else {
      UntouchedIsSame(existing, incoming);
    }
  }

  // A merge keeps the transcript duplicate free and sorted, its server rows are those of
  // both sides, and a placeholder never takes the place of a server row.
  lemma MergeInvariants(clock: Clock, existing: seq<Entry>, incoming: seq<Entry>)
    requires clock.Lawful() && clock.Consistent(Stamps(existing) + Stamps(incoming))
    requires UniqueIds(existing) && Ordered(clock.Le, existing)
    ensures var result := Merge(clock, existing, incoming);
      && UniqueIds(result)
      && Ordered(clock.Le, result)
      && ServerIds(result) == ServerIds(existing) + ServerIds(incoming)
      && (forall e :: (e in existing && !Pending(e) && e.id !in ServerIds(incoming)) ==> e in result)
      && Stamps(result) <= Stamps(existing) + Stamps(incoming)
  {
    var next := AbsorbAll(existing, incoming);
    AbsorbAllServerIds(existing, incoming);
    AbsorbAllInvariants(existing, incoming);
    if Touched(existing, incoming) {
      PermutedKeepsRows(next, Sort(clock.Le, next));
      SortableIffConsistent(clock, next);
    } else {
      UntouchedIsSame(existing, incoming);
    }
  }
}
