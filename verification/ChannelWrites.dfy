// Single-message writes to the query cache: upserting an optimistic row, a realtime echo
// or an HTTP response, and removing a row when the request settles or fails.
module ChannelWrites {
  import opened Options
  import opened StableSort
  import opened ChannelCache
  import opened ChannelPages

  datatype Cached =
    | Flat(page: Page)
    | Paged(pages: seq<Page>, pageParams: seq<Option<Cursor>>)

  // Workspace id and channel id.
  type Key = (string, string)

  predicate Touches(page: Page, message: Entry) {
    exists item :: item in page.messages && (item.id == message.id || Answers(message, item))
  }

  // The first window that holds the row or a placeholder it answers.
  function TargetPage(pages: seq<Page>, message: Entry): (t: nat)
    ensures t <= |pages|
    ensures t < |pages| ==> Touches(pages[t], message)
    ensures forall p :: 0 <= p < t ==> !Touches(pages[p], message)
  {
    if pages == [] || Touches(pages[0], message) then 0 else 1 + TargetPage(pages[1..], message)
  }

  function WritePage(clock: Clock, page: Page, message: Entry): Page {
    page.(messages := Merge(clock, page.messages, [message]))
  }

  function FreshPage(message: Entry): Page { Page([message], None, None, None) }

  function WritePages(clock: Clock, pages: seq<Page>, message: Entry): seq<Page> {
    if pages == [] then [FreshPage(message)]
    else
      var target := TargetPage(pages, message);
      var index := if target < |pages| then target else 0;
      pages[index := WritePage(clock, pages[index], message)]
  }

  function Written(clock: Clock, current: Option<Cached>, message: Entry, seedIfMissing: bool): Option<Cached> {
    match current
    case None =>
      if seedIfMissing then
        Some(Paged([Page([message], Some(50), Some(false), Some(None))], [None]))
      else None
    case Some(Paged(pages, pageParams)) =>
      Some(Paged(WritePages(clock, pages, message), if |pageParams| > 0 then pageParams else [None]))
    case Some(Flat(page)) => Some(Flat(WritePage(clock, page, message)))
  }

  function Without(list: seq<Entry>, id: string): seq<Entry> {
    if list == [] then []
    else if list[0].id == id then Without(list[1..], id)
    else [list[0]] + Without(list[1..], id)
  }

  function WithoutPages(pages: seq<Page>, id: string): (r: seq<Page>)
    ensures |r| == |pages|
  {
    seq(|pages|, i requires 0 <= i < |pages| => pages[i].(messages := Without(pages[i].messages, id)))
  }

  function Removed(current: Option<Cached>, id: string): Option<Cached> {
    match current
    case None => None
    case Some(Paged(pages, pageParams)) => Some(Paged(WithoutPages(pages, id), pageParams))
    case Some(Flat(page)) => Some(Flat(page.(messages := Without(page.messages, id))))
  }

  function Store(table: map<Key, Cached>, key: Key, value: Option<Cached>): map<Key, Cached> {
    if value.Some? then table[key := value.value] else table
  }

  class MessageCache {
    const clock: Clock
    var transcripts: map<Key, Cached>

    constructor (clock: Clock)
      ensures this.clock == clock && transcripts == map[]
    {
      this.clock := clock;
      transcripts := map[];
    }

    method Upsert(workspaceId: string, channelId: string, message: Entry, seedIfMissing: bool)
      modifies this`transcripts
      ensures var key, before := (workspaceId, channelId), old(transcripts);
        transcripts ==
          if workspaceId == "" || channelId == ""
             || message.request.workspaceId != workspaceId || message.request.channelId != channelId
          then before
          else Store(before, key, Written(clock, Lookup(before, key), message, seedIfMissing))
    {
      if workspaceId == "" || channelId == ""
        || message.request.workspaceId != workspaceId || message.request.channelId != channelId {
        return;
      }
      var key := (workspaceId, channelId);
      if key !in transcripts {
        if !seedIfMissing { return; }
        transcripts := transcripts[key := Paged([Page([message], Some(50), Some(false), Some(None))], [None])];
        return;
      }
      match transcripts[key]
      case Paged(pages, pageParams) =>
        var params := if |pageParams| > 0 then pageParams else [None];
        if |pages| == 0 {
          transcripts := transcripts[key := Paged([FreshPage(message)], params)];
          return;
        }
        var target := 0;
        while target < |pages| && !Touches(pages[target], message)
          invariant target <= |pages|
          invariant forall p :: 0 <= p < target ==> !Touches(pages[p], message)
        {
          target := target + 1;
        }
        var index := if target < |pages| then target else 0;
        assert target == TargetPage(pages, message);
        var merged := MergeMessageLists(clock, pages[index].messages, [message]);
        transcripts := transcripts[key := Paged(pages[index := pages[index].(messages := merged)], params)];
      case Flat(page) =>
        var merged := MergeMessageLists(clock, page.messages, [message]);
        transcripts := transcripts[key := Flat(page.(messages := merged))];
    }

    method Remove(workspaceId: string, channelId: string, messageId: string)
      modifies this`transcripts
      ensures var key, before := (workspaceId, channelId), old(transcripts);
        transcripts == Store(before, key, Removed(Lookup(before, key), messageId))
    {
      var key := (workspaceId, channelId);
      if key !in transcripts { return; }
      match transcripts[key]
      case Paged(pages, pageParams) =>
        var changed := false;
        var next: seq<Page> := [];
        for p := 0 to |pages|
          invariant |next| == p && transcripts == old(transcripts)
          invariant forall q :: 0 <= q < p ==> next[q] == WithoutPages(pages, messageId)[q]
          invariant !changed ==> next == pages[..p]
        {
          var messages := Without(pages[p].messages, messageId);
          WithoutLength(pages[p].messages, messageId);
          if |messages| == |pages[p].messages| {
            next := next + [pages[p]];
          } else {
            changed := true;
            next := next + [pages[p].(messages := messages)];
          }
        }
        assert next == WithoutPages(pages, messageId);
        assert pages[..|pages|] == pages;
        if changed { transcripts := transcripts[key := Paged(next, pageParams)]; }
      case Flat(page) =>
        var messages := Without(page.messages, messageId);
        WithoutLength(page.messages, messageId);
        if |messages| != |page.messages| {
          transcripts := transcripts[key := Flat(page.(messages := messages))];
        }
    }
  }

  lemma WithoutLength(list: seq<Entry>, id: string)
    ensures |Without(list, id)| <= |list|
    ensures |Without(list, id)| == |list| ==> Without(list, id) == list
  {
  }

  // ---------------------------------------------------------------- paged upsert

  lemma MergeOneIds(clock: Clock, list: seq<Entry>, message: Entry)
    requires UniqueIds(list)
    ensures UniqueIds(Merge(clock, list, [message]))
    ensures message.id in Ids(Merge(clock, list, [message]))
    ensures Ids(Merge(clock, list, [message])) <= Ids(list) + {message.id}
  {
    var next := Absorb(list, message);
    AbsorbInvariants(list, message);
    AbsorbShape(list, message);
    assert [message][1..] == [];
    assert AbsorbAll(list, [message]) == AbsorbAll(next, []) == next;
    assert next[TurnIndex(list, message)] in next;
    if Touched(list, [message]) {
      PermutedKeepsRows(next, Sort(clock.Le, next));
    }
  }

  // Ids on two different windows never coincide.
  ghost predicate WindowsUnique(pages: seq<Page>) {
    && (forall p :: 0 <= p < |pages| ==> UniqueIds(pages[p].messages))
    && (forall p, q :: 0 <= p < q < |pages| ==> Ids(pages[p].messages) !! Ids(pages[q].messages))
  }

  lemma {:induction false} WindowsUniqueIffRowsUnique(pages: seq<Page>)
    ensures WindowsUnique(pages) <==> UniqueIds(Rows(pages))
  {
    if pages != [] {
      var first, rest := pages[0].messages, pages[1..];
      assert forall p :: 0 <= p < |rest| ==> rest[p] == pages[p + 1];
      WindowsUniqueIffRowsUnique(rest);
      UniqueConcat(first, Rows(rest));
      RowsOf(rest);
      if WindowsUnique(pages) {
        forall x, y | x in first && y in Rows(rest) ensures x.id != y.id {
          var p :| 0 <= p < |rest| && y in rest[p].messages;
          assert Ids(pages[0].messages) !! Ids(pages[p + 1].messages);
          assert x.id in Ids(first) && y.id in Ids(pages[p + 1].messages);
        }
      }
      if UniqueIds(Rows(pages)) {
        forall p, q | 0 <= p < q < |pages| ensures Ids(pages[p].messages) !! Ids(pages[q].messages) {
          if p == 0 {
            forall id | id in Ids(pages[q].messages) ensures id in Ids(Rows(rest)) {
              var e :| e in rest[q - 1].messages && e.id == id;
            }
          } else {
            assert pages[p] == rest[p - 1] && pages[q] == rest[q - 1];
          }
        }
        forall p | 0 <= p < |pages| ensures UniqueIds(pages[p].messages) {
          if p > 0 { assert pages[p] == rest[p - 1]; }
        }
      }
    }
  }

  // Some window before the one that holds the row has a placeholder for it.
  ghost predicate PlaceholderComesFirst(pages: seq<Page>, message: Entry) {
    exists p, q :: 0 <= p < q < |pages|
      && message.id in Ids(pages[q].messages)
      && exists item :: item in pages[p].messages && Answers(message, item)
  }

  // A paged write keeps ids unique exactly when no earlier window holds a placeholder that
  // the message answers while a later window already holds the message itself.
  lemma UpsertKeepsIdsUnique(clock: Clock, pages: seq<Page>, message: Entry)
    requires UniqueIds(Rows(pages))
    ensures UniqueIds(Rows(WritePages(clock, pages, message))) <==> !PlaceholderComesFirst(pages, message)
  {
    var next := WritePages(clock, pages, message);
    WindowsUniqueIffRowsUnique(pages);
    WindowsUniqueIffRowsUnique(next);
    if pages != [] {
      var target := TargetPage(pages, message);
      var index := if target < |pages| then target else 0;
      MergeOneIds(clock, pages[index].messages, message);
      if q :| 0 <= q < |pages| && q != index && message.id in Ids(pages[q].messages) {
        HeldElsewhere(pages, message, q);
        assert message.id in Ids(next[q].messages) && message.id in Ids(next[index].messages);
        assert !WindowsUnique(next);
      } else {
        NotHeldElsewhere(pages, message, index);
        forall p, q | 0 <= p < q < |next| ensures Ids(next[p].messages) !! Ids(next[q].messages) {
        }
      }
    }
  }

  lemma HeldElsewhere(pages: seq<Page>, message: Entry, q: nat)
    requires WindowsUnique(pages) && pages != [] && q < |pages|
    requires message.id in Ids(pages[q].messages)
    requires q != if TargetPage(pages, message) < |pages| then TargetPage(pages, message) else 0
    ensures PlaceholderComesFirst(pages, message)
  {
    var e :| e in pages[q].messages && e.id == message.id;
    assert Touches(pages[q], message);
    var t := TargetPage(pages, message);
    assert t < q;
    var item :| item in pages[t].messages && (item.id == message.id || Answers(message, item));
    assert item.id in Ids(pages[t].messages);
    assert Ids(pages[t].messages) !! Ids(pages[q].messages);
    assert Answers(message, item);
  }

  lemma NotHeldElsewhere(pages: seq<Page>, message: Entry, index: nat)
    requires index < |pages|
    requires index == if TargetPage(pages, message) < |pages| then TargetPage(pages, message) else 0
    requires forall q :: 0 <= q < |pages| && q != index ==> message.id !in Ids(pages[q].messages)
    ensures !PlaceholderComesFirst(pages, message)
  {
    forall p, q | 0 <= p < q < |pages| && message.id in Ids(pages[q].messages)
      ensures forall item :: item in pages[p].messages ==> !Answers(message, item)
    {
      assert q == index && !Touches(pages[p], message);
    }
  }

  // The failing family in its smallest form: the echo of a message replaces the placeholder
  // on the newest window although an older window already holds its server row.
  lemma UpsertCanDuplicate(clock: Clock, placeholder: Entry, server: Entry)
    requires Pending(placeholder) && !Pending(server)
    requires SameMessageRequest(placeholder, server) && placeholder.id != server.id
    ensures var pages := [FreshPage(placeholder), FreshPage(server)];
      UniqueIds(Rows(pages)) && !UniqueIds(Rows(WritePages(clock, pages, server)))
  {
    var pages := [FreshPage(placeholder), FreshPage(server)];
    WindowsUniqueIffRowsUnique(pages);
    assert pages[0].messages == [placeholder] && pages[1].messages == [server];
    assert Ids([placeholder]) == {placeholder.id} && Ids([server]) == {server.id};
    assert placeholder in pages[0].messages && Answers(server, placeholder);
    assert PlaceholderComesFirst(pages, server);
    UpsertKeepsIdsUnique(clock, pages, server);
  }

  // ---------------------------------------------------------------- rollback

  lemma {:induction false} WithoutMeaning(list: seq<Entry>, id: string)
    ensures forall e :: e in Without(list, id) <==> e in list && e.id != id
  {
    if list != [] {
      assert list == [list[0]] + list[1..];
      WithoutMeaning(list[1..], id);
    }
  }

  lemma RestFollows(le: (Entry, Entry) -> bool, list: seq<Entry>, r: Entry)
    requires Ordered(le, list) && UniqueIds(list) && list != [] && r in list[1..]
    ensures le(list[0], r) && list[0].id != r.id
  {
    var i :| 0 <= i < |list[1..]| && list[1..][i] == r;
    assert list[i + 1] == r;
  }

  lemma {:induction false} WithoutKeepsOrder(le: (Entry, Entry) -> bool, list: seq<Entry>, id: string)
    requires Ordered(le, list) && UniqueIds(list)
    ensures Ordered(le, Without(list, id)) && UniqueIds(Without(list, id))
  {
    if list != [] {
      var rest := Without(list[1..], id);
      WithoutKeepsOrder(le, list[1..], id);
      WithoutMeaning(list[1..], id);
      forall j | 0 <= j < |rest| ensures le(list[0], rest[j]) && list[0].id != rest[j].id {
        RestFollows(le, list, rest[j]);
      }
      if list[0].id != id { ConsKeepsOrder(le, list[0], rest); }
    }
  }

  lemma ConsKeepsOrder(le: (Entry, Entry) -> bool, first: Entry, rest: seq<Entry>)
    requires Ordered(le, rest) && UniqueIds(rest)
    requires forall j :: 0 <= j < |rest| ==> le(first, rest[j]) && first.id != rest[j].id
    ensures Ordered(le, [first] + rest) && UniqueIds([first] + rest)
  {
  }

  // Writing a row with a new id replaces the first placeholder it answers, if any.
  lemma FreshWrite(clock: Clock, list: seq<Entry>, message: Entry)
    requires UniqueIds(list) && message.id !in Ids(list)
    ensures var k := IndexOfPlaceholder(list, message);
      var next := if k < |list| then list[k := message] else list + [message];
      && Merge(clock, list, [message]) == Sort(clock.Le, next)
      && UniqueIds(next)
      && (forall e :: e in Merge(clock, list, [message]) <==> e in next)
  {
    assert forall j :: 0 <= j < |list| ==> list[j] in list && list[j].id != message.id;
    assert IndexOfId(list, message.id) == |list|;
    var next, k := Absorb(list, message), IndexOfPlaceholder(list, message);
    AbsorbInvariants(list, message);
    assert [message][1..] == [];
    assert AbsorbAll(list, [message]) == AbsorbAll(next, []) == next;
    assert next != list by {
      if k < |list| { assert list[k] in list && next[k] == message; }
    }
    assert Touched(list, [message]);
    SortKeepsElements(clock.Le, next);
  }

  lemma SameRowsSameTranscript(clock: Clock, a: seq<Entry>, b: seq<Entry>)
    requires clock.Lawful()
    requires UniqueIds(a) && UniqueIds(b) && Ordered(clock.Le, a) && Ordered(clock.Le, b)
    requires forall e :: e in a <==> e in b
    ensures a == b
  {
    forall x, y | x in a && y in a && clock.Le(x, y) && clock.Le(y, x) ensures x == y {
      LeIsTotal(clock, x, y);
    }
    assert AntisymmetricOn(clock.Le, a);
    OrderedArrangementIsUnique(clock.Le, a, b);
  }

  lemma TakeBackAppended(clock: Clock, list: seq<Entry>, message: Entry)
    requires clock.Lawful() && clock.Consistent(Stamps(list) + {message.createdAt})
    requires UniqueIds(list) && Ordered(clock.Le, list) && message.id !in Ids(list)
    requires UniqueIds(list + [message])
    ensures Without(Sort(clock.Le, list + [message]), message.id) == list
  {
    var next := list + [message];
    var merged := Sort(clock.Le, next);
    assert Ordered(clock.Le, merged) by {
      assert Stamps(next) == Stamps(list) + {message.createdAt};
      SortableIffConsistent(clock, next);
    }
    WithoutAppended(list, message, merged);
    WithoutKeepsOrder(clock.Le, merged, message.id);
    SameRowsSameTranscript(clock, list, Without(merged, message.id));
  }

  lemma WithoutAppended(list: seq<Entry>, message: Entry, merged: seq<Entry>)
    requires message.id !in Ids(list) && UniqueIds(list + [message])
    requires multiset(merged) == multiset(list + [message])
    ensures UniqueIds(merged)
    ensures forall e :: e in Without(merged, message.id) <==> e in list
  {
    PermutedKeepsRows(list + [message], merged);
    WithoutMeaning(merged, message.id);
    forall e ensures e in Without(merged, message.id) <==> e in list {
      assert e in merged <==> e in list || e == message;
      assert e in list ==> e.id in Ids(list);
    }
  }

  // Taking back an optimistic row restores the transcript exactly when no older placeholder
  // of the same request was pending; otherwise the write had already consumed that one.
  lemma RollbackRestores(clock: Clock, list: seq<Entry>, placeholder: Entry)
    requires clock.Lawful() && clock.Consistent(Stamps(list) + {placeholder.createdAt})
    requires UniqueIds(list) && Ordered(clock.Le, list)
    requires Pending(placeholder) && placeholder.id !in Ids(list)
    ensures Without(Merge(clock, list, [placeholder]), placeholder.id) == list
      <==> forall item :: item in list ==> !Answers(placeholder, item)
  {
    NothingAnswered(list, placeholder);
    if IndexOfPlaceholder(list, placeholder) < |list| {
      RollbackLoses(clock, list, placeholder);
    } else {
      FreshWrite(clock, list, placeholder);
      TakeBackAppended(clock, list, placeholder);
    }
  }

  lemma NothingAnswered(list: seq<Entry>, message: Entry)
    ensures IndexOfPlaceholder(list, message) == |list| <==> forall item :: item in list ==> !Answers(message, item)
  {
    var k := IndexOfPlaceholder(list, message);
    if k < |list| { assert list[k] in list; }
  }

  lemma RollbackLoses(clock: Clock, list: seq<Entry>, placeholder: Entry)
    requires UniqueIds(list) && placeholder.id !in Ids(list)
    requires IndexOfPlaceholder(list, placeholder) < |list|
    ensures Without(Merge(clock, list, [placeholder]), placeholder.id) != list
  {
    var k := IndexOfPlaceholder(list, placeholder);
    FreshWrite(clock, list, placeholder);
    ReplacedIsGone(list, k, placeholder);
    WithoutMeaning(Merge(clock, list, [placeholder]), placeholder.id);
    assert list[k] in list;
  }

  lemma ReplacedIsGone(list: seq<Entry>, k: nat, e: Entry)
    requires UniqueIds(list) && k < |list| && e.id !in Ids(list)
    ensures list[k] !in list[k := e]
  {
    var next := list[k := e];
    assert list[k] in list;
    forall j | 0 <= j < |next| ensures next[j] != list[k] {
      if j != k { assert list[j].id != list[k].id; }
    }
  }

  // ---------------------------------------------------------------- rollback of the cached transcript

  predicate IsEmpty(cached: Cached) {
    match cached
    case Flat(page) => page.messages == []
    case Paged(pages, _) => forall i :: 0 <= i < |pages| ==> pages[i].messages == []
  }

  // onError: the row is taken back, and a transcript that was not cached before the write is
  // dropped when it is empty again.
  function RolledBack(before: Option<Cached>, current: Option<Cached>, id: string): Option<Cached> {
    var removed := Removed(current, id);
    if before.None? && removed.Some? && IsEmpty(removed.value) then None else removed
  }

  function PagesOf(cached: Option<Cached>): seq<Page> {
    match cached
    case None => []
    case Some(Flat(page)) => [page]
    case Some(Paged(pages, _)) => pages
  }

  ghost predicate Writable(clock: Clock, page: Page, message: Entry) {
    && clock.Consistent(Stamps(page.messages) + {message.createdAt})
    && UniqueIds(page.messages) && Ordered(clock.Le, page.messages)
    && message.id !in Ids(page.messages)
  }

  predicate Answering(pages: seq<Page>, message: Entry) {
    exists i, item :: 0 <= i < |pages| && item in pages[i].messages && Answers(message, item)
  }

  // Writing an optimistic row into the cache and taking it back when the request fails
  // restores the cache exactly when no row of any window was a placeholder of the same request
  // and a paged transcript has at least one window and one page parameter.
  lemma RollbackRestoresCache(clock: Clock, before: Option<Cached>, placeholder: Entry)
    requires clock.Lawful() && Pending(placeholder)
    requires forall i :: 0 <= i < |PagesOf(before)| ==> Writable(clock, PagesOf(before)[i], placeholder)
    ensures RolledBack(before, Written(clock, before, placeholder, true), placeholder.id) == before
      <==> !Answering(PagesOf(before), placeholder)
           && (before.Some? && before.value.Paged? ==> before.value.pages != [] && before.value.pageParams != [])
  {
    match before {
      case None => SeededAndEmptied(placeholder);
      case Some(Flat(page)) =>
        assert Writable(clock, PagesOf(before)[0], placeholder);
        PageRestored(clock, page, placeholder);
      case Some(Paged(pages, params)) =>
        assert PagesOf(before) == pages;
        if pages != [] { PagesRestored(clock, pages, placeholder); }
    }
  }

  lemma SeededAndEmptied(message: Entry)
    ensures Without([message], message.id) == []
  {
    assert [message][1..] == [];
  }

  lemma PageRestored(clock: Clock, page: Page, placeholder: Entry)
    requires clock.Lawful() && Pending(placeholder) && Writable(clock, page, placeholder)
    ensures Without(WritePage(clock, page, placeholder).messages, placeholder.id) == page.messages
      <==> !Touches(page, placeholder)
    ensures Touches(page, placeholder) <==> Answering([page], placeholder)
  {
    RollbackRestores(clock, page.messages, placeholder);
    assert [page][0] == page;
    assert forall item :: item in page.messages ==> item.id in Ids(page.messages);
  }

  lemma {:induction false} WithoutAbsent(list: seq<Entry>, id: string)
    requires id !in Ids(list)
    ensures Without(list, id) == list
  {
    if list != [] {
      assert list == [list[0]] + list[1..] && list[0] in list;
      WithoutAbsent(list[1..], id);
    }
  }

  // A window touches a row with a new id only by a placeholder the row answers.
  lemma TouchedIsAnswering(clock: Clock, pages: seq<Page>, message: Entry)
    requires forall i :: 0 <= i < |pages| ==> Writable(clock, pages[i], message)
    ensures TargetPage(pages, message) < |pages| <==> Answering(pages, message)
  {
    forall i | 0 <= i < |pages| && Touches(pages[i], message) ensures Answering(pages, message) {
      assert Writable(clock, pages[i], message);
      var item :| item in pages[i].messages && (item.id == message.id || Answers(message, item));
      assert item.id in Ids(pages[i].messages);
    }
    forall i, item | 0 <= i < |pages| && item in pages[i].messages && Answers(message, item)
      ensures TargetPage(pages, message) < |pages|
    {
      assert Touches(pages[i], message);
    }
  }

  lemma PagesRestored(clock: Clock, pages: seq<Page>, placeholder: Entry)
    requires clock.Lawful() && Pending(placeholder) && pages != []
    requires forall i :: 0 <= i < |pages| ==> Writable(clock, pages[i], placeholder)
    ensures WithoutPages(WritePages(clock, pages, placeholder), placeholder.id) == pages
      <==> !Answering(pages, placeholder)
  {
    var target := TargetPage(pages, placeholder);
    var index := if target < |pages| then target else 0;
    var next := WithoutPages(WritePages(clock, pages, placeholder), placeholder.id);
    TouchedIsAnswering(clock, pages, placeholder);
    PageRestored(clock, pages[index], placeholder);
    forall i | 0 <= i < |pages| && i != index ensures next[i] == pages[i] {
      WithoutAbsent(pages[i].messages, placeholder.id);
    }
    assert next[index].messages == Without(WritePage(clock, pages[index], placeholder).messages, placeholder.id);
    if next[index].messages == pages[index].messages { assert next[index] == pages[index]; }
  }

  // ---------------------------------------------------------------- what a write leaves

  // The window that the write goes to: the first that holds the row or a pending row of the
  // same request, otherwise the first.
  ghost predicate WritesTo(pages: seq<Page>, message: Entry, t: nat)
    requires t < |pages|
  {
    (forall p, e :: 0 <= p < t && e in pages[p].messages ==>
      e.id != message.id && !(e.optimistic == Some(true) && e.request == message.request))
    && ((exists e :: e in pages[t].messages
           && (e.id == message.id || (e.optimistic == Some(true) && e.request == message.request)))
        || (t == 0 && forall p, e :: 0 <= p < |pages| && e in pages[p].messages ==>
              e.id != message.id && !(e.optimistic == Some(true) && e.request == message.request)))
  }

  lemma TargetIsWritten(pages: seq<Page>, message: Entry)
    requires pages != []
    ensures var target := TargetPage(pages, message);
      WritesTo(pages, message, if target < |pages| then target else 0)
  {
    forall p, e | 0 <= p < |pages| && e in pages[p].messages && !Touches(pages[p], message)
      ensures e.id != message.id && !(e.optimistic == Some(true) && e.request == message.request)
    {
      assert !Answers(message, e);
    }
  }

  // A missing transcript is seeded with one window of fifty that has no more behind it, and only
  // when asked; a write changes one window, and page parameters are at least one.
  lemma WriteShape(clock: Clock, current: Option<Cached>, message: Entry, seedIfMissing: bool)
    ensures var next := Written(clock, current, message, seedIfMissing);
      match current
      case None =>
        if seedIfMissing then
          next == Some(Paged([Page([message], Some(50), Some(false), Some(None))], [None]))
        else next == None
      case Some(Flat(page)) => next == Some(Flat(page.(messages := Merge(clock, page.messages, [message]))))
      case Some(Paged(pages, params)) =>
        && next.Some? && next.value.Paged? && next.value.pageParams == (if params == [] then [None] else params)
        && (pages == [] ==> |next.value.pages| == 1 && next.value.pages[0].messages == [message])
        && (pages != [] ==>
              exists t :: 0 <= t < |pages| && WritesTo(pages, message, t)
                && next.value.pages == pages[t := pages[t].(messages := Merge(clock, pages[t].messages, [message]))])
  {
    if current.Some? && current.value.Paged? && current.value.pages != [] {
      TargetIsWritten(current.value.pages, message);
    }
  }
}
