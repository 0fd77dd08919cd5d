// Transcripts loaded in cursor windows: refetching every window, de-duplicating across
// windows, and writing one message into the window that holds it.
module ChannelPages {
  import opened Options
  import opened StableSort
  import opened ChannelCache

  datatype Cursor = Cursor(createdAt: string, id: string)

  datatype Page = Page(
    messages: seq<Entry>, limit: Option<int>, hasMore: Option<bool>, nextCursor: Option<Option<Cursor>>)

  // All rows, window by window.
  function Rows(pages: seq<Page>): seq<Entry> {
    if pages == [] then [] else pages[0].messages + Rows(pages[1..])
  }

  // ---------------------------------------------------------------- de-duplication

  function ServerRows(list: seq<Entry>): seq<Entry> {
    if list == [] then []
    else if Pending(list[0]) then ServerRows(list[1..])
    else [list[0]] + ServerRows(list[1..])
  }

  // A placeholder whose message is already on some window as a server row.
  predicate Shadowed(authoritative: seq<Entry>, message: Entry) {
    Pending(message)
    && exists server :: server in authoritative && (server.id == message.id || SameMessageRequest(message, server))
  }

  function Kept(authoritative: seq<Entry>, seen: set<string>, messages: seq<Entry>): seq<Entry>
    decreases |messages|
  {
    if messages == [] then []
    else if Shadowed(authoritative, messages[0]) || messages[0].id in seen then
      Kept(authoritative, seen, messages[1..])
    else
      [messages[0]] + Kept(authoritative, seen + {messages[0].id}, messages[1..])
  }

  function KeptPages(authoritative: seq<Entry>, seen: set<string>, pages: seq<Page>): seq<Page>
    decreases |pages|
  {
    if pages == [] then []
    else
      var kept := Kept(authoritative, seen, pages[0].messages);
      [pages[0].(messages := kept)] + KeptPages(authoritative, seen + Ids(kept), pages[1..])
  }

  function Deduplicate(pages: seq<Page>): seq<Page> {
    KeptPages(ServerRows(Rows(pages)), {}, pages)
  }

  // A message that is kept joins the kept ones.
  lemma KeptTurn(authoritative: seq<Entry>, seen: set<string>, messages: seq<Entry>, message: Entry, rest: seq<Entry>)
    requires !Shadowed(authoritative, message) && message.id !in seen
    ensures messages + Kept(authoritative, seen, [message] + rest)
         == (messages + [message]) + Kept(authoritative, seen + {message.id}, rest)
    ensures Ids(messages + [message]) == Ids(messages) + {message.id}
  {
    assert ([message] + rest)[1..] == rest;
  }

  // The filter callback over one window; `seenIds` carries over to the next window.
  method FilterPage(authoritative: seq<Entry>, seenBefore: set<string>, page: seq<Entry>)
    returns (messages: seq<Entry>, seenIds: set<string>, changed: bool)
    ensures messages == Kept(authoritative, seenBefore, page)
    ensures seenIds == seenBefore + Ids(messages)
    ensures !changed ==> messages == page
  {
    var authoritativeIds := set server | server in authoritative :: server.id;
    messages, seenIds, changed := [], seenBefore, false;
    for i := 0 to |page|
      invariant messages + Kept(authoritative, seenIds, page[i..]) == Kept(authoritative, seenBefore, page)
      invariant seenIds == seenBefore + Ids(messages)
      invariant !changed ==> messages == page[..i]
    {
      var message := page[i];
      assert page[i..] == [message] + page[i + 1..];
      if Pending(message) && (message.id in authoritativeIds
          || exists server :: server in authoritative && SameMessageRequest(message, server)) {
        assert Shadowed(authoritative, message);
        changed := true;
      } else if message.id in seenIds {
        changed := true;
      } else {
        KeptTurn(authoritative, seenIds, messages, message, page[i + 1..]);
        seenIds := seenIds + {message.id};
        messages := messages + [message];
        assert page[..i + 1] == page[..i] + [message];
      }
    }
    assert page[..|page|] == page && page[|page|..] == [];
    assert Kept(authoritative, seenIds, []) == [];
  }

  method DeduplicateInfiniteMessagePages(pages: seq<Page>) returns (result: seq<Page>)
    ensures result == Deduplicate(pages)
  {
    var authoritative := ServerRows(Rows(pages));
    var seenIds: set<string> := {};
    var changed := false;
    var nextPages: seq<Page> := [];
    for p := 0 to |pages|
      invariant nextPages + KeptPages(authoritative, seenIds, pages[p..]) == Deduplicate(pages)
      invariant !changed ==> nextPages == pages[..p]
    {
      var page := pages[p];
      var messages, seen, pageChanged := FilterPage(authoritative, seenIds, page.messages);
      assert pages[p..][0] == page && pages[p..][1..] == pages[p + 1..];
      ghost var next := page.(messages := messages);
      ghost var tail := KeptPages(authoritative, seen, pages[p + 1..]);
      assert KeptPages(authoritative, seenIds, pages[p..]) == [next] + tail;
      assert nextPages + ([next] + tail) == (nextPages + [next]) + tail;
      seenIds := seen;
      changed := changed || pageChanged;
      if !pageChanged { assert next == page; }
      nextPages := nextPages + [if pageChanged then page.(messages := messages) else page];
      assert pages[..p + 1] == pages[..p] + [page];
    }
    assert pages[..|pages|] == pages && pages[|pages|..] == [];
    return if changed then nextPages else pages;
  }

  // Filtering window by window is filtering the concatenated rows.
  lemma {:induction false} KeptSplit(authoritative: seq<Entry>, seen: set<string>, a: seq<Entry>, b: seq<Entry>)
    ensures Kept(authoritative, seen, a + b)
         == Kept(authoritative, seen, a) + Kept(authoritative, seen + Ids(Kept(authoritative, seen, a)), b)
    decreases |a|
  {
    if a == [] {
      assert a + b == b;
      assert seen + Ids([]) == seen;
    } else {
      assert (a + b)[0] == a[0] && (a + b)[1..] == a[1..] + b;
      if Shadowed(authoritative, a[0]) || a[0].id in seen {
        KeptSplit(authoritative, seen, a[1..], b);
      } else {
        var more := seen + {a[0].id};
        var rest := Kept(authoritative, more, a[1..]);
        KeptSplit(authoritative, more, a[1..], b);
        assert Ids([a[0]] + rest) == {a[0].id} + Ids(rest);
        assert seen + Ids([a[0]] + rest) == more + Ids(rest);
        assert [a[0]] + (rest + Kept(authoritative, more + Ids(rest), b))
            == ([a[0]] + rest) + Kept(authoritative, more + Ids(rest), b);
      }
    }
  }

  lemma {:induction false} KeptPagesRows(authoritative: seq<Entry>, seen: set<string>, pages: seq<Page>)
    ensures Rows(KeptPages(authoritative, seen, pages)) == Kept(authoritative, seen, Rows(pages))
    decreases |pages|
  {
    if pages != [] {
      var kept := Kept(authoritative, seen, pages[0].messages);
      KeptSplit(authoritative, seen, pages[0].messages, Rows(pages[1..]));
      KeptPagesRows(authoritative, seen + Ids(kept), pages[1..]);
      var next := KeptPages(authoritative, seen, pages);
      assert next[1..] == KeptPages(authoritative, seen + Ids(kept), pages[1..]);
    }
  }

  // The rows that survive: no id twice, none seen before, none shadowed, and every id
  // that some unshadowed row carries.
  lemma {:induction false} KeptMeaning(authoritative: seq<Entry>, seen: set<string>, list: seq<Entry>)
    ensures UniqueIds(Kept(authoritative, seen, list))
    ensures forall e :: e in Kept(authoritative, seen, list) ==>
      e in list && e.id !in seen && !Shadowed(authoritative, e)
    ensures forall e :: e in list && !Shadowed(authoritative, e) ==>
      e.id in seen + Ids(Kept(authoritative, seen, list))
    decreases |list|
  {
    if list != [] {
      var first := list[0];
      assert list == [first] + list[1..];
      if Shadowed(authoritative, first) || first.id in seen {
        KeptMeaning(authoritative, seen, list[1..]);
      } else {
        var rest := Kept(authoritative, seen + {first.id}, list[1..]);
        KeptMeaning(authoritative, seen + {first.id}, list[1..]);
        assert Ids([first] + rest) == {first.id} + Ids(rest);
        assert forall j :: 0 <= j < |rest| ==> rest[j] in rest;
      }
    }
  }

  lemma {:induction false} KeptFixpoint(authoritative: seq<Entry>, seen: set<string>, list: seq<Entry>)
    requires UniqueIds(list) && forall e :: e in list ==> e.id !in seen && !Shadowed(authoritative, e)
    ensures Kept(authoritative, seen, list) == list
    decreases |list|
  {
    if list != [] {
      assert list == [list[0]] + list[1..] && list[0] in list;
      forall e | e in list[1..] ensures e.id != list[0].id {
        var j :| 0 <= j < |list[1..]| && list[1..][j] == e;
        assert list[j + 1] == e;
      }
      KeptFixpoint(authoritative, seen + {list[0].id}, list[1..]);
    }
  }

  lemma {:induction false} ServerRowsAre(list: seq<Entry>)
    ensures forall e :: e in ServerRows(list) <==> e in list && !Pending(e)
  {
    if list != [] {
      assert list == [list[0]] + list[1..];
      ServerRowsAre(list[1..]);
    }
  }

  // ---------------------------------------------------------------- laws of de-duplication

  lemma DeduplicateRows(pages: seq<Page>)
    ensures Rows(Deduplicate(pages)) == Kept(ServerRows(Rows(pages)), {}, Rows(pages))
  {
    KeptPagesRows(ServerRows(Rows(pages)), {}, pages);
  }

  // What the survivors of a filter by all server rows have in common.
  lemma SurvivorsAre(before: seq<Entry>, authoritative: seq<Entry>, after: seq<Entry>)
    requires forall e :: e in authoritative <==> e in before && !Pending(e)
    requires forall e :: e in after ==> e in before && !Shadowed(authoritative, e)
    requires forall e :: e in before && !Shadowed(authoritative, e) ==> e.id in Ids(after)
    ensures ServerIds(after) == ServerIds(before)
    ensures forall p, server ::
      p in after && Pending(p) && server in before && !Pending(server)
      ==> p.id != server.id && !SameMessageRequest(p, server)
  {
    forall p, server | p in after && Pending(p) && server in before && !Pending(server)
      ensures p.id != server.id && !SameMessageRequest(p, server)
    {
      assert server in authoritative && !Shadowed(authoritative, p);
    }
    forall e | e in before && !Pending(e) ensures e.id in ServerIds(after) {
      var k :| k in after && k.id == e.id;
      assert !Pending(k);
    }
  }

  lemma DeduplicateLaws(pages: seq<Page>)
    ensures var before, after := Rows(pages), Rows(Deduplicate(pages));
      && UniqueIds(after)
      && ServerIds(after) == ServerIds(before)
      && (forall e :: e in after ==> e in before)
      && (forall p, server :: p in after && Pending(p) && server in before && !Pending(server)
            ==> p.id != server.id && !SameMessageRequest(p, server))
  {
    var before, authoritative := Rows(pages), ServerRows(Rows(pages));
    DeduplicateRows(pages);
    KeptMeaning(authoritative, {}, before);
    ServerRowsAre(before);
    SurvivorsAre(before, authoritative, Rows(Deduplicate(pages)));
  }

  // A second pass changes nothing.
  lemma DeduplicateIdempotent(pages: seq<Page>)
    ensures Deduplicate(Deduplicate(pages)) == Deduplicate(pages)
  {
    var once := Deduplicate(pages);
    DeduplicateLaws(pages);
    ServerRowsAre(Rows(once));
    KeptPagesFixpoint(ServerRows(Rows(once)), {}, once);
  }

  lemma UniqueConcat(a: seq<Entry>, b: seq<Entry>)
    ensures UniqueIds(a + b) <==> UniqueIds(a) && UniqueIds(b) && Ids(a) !! Ids(b)
    ensures forall e :: e in a || e in b ==> e in a + b
  {
    var all := a + b;
    assert forall j :: 0 <= j < |a| ==> all[j] == a[j];
    assert forall j :: 0 <= j < |b| ==> all[|a| + j] == b[j];
    if UniqueIds(all) {
      forall x, y | x in a && y in b ensures x.id != y.id {
        var i :| 0 <= i < |a| && a[i] == x;
        var j :| 0 <= j < |b| && b[j] == y;
        assert all[i].id != all[|a| + j].id;
      }
    }
    if UniqueIds(a) && UniqueIds(b) && Ids(a) !! Ids(b) {
      forall i, j | 0 <= i < j < |all| ensures all[i].id != all[j].id {
        if i < |a| <= j {
          assert a[i].id in Ids(a) && b[j - |a|].id in Ids(b);
        }
      }
    }
  }

  lemma {:induction false} KeptPagesFixpoint(authoritative: seq<Entry>, seen: set<string>, pages: seq<Page>)
    requires UniqueIds(Rows(pages))
    requires forall e :: e in Rows(pages) ==> e.id !in seen && !Shadowed(authoritative, e)
    ensures KeptPages(authoritative, seen, pages) == pages
    decreases |pages|
  {
    if pages != [] {
      var first, rest := pages[0].messages, Rows(pages[1..]);
      UniqueConcat(first, rest);
      KeptFixpoint(authoritative, seen, first);
      KeptPagesFixpoint(authoritative, seen + Ids(first), pages[1..]);
      assert pages == [pages[0]] + pages[1..];
    }
  }

  // A window keeps its place, its cursor data and the order of its rows.
  ghost predicate Thins(le: (Entry, Entry) -> bool, before: Page, after: Page) {
    && after == before.(messages := after.messages)
    && (forall e :: e in after.messages ==> e in before.messages)
    && (Ordered(le, before.messages) ==> Ordered(le, after.messages))
  }

  lemma {:induction false} KeptKeepsOrder(
    le: (Entry, Entry) -> bool, authoritative: seq<Entry>, seen: set<string>, list: seq<Entry>)
    requires Ordered(le, list)
    ensures Ordered(le, Kept(authoritative, seen, list))
    decreases |list|
  {
    if list != [] {
      if Shadowed(authoritative, list[0]) || list[0].id in seen {
        KeptKeepsOrder(le, authoritative, seen, list[1..]);
      } else {
        var rest := Kept(authoritative, seen + {list[0].id}, list[1..]);
        KeptKeepsOrder(le, authoritative, seen + {list[0].id}, list[1..]);
        KeptMeaning(authoritative, seen + {list[0].id}, list[1..]);
        forall j | 0 <= j < |rest| ensures le(list[0], rest[j]) {
          assert rest[j] in list[1..];
          var i :| 0 <= i < |list[1..]| && list[1..][i] == rest[j];
          assert list[i + 1] == rest[j];
        }
      }
    }
  }

  lemma {:induction false} KeptPagesThin(
    le: (Entry, Entry) -> bool, authoritative: seq<Entry>, seen: set<string>, pages: seq<Page>)
    ensures var after := KeptPages(authoritative, seen, pages);
      && |after| == |pages|
      && forall i :: 0 <= i < |pages| ==> Thins(le, pages[i], after[i])
    decreases |pages|
  {
    if pages != [] {
      var page := pages[0];
      var kept := Kept(authoritative, seen, page.messages);
      KeptMeaning(authoritative, seen, page.messages);
      if Ordered(le, page.messages) { KeptKeepsOrder(le, authoritative, seen, page.messages); }
      KeptPagesThin(le, authoritative, seen + Ids(kept), pages[1..]);
    }
  }

  // ---------------------------------------------------------------- refetching

  // `{ ...existing, ...incoming, messages }`
  function MergePage(clock: Clock, existing: Option<Page>, incoming: Page): Page {
    match existing
    case None => incoming.(messages := Merge(clock, [], incoming.messages))
    case Some(previous) =>
      Page(Merge(clock, previous.messages, incoming.messages),
           incoming.limit.OrElse(previous.limit),
           incoming.hasMore.OrElse(previous.hasMore),
           incoming.nextCursor.OrElse(previous.nextCursor))
  }

  // Windows are paired by index; old windows past the end of the refetch are dropped.
  function MergePages(clock: Clock, existing: seq<Page>, incoming: seq<Page>): (r: seq<Page>)
    ensures |r| == |incoming|
  {
    seq(|incoming|, i requires 0 <= i < |incoming| =>
      MergePage(clock, if i < |existing| then Some(existing[i]) else None, incoming[i]))
  }

  function Refetch(clock: Clock, existing: seq<Page>, incoming: seq<Page>): seq<Page> {
    Deduplicate(MergePages(clock, existing, incoming))
  }

  lemma {:induction false} RowsOf(pages: seq<Page>)
    ensures forall i, e :: 0 <= i < |pages| && e in pages[i].messages ==> e in Rows(pages)
    ensures forall e :: e in Rows(pages) ==> exists i :: 0 <= i < |pages| && e in pages[i].messages
  {
    if pages != [] {
      RowsOf(pages[1..]);
      forall e | e in Rows(pages) ensures exists i :: 0 <= i < |pages| && e in pages[i].messages {
        if e in pages[0].messages {
          assert e in pages[0].messages;
        } else {
          assert e in Rows(pages[1..]);
          var i :| 0 <= i < |pages[1..]| && e in pages[1..][i].messages;
          assert e in pages[i + 1].messages;
        }
      }
      forall i, e | 0 <= i < |pages| && e in pages[i].messages ensures e in Rows(pages) {
        if i > 0 { assert pages[i] == pages[1..][i - 1]; }
      }
    }
  }

  // The server rows an incoming window and the old window of the same index hold.
  ghost function WindowServerIds(existing: seq<Page>, incoming: seq<Page>, i: nat): set<string>
    requires i < |incoming|
  {
    ServerIds(incoming[i].messages) + if i < |existing| then ServerIds(existing[i].messages) else {}
  }

  lemma MergedWindow(clock: Clock, existing: seq<Page>, incoming: seq<Page>, i: nat)
    requires i < |incoming|
    ensures ServerIds(MergePages(clock, existing, incoming)[i].messages) == WindowServerIds(existing, incoming, i)
  {
    MergeServerIds(clock, if i < |existing| then existing[i].messages else [], incoming[i].messages);
  }

  // Refetching every window of a transcript.
  lemma RefetchLaws(clock: Clock, existing: seq<Page>, incoming: seq<Page>)
    ensures var result := Refetch(clock, existing, incoming);
      && |result| == |incoming|
      // ids are unique across all windows
      && UniqueIds(Rows(result))
      // the server rows are those of the incoming windows and of the old windows they pair with
      && (forall id :: id in ServerIds(Rows(result))
            <==> exists i :: 0 <= i < |incoming| && id in WindowServerIds(existing, incoming, i))
      // no placeholder is left beside the server row that answers it, on any window
      && (forall p, server :: p in Rows(result) && Pending(p) && server in Rows(result) && !Pending(server)
            ==> !SameMessageRequest(p, server))
      // windows keep their place and each stays in order
      && (forall i :: 0 <= i < |incoming| ==>
            Thins(clock.Le, MergePages(clock, existing, incoming)[i], result[i]))
      // and another pass over the result finds nothing to remove
      && Deduplicate(result) == result
  {
    var merged := MergePages(clock, existing, incoming);
    DeduplicateLaws(merged);
    DeduplicateIdempotent(merged);
    KeptPagesThin(clock.Le, ServerRows(Rows(merged)), {}, merged);
    RowsOf(merged);
    forall i | 0 <= i < |incoming|
      ensures ServerIds(merged[i].messages) == WindowServerIds(existing, incoming, i)
    {
      MergedWindow(clock, existing, incoming, i);
    }
    forall id | id in ServerIds(Rows(merged))
      ensures exists i :: 0 <= i < |incoming| && id in WindowServerIds(existing, incoming, i)
    {
      var e :| e in Rows(merged) && !Pending(e) && e.id == id;
      var i :| 0 <= i < |merged| && e in merged[i].messages;
      assert id in ServerIds(merged[i].messages);
    }
    forall i, id | 0 <= i < |incoming| && id in WindowServerIds(existing, incoming, i)
      ensures id in ServerIds(Rows(merged))
    {
      assert id in ServerIds(merged[i].messages);
      var e :| e in merged[i].messages && !Pending(e) && e.id == id;
    }
  }

  // A refetched window takes its cursor data from the response, and keeps what the response
  // does not say.
  lemma RefetchedCursor(clock: Clock, existing: seq<Page>, incoming: seq<Page>, i: nat)
    requires i < |incoming|
    ensures |Refetch(clock, existing, incoming)| == |incoming|
    ensures var page, kept := Refetch(clock, existing, incoming)[i], i < |existing|;
      && page.limit == (if incoming[i].limit.Some? || !kept then incoming[i].limit else existing[i].limit)
      && page.hasMore == (if incoming[i].hasMore.Some? || !kept then incoming[i].hasMore else existing[i].hasMore)
      && page.nextCursor ==
           (if incoming[i].nextCursor.Some? || !kept then incoming[i].nextCursor else existing[i].nextCursor)
  {
    var merged := MergePages(clock, existing, incoming);
    KeptPagesThin(clock.Le, ServerRows(Rows(merged)), {}, merged);
    assert Thins(clock.Le, merged[i], Refetch(clock, existing, incoming)[i]);
  }

  // Of several rows with one id, the first that is not shadowed stays, in the window in which it
  // stands; a row from the server is never shadowed.
  lemma {:induction false} KeptIsFirst(authoritative: seq<Entry>, seen: set<string>, list: seq<Entry>, i: nat)
    requires i < |list| && list[i].id !in seen && !Shadowed(authoritative, list[i])
    requires forall j :: 0 <= j < i ==> list[j].id != list[i].id || Shadowed(authoritative, list[j])
    ensures list[i] in Kept(authoritative, seen, list)
    decreases |list|
  {
    if i > 0 {
      var more := if Shadowed(authoritative, list[0]) || list[0].id in seen then seen else seen + {list[0].id};
      KeptIsFirst(authoritative, more, list[1..], i - 1);
    }
  }

  lemma FirstOfItsIdStays(pages: seq<Page>, i: nat)
    requires i < |Rows(pages)| && Rows(pages)[i].optimistic != Some(true)
    requires forall j :: 0 <= j < i ==> Rows(pages)[j].optimistic == Some(true) || Rows(pages)[j].id != Rows(pages)[i].id
    ensures Rows(pages)[i] in Rows(Deduplicate(pages))
  {
    var rows := Rows(pages);
    DeduplicateRows(pages);
    ServerRowsAre(rows);
    assert rows[i] in ServerRows(rows);
    KeptIsFirst(ServerRows(rows), {}, rows, i);
  }
}
