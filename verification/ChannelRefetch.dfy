// Which placeholders survive a refetch of the cursor windows.
module ChannelRefetch {
  import opened StableSort
  import opened ChannelCache
  import opened ChannelPages

  // What the server rows of a list are known by.
  ghost function Claims(list: seq<Entry>): set<(string, Request)> {
    set e | e in list && !Pending(e) :: (e.id, e.request)
  }

  ghost predicate AllServerRows(list: seq<Entry>) {
    forall e :: e in list ==> !Pending(e)
  }

  // Claims that no row with one of these ids replaces.
  ghost function Unreplaced(claims: set<(string, Request)>, ids: set<string>): set<(string, Request)> {
    set c | c in claims && c.0 !in ids
  }

  lemma AbsorbClaims(list: seq<Entry>, message: Entry)
    requires UniqueIds(list) && !Pending(message)
    ensures Claims(Absorb(list, message)) == Unreplaced(Claims(list), {message.id}) + {(message.id, message.request)}
  {
    var next, k := Absorb(list, message), TurnIndex(list, message);
    AbsorbShape(list, message);
    assert next[k] in next && !Pending(next[k]) && next[k].request == message.request;
    forall e | e in list && !Pending(e) && e.id != message.id ensures e in next {
      var j :| 0 <= j < |list| && list[j] == e;
      assert next[j] in next;
    }
    forall e | e in next && !Pending(e)
      ensures (e.id, e.request) in Unreplaced(Claims(list), {message.id}) + {(message.id, message.request)}
    {
      var j :| 0 <= j < |next| && next[j] == e;
      if j != k {
        assert list[j] in list;
        AbsorbInvariants(list, message);
      }
    }
  }

  lemma UnreplacedTwice(claims: set<(string, Request)>, message: Entry, ids: set<string>)
    requires message.id !in ids
    ensures Unreplaced(Unreplaced(claims, {message.id}) + {(message.id, message.request)}, ids)
         == Unreplaced(claims, {message.id} + ids) + {(message.id, message.request)}
  {
  }

  lemma ClaimsOfCons(message: Entry, rest: seq<Entry>)
    requires !Pending(message)
    ensures Claims([message] + rest) == {(message.id, message.request)} + Claims(rest)
    ensures Ids([message] + rest) == {message.id} + Ids(rest)
  {
    assert message in [message] + rest;
  }

  lemma FirstIsUnique(rows: seq<Entry>)
    requires UniqueIds(rows) && rows != []
    ensures rows[0].id !in Ids(rows[1..]) && UniqueIds(rows[1..])
  {
    assert forall j :: 0 <= j < |rows[1..]| ==> rows[1..][j] == rows[j + 1];
  }

  lemma {:induction false} AbsorbAllClaims(list: seq<Entry>, incoming: seq<Entry>)
    requires UniqueIds(list) && UniqueIds(incoming) && AllServerRows(incoming)
    ensures Claims(AbsorbAll(list, incoming)) == Unreplaced(Claims(list), Ids(incoming)) + Claims(incoming)
    decreases |incoming|
  {
    if incoming != [] {
      var message, rest := incoming[0], incoming[1..];
      assert incoming == [message] + rest && message in incoming;
      FirstIsUnique(incoming);
      AbsorbInvariants(list, message);
      AbsorbClaims(list, message);
      AbsorbAllClaims(Absorb(list, message), rest);
      ClaimsOfCons(message, rest);
      UnreplacedTwice(Claims(list), message, Ids(rest));
    }
  }

  // A placeholder that no server row names or answers stays where it is.
  lemma {:induction false} PlaceholderStays(list: seq<Entry>, incoming: seq<Entry>, p: Entry)
    requires UniqueIds(list) && p in list
    requires forall m :: m in incoming ==> m.id != p.id && !SameMessageRequest(p, m)
    ensures p in AbsorbAll(list, incoming)
    decreases |incoming|
  {
    if incoming != [] {
      var message := incoming[0];
      assert message in incoming;
      AbsorbShape(list, message);
      AbsorbInvariants(list, message);
      var j :| 0 <= j < |list| && list[j] == p;
      assert Absorb(list, message)[j] in Absorb(list, message);
      PlaceholderStays(Absorb(list, message), incoming[1..], p);
    }
  }

  // Server rows bring no placeholder.
  lemma {:induction false} PlaceholderWasThere(list: seq<Entry>, incoming: seq<Entry>, p: Entry)
    requires AllServerRows(incoming) && Pending(p) && p in AbsorbAll(list, incoming)
    ensures p in list
    decreases |incoming|
  {
    if incoming != [] {
      var message := incoming[0];
      assert message in incoming;
      PlaceholderWasThere(Absorb(list, message), incoming[1..], p);
      AbsorbShape(list, message);
      var j :| 0 <= j < |Absorb(list, message)| && Absorb(list, message)[j] == p;
      assert j < |list| && list[j] in list;
    }
  }

  lemma MergedRows(clock: Clock, list: seq<Entry>, incoming: seq<Entry>)
    ensures forall e :: e in Merge(clock, list, incoming) <==> e in AbsorbAll(list, incoming)
  {
    if Touched(list, incoming) {
      SortKeepsElements(clock.Le, AbsorbAll(list, incoming));
    } else {
      UntouchedIsSame(list, incoming);
    }
  }

  // ---------------------------------------------------------------- windows

  function OldRows(existing: seq<Page>, k: nat): seq<Entry> {
    if k < |existing| then existing[k].messages else []
  }

  // A server row of window `k` after the refetch: an incoming one, or an old one whose id the
  // incoming window does not bring.
  ghost predicate Holds(existing: seq<Page>, incoming: seq<Page>, k: nat, server: Entry)
    requires k < |incoming|
  {
    || server in incoming[k].messages
    || (server in OldRows(existing, k) && !Pending(server) && server.id !in Ids(incoming[k].messages))
  }

  // Some window holds a server row with the id of the placeholder or with its request,
  // whatever the age of that row.
  ghost predicate Eclipsed(existing: seq<Page>, incoming: seq<Page>, p: Entry) {
    exists k, server :: 0 <= k < |incoming| && Holds(existing, incoming, k, server)
      && (server.id == p.id || SameMessageRequest(p, server))
  }

  // The placeholder stands in an old window that the refetch pairs with an incoming one.
  ghost predicate Paired(existing: seq<Page>, incoming: seq<Page>, p: Entry) {
    exists k :: 0 <= k < |incoming| && p in OldRows(existing, k)
  }

  // Server responses: server rows only, each once.
  ghost predicate Responses(incoming: seq<Page>) {
    forall k :: 0 <= k < |incoming| ==> AllServerRows(incoming[k].messages) && UniqueIds(incoming[k].messages)
  }

  lemma {:induction false} WindowIsUnique(pages: seq<Page>, k: nat)
    requires UniqueIds(Rows(pages)) && k < |pages|
    ensures UniqueIds(pages[k].messages)
  {
    var first, rest := pages[0].messages, Rows(pages[1..]);
    assert forall i :: 0 <= i < |first| ==> Rows(pages)[i] == first[i];
    if k > 0 {
      assert forall i :: 0 <= i < |rest| ==> Rows(pages)[|first| + i] == rest[i];
      WindowIsUnique(pages[1..], k - 1);
    }
  }

  lemma MergedWindowIs(clock: Clock, existing: seq<Page>, incoming: seq<Page>, k: nat)
    requires k < |incoming|
    ensures MergePages(clock, existing, incoming)[k].messages
         == Merge(clock, OldRows(existing, k), incoming[k].messages)
  {
  }

  // A row's id and request are claimed in a merged window exactly when the window holds them.
  lemma MergedClaims(clock: Clock, existing: seq<Page>, incoming: seq<Page>, k: nat, id: string, request: Request)
    requires k < |incoming| && Responses(incoming) && UniqueIds(Rows(existing))
    ensures (exists s :: s in MergePages(clock, existing, incoming)[k].messages && !Pending(s)
               && s.id == id && s.request == request)
      <==> (exists server :: Holds(existing, incoming, k, server) && server.id == id && server.request == request)
  {
    var window, rows := OldRows(existing, k), incoming[k].messages;
    if k < |existing| { WindowIsUnique(existing, k); }
    MergedWindowIs(clock, existing, incoming, k);
    MergedRows(clock, window, rows);
    AbsorbAllClaims(window, rows);
    assert Claims(Merge(clock, window, rows)) == Unreplaced(Claims(window), Ids(rows)) + Claims(rows);
    assert (id, request) in Claims(Merge(clock, window, rows))
      <==> ((id, request) in Claims(window) && id !in Ids(rows)) || (id, request) in Claims(rows);
  }

  lemma SurvivorWasPaired(clock: Clock, existing: seq<Page>, incoming: seq<Page>, k: nat, p: Entry)
    requires k < |incoming| && Responses(incoming) && Pending(p)
    requires p in MergePages(clock, existing, incoming)[k].messages
    ensures p in OldRows(existing, k)
  {
    MergedWindowIs(clock, existing, incoming, k);
    MergedRows(clock, OldRows(existing, k), incoming[k].messages);
    PlaceholderWasThere(OldRows(existing, k), incoming[k].messages, p);
  }

  // A row of the merged windows hides the placeholder exactly when the placeholder is eclipsed.
  lemma HiddenIffEclipsed(clock: Clock, existing: seq<Page>, incoming: seq<Page>, p: Entry)
    requires Responses(incoming) && UniqueIds(Rows(existing)) && Pending(p)
    ensures Shadowed(ServerRows(Rows(MergePages(clock, existing, incoming))), p) <==> Eclipsed(existing, incoming, p)
  {
    var merged := MergePages(clock, existing, incoming);
    RowsOf(merged);
    ServerRowsAre(Rows(merged));
    if Shadowed(ServerRows(Rows(merged)), p) {
      var s :| s in ServerRows(Rows(merged)) && (s.id == p.id || SameMessageRequest(p, s));
      var k :| 0 <= k < |merged| && s in merged[k].messages;
      MergedClaims(clock, existing, incoming, k, s.id, s.request);
      var server :| Holds(existing, incoming, k, server) && server.id == s.id && server.request == s.request;
    }
    if Eclipsed(existing, incoming, p) {
      var k, server :| 0 <= k < |incoming| && Holds(existing, incoming, k, server)
        && (server.id == p.id || SameMessageRequest(p, server));
      MergedClaims(clock, existing, incoming, k, server.id, server.request);
      var s :| s in merged[k].messages && !Pending(s) && s.id == server.id && s.request == server.request;
      assert s in ServerRows(Rows(merged));
    }
  }

  lemma PairedStays(clock: Clock, existing: seq<Page>, incoming: seq<Page>, p: Entry)
    requires UniqueIds(Rows(existing)) && Paired(existing, incoming, p) && !Eclipsed(existing, incoming, p)
    ensures p in Rows(MergePages(clock, existing, incoming))
  {
    var merged := MergePages(clock, existing, incoming);
    var k :| 0 <= k < |incoming| && p in OldRows(existing, k);
    WindowIsUnique(existing, k);
    forall m | m in incoming[k].messages ensures m.id != p.id && !SameMessageRequest(p, m) {
      assert Holds(existing, incoming, k, m);
    }
    PlaceholderStays(OldRows(existing, k), incoming[k].messages, p);
    MergedWindowIs(clock, existing, incoming, k);
    MergedRows(clock, OldRows(existing, k), incoming[k].messages);
    RowsOf(merged);
  }

  lemma OnlyRowOfItsId(list: seq<Entry>, a: Entry, b: Entry)
    requires UniqueIds(list) && a in list && b in list && a.id == b.id
    ensures a == b
  {
  }

  // Refetching the windows keeps a placeholder exactly when its window is paired and no window
  // then holds a server row with its id or request.
  lemma PlaceholderSurvivesIff(clock: Clock, existing: seq<Page>, incoming: seq<Page>, p: Entry)
    requires Responses(incoming) && UniqueIds(Rows(existing)) && Pending(p)
    ensures p in Rows(Refetch(clock, existing, incoming))
      <==> Paired(existing, incoming, p) && !Eclipsed(existing, incoming, p)
  {
    var merged := MergePages(clock, existing, incoming);
    var authoritative := ServerRows(Rows(merged));
    HiddenIffEclipsed(clock, existing, incoming, p);
    DeduplicateRows(merged);
    KeptMeaning(authoritative, {}, Rows(merged));
    RowsOf(merged);
    if p in Rows(Refetch(clock, existing, incoming)) {
      var k :| 0 <= k < |merged| && p in merged[k].messages;
      SurvivorWasPaired(clock, existing, incoming, k, p);
    } else if Paired(existing, incoming, p) && !Eclipsed(existing, incoming, p) {
      PairedStays(clock, existing, incoming, p);
      KeptInItsPlace(clock, existing, incoming, p);
    }
  }

  lemma KeptInItsPlace(clock: Clock, existing: seq<Page>, incoming: seq<Page>, p: Entry)
    requires Responses(incoming) && UniqueIds(Rows(existing)) && Pending(p)
    requires Paired(existing, incoming, p) && p in Rows(MergePages(clock, existing, incoming))
    requires !Shadowed(ServerRows(Rows(MergePages(clock, existing, incoming))), p)
    ensures p in Rows(Refetch(clock, existing, incoming))
  {
    var merged := MergePages(clock, existing, incoming);
    var authoritative := ServerRows(Rows(merged));
    DeduplicateRows(merged);
    KeptMeaning(authoritative, {}, Rows(merged));
    ServerRowsAre(Rows(merged));
    RowsOf(merged);
    RowsOf(existing);
    var e :| e in Kept(authoritative, {}, Rows(merged)) && e.id == p.id;
    assert Pending(e) by { assert !Pending(e) ==> e in authoritative; }
    var k :| 0 <= k < |merged| && e in merged[k].messages;
    SurvivorWasPaired(clock, existing, incoming, k, e);
    OnlyRowOfItsId(Rows(existing), e, p);
  }

  // Sending the same text twice: the answer to the first message, already on the window, hides
  // the second placeholder at the next refetch, although the flat cache keeps it.
  lemma OldAnswerHidesPlaceholder(clock: Clock, page: Page, server: Entry, pending: Entry)
    requires !Pending(server) && Pending(pending)
    requires SameMessageRequest(pending, server) && pending.id != server.id
    ensures var before, after := page.(messages := [server, pending]), page.(messages := [server]);
      && pending !in Rows(Refetch(clock, [before], [after]))
      && pending in Merge(clock, before.messages, after.messages)
  {
    var before, after := page.(messages := [server, pending]), page.(messages := [server]);
    var existing, incoming := [before], [after];
    assert Rows(existing) == before.messages + Rows([]);
    assert UniqueIds(Rows(existing));
    assert server in incoming[0].messages && Holds(existing, incoming, 0, server);
    PlaceholderSurvivesIff(clock, existing, incoming, pending);
    assert Absorb(before.messages, server) == before.messages;
    assert [server][1..] == [] && !Touched(before.messages, []);
    assert before.messages[1] == pending;
  }
}
