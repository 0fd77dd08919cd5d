// When a send succeeds: the placeholder is taken out and the answer written. The realtime echo
// of the answer may come before that, after it, or never.
module ChannelReconcile {
  import opened Options
  import opened StableSort
  import opened ChannelCache
  import opened ChannelConvergence
  import opened ChannelPages
  import opened ChannelWrites

  // A window into which the answer can be written.
  ghost predicate Ready(clock: Clock, list: seq<Entry>, answer: Entry) {
    && clock.Lawful() && clock.Consistent(Stamps(list) + {answer.createdAt})
    && UniqueIds(list) && Ordered(clock.Le, list)
    && !Pending(answer) && (forall e :: e in list && e.id == answer.id ==> !Pending(e))
  }

  function Wrote(clock: Clock, list: seq<Entry>, answer: Entry): seq<Entry> {
    Merge(clock, list, [answer])
  }

  // The placeholder that the answer would consume, if any.
  function Match(list: seq<Entry>, answer: Entry): set<string> {
    var k := IndexOfPlaceholder(list, answer);
    if k < |list| then {list[k].id} else {}
  }

  // Writing the answer would consume exactly this placeholder.
  predicate Takes(list: seq<Entry>, answer: Entry, id: string) {
    answer.id !in Ids(list) && Match(list, answer) == {id}
  }

  // ---------------------------------------------------------------- one window

  lemma WroteTable(clock: Clock, list: seq<Entry>, answer: Entry)
    requires Ready(clock, list, answer)
    ensures Ready(clock, Wrote(clock, list, answer), answer)
    ensures Index(Wrote(clock, list, answer)) == Receive(clock, Index(list), answer)
    ensures answer.id in Ids(Wrote(clock, list, answer))
  {
    var stamps := Stamps(list) + {answer.createdAt};
    assert Stamps([answer]) == {answer.createdAt};
    assert AllUnclaimed(Index(list), [answer]);
    MergeRefinesReceiveAll(clock, list, [answer], stamps);
    assert [answer][1..] == [];
    assert ReceiveAll(clock, Index(list), [answer]) == ReceiveAll(clock, Receive(clock, Index(list), answer), []);
    var next := Wrote(clock, list, answer);
    assert Stamps(next) + {answer.createdAt} <= stamps;
    assert answer.id in Index(next);
  }

  lemma SameTable(clock: Clock, a: seq<Entry>, b: seq<Entry>, answer: Entry)
    requires Ready(clock, a, answer) && Ready(clock, b, answer) && Index(a) == Index(b)
    ensures a == b
  {
    SameTableSameTranscript(clock, a, b);
  }

  // An echo after the answer changes nothing.
  lemma WroteTwice(clock: Clock, list: seq<Entry>, answer: Entry)
    requires Ready(clock, list, answer)
    ensures Wrote(clock, Wrote(clock, list, answer), answer) == Wrote(clock, list, answer)
  {
    var once := Wrote(clock, list, answer);
    WroteTable(clock, list, answer);
    WroteTable(clock, once, answer);
    ReceiveTwice(clock, Index(list), answer);
    SameTable(clock, Wrote(clock, once, answer), once, answer);
  }

  lemma WithoutIsReady(clock: Clock, list: seq<Entry>, answer: Entry, id: string)
    requires Ready(clock, list, answer)
    ensures Ready(clock, Without(list, id), answer)
  {
    var rest := Without(list, id);
    WithoutMeaning(list, id);
    WithoutKeepsOrder(clock.Le, list, id);
    assert Stamps(rest) + {answer.createdAt} <= Stamps(list) + {answer.createdAt};
    ConsistentSubset(clock, Stamps(rest) + {answer.createdAt}, Stamps(list) + {answer.createdAt});
  }

  lemma WithoutTable(clock: Clock, list: seq<Entry>, answer: Entry, id: string)
    requires Ready(clock, list, answer)
    ensures Ready(clock, Without(list, id), answer)
    ensures Index(Without(list, id)) == Index(list) - {id}
  {
    WithoutIsReady(clock, list, answer, id);
    WithoutMeaning(list, id);
    var rest, table := Index(Without(list, id)), Index(list);
    forall x ensures x in rest <==> x in table && x != id {
      if x in table && x != id { assert table[x] in Without(list, id); }
    }
  }

  lemma ReceivedTable(clock: Clock, list: seq<Entry>, answer: Entry)
    requires Ready(clock, list, answer)
    ensures Receive(clock, Index(list), answer)
         == if answer.id in Index(list) then Index(list)[answer.id := MergeMessage(Index(list)[answer.id], answer)]
            else (Index(list) - Match(list, answer))[answer.id := answer]
  {
    AnsweredIsFirst(clock, list, answer);
  }

  lemma {:induction false} MatchKept(list: seq<Entry>, answer: Entry, id: string)
    requires UniqueIds(list) && Match(list, answer) != {id}
    ensures Match(Without(list, id), answer) == Match(list, answer)
  {
    if list != [] {
      MatchOfRest(list, answer);
      MatchOfRest(Without(list, id), answer);
      if list[0].id == id {
        MatchKept(list[1..], answer, id);
      } else {
        assert Without(list, id)[1..] == Without(list[1..], id);
        if !Answers(answer, list[0]) { MatchKept(list[1..], answer, id); }
      }
    }
  }

  // Some other row of the list is a placeholder that the answer matches.
  ghost predicate MatchesOther(list: seq<Entry>, answer: Entry, id: string) {
    exists e :: e in list && e.id != id && Answers(answer, e)
  }

  lemma MatchAmongOthers(list: seq<Entry>, answer: Entry, id: string)
    ensures Match(Without(list, id), answer) != {} <==> MatchesOther(list, answer, id)
  {
    WithoutMeaning(list, id);
    NothingAnswered(Without(list, id), answer);
  }

  lemma MatchOfRest(list: seq<Entry>, answer: Entry)
    ensures list != [] && !Answers(answer, list[0]) ==> Match(list, answer) == Match(list[1..], answer)
    ensures list != [] && Answers(answer, list[0]) ==> Match(list, answer) == {list[0].id}
  {
  }

  // A write that does not consume the row commutes with its removal.
  lemma RemoveAfterWrite(clock: Clock, list: seq<Entry>, answer: Entry, id: string)
    requires Ready(clock, list, answer) && id != answer.id && !Takes(list, answer, id)
    ensures Without(Wrote(clock, list, answer), id) == Wrote(clock, Without(list, id), answer)
  {
    var wrote, rest := Wrote(clock, list, answer), Without(list, id);
    WroteTable(clock, list, answer);
    WithoutTable(clock, wrote, answer, id);
    WithoutTable(clock, list, answer, id);
    WroteTable(clock, rest, answer);
    ReceivedTable(clock, list, answer);
    ReceivedTable(clock, rest, answer);
    if answer.id !in Ids(list) { MatchKept(list, answer, id); }
    RemovalCommutes(Index(list), Match(list, answer), Match(rest, answer), answer, id);
    SameTable(clock, Without(wrote, id), Wrote(clock, rest, answer), answer);
  }

  lemma RemovalCommutes(table: Table, gone: set<string>, goneAfter: set<string>, answer: Entry, id: string)
    requires id != answer.id && (answer.id !in table ==> gone == goneAfter)
    ensures answer.id in table ==>
      table[answer.id := MergeMessage(table[answer.id], answer)] - {id}
        == (table - {id})[answer.id := MergeMessage((table - {id})[answer.id], answer)]
    ensures answer.id !in table ==>
      (table - gone)[answer.id := answer] - {id} == ((table - {id}) - goneAfter)[answer.id := answer]
  {
  }

  // A write that consumes the row leaves nothing to remove.
  lemma RemoveAfterTaken(clock: Clock, list: seq<Entry>, answer: Entry, id: string)
    requires Ready(clock, list, answer) && id != answer.id && Takes(list, answer, id)
    ensures Without(Wrote(clock, list, answer), id) == Wrote(clock, list, answer)
  {
    WroteTable(clock, list, answer);
    ReceivedTable(clock, list, answer);
    assert id !in Index(Wrote(clock, list, answer));
    WithoutAbsent(Wrote(clock, list, answer), id);
  }

  // Writing after the removal then consumes another placeholder, if there is one.
  lemma TakesAnother(clock: Clock, list: seq<Entry>, answer: Entry, id: string)
    requires Ready(clock, list, answer) && id != answer.id && Takes(list, answer, id)
    requires MatchesOther(list, answer, id)
    ensures Wrote(clock, Without(list, id), answer) != Wrote(clock, list, answer)
  {
    var wrote, rest := Wrote(clock, list, answer), Without(list, id);
    WroteTable(clock, list, answer);
    WithoutTable(clock, list, answer, id);
    WroteTable(clock, rest, answer);
    ReceivedTable(clock, list, answer);
    ReceivedTable(clock, rest, answer);
    MatchAmongOthers(list, answer, id);
    var other := rest[IndexOfPlaceholder(rest, answer)];
    assert other in rest && other.id in Index(rest);
    assert other.id in Index(wrote) && other.id !in Index(Wrote(clock, rest, answer));
  }

  lemma NothingToConsume(clock: Clock, list: seq<Entry>, answer: Entry, id: string)
    requires Ready(clock, list, answer) && id != answer.id && Takes(list, answer, id)
    requires !MatchesOther(list, answer, id)
    ensures UniqueIds(Wrote(clock, Without(list, id), answer))
    ensures Index(Wrote(clock, Without(list, id), answer)) == (Index(list) - {id})[answer.id := answer]
  {
    var rest := Without(list, id);
    WithoutTable(clock, list, answer, id);
    WroteTable(clock, rest, answer);
    ReceivedTable(clock, rest, answer);
    MatchAmongOthers(list, answer, id);
    assert (Index(list) - {id}) - {} == Index(list) - {id};
  }

  lemma TakesNoOther(clock: Clock, list: seq<Entry>, answer: Entry, id: string)
    requires Ready(clock, list, answer) && id != answer.id && Takes(list, answer, id)
    requires !MatchesOther(list, answer, id)
    ensures Wrote(clock, Without(list, id), answer) == Wrote(clock, list, answer)
  {
    NothingToConsume(clock, list, answer, id);
    WroteTable(clock, list, answer);
    ReceivedTable(clock, list, answer);
    WithoutIsReady(clock, list, answer, id);
    WroteTable(clock, Without(list, id), answer);
    SameTable(clock, Wrote(clock, Without(list, id), answer), Wrote(clock, list, answer), answer);
  }

  // ---------------------------------------------------------------- all windows

  ghost predicate AllReady(clock: Clock, pages: seq<Page>, answer: Entry) {
    forall k :: 0 <= k < |pages| ==> Ready(clock, pages[k].messages, answer)
  }

  // The window that a write goes to.
  function Home(pages: seq<Page>, answer: Entry): (h: nat)
    requires pages != []
    ensures h < |pages|
  {
    var t := TargetPage(pages, answer);
    if t < |pages| then t else 0
  }

  // onSuccess: the placeholder is taken out, then the answer is written.
  function Reconciled(clock: Clock, pages: seq<Page>, id: string, answer: Entry): seq<Page> {
    WritePages(clock, WithoutPages(pages, id), answer)
  }

  // Some other row of any window carries the answer's id or is a placeholder it matches.
  ghost predicate TouchesOther(pages: seq<Page>, answer: Entry, id: string) {
    exists k :: 0 <= k < |pages| && OtherOnPage(pages[k], answer, id)
  }

  ghost predicate OtherOnPage(page: Page, answer: Entry, id: string) {
    exists e :: e in page.messages && e.id != id && (e.id == answer.id || Answers(answer, e))
  }

  // The window that the echo goes to is found again after it.
  lemma HomeStays(clock: Clock, pages: seq<Page>, answer: Entry)
    requires pages != [] && AllReady(clock, pages, answer)
    ensures Home(WritePages(clock, pages, answer), answer) == Home(pages, answer)
  {
    var h, next := Home(pages, answer), WritePages(clock, pages, answer);
    WroteTable(clock, pages[h].messages, answer);
    assert answer.id in Ids(next[h].messages);
    assert Touches(next[h], answer);
    assert forall k :: 0 <= k < h ==> next[k] == pages[k];
  }

  // An echo after the answer, or an answer after itself, changes nothing.
  lemma EchoAfter(clock: Clock, pages: seq<Page>, answer: Entry)
    requires pages != [] && AllReady(clock, pages, answer)
    ensures WritePages(clock, WritePages(clock, pages, answer), answer) == WritePages(clock, pages, answer)
  {
    var h := Home(pages, answer);
    HomeStays(clock, pages, answer);
    WroteTwice(clock, pages[h].messages, answer);
  }

  lemma TouchedIff(page: Page, answer: Entry)
    ensures Touches(page, answer) <==> answer.id in Ids(page.messages) || Match(page.messages, answer) != {}
  {
    NothingAnswered(page.messages, answer);
  }

  // Removing a row makes no window touched.
  lemma TouchedWithout(page: Page, answer: Entry, id: string)
    requires id != answer.id
    ensures Touches(page.(messages := Without(page.messages, id)), answer) <==> OtherOnPage(page, answer, id)
  {
    WithoutMeaning(page.messages, id);
  }

  // Would the echo consume the row?
  predicate TakesHome(pages: seq<Page>, answer: Entry, id: string) {
    pages != [] && Takes(pages[Home(pages, answer)].messages, answer, id)
  }

  lemma HomeAfterRemoval(clock: Clock, pages: seq<Page>, answer: Entry, id: string)
    requires pages != [] && AllReady(clock, pages, answer) && id != answer.id && !TakesHome(pages, answer, id)
    ensures Home(WithoutPages(pages, id), answer) == Home(pages, answer)
  {
    var h, rest := Home(pages, answer), WithoutPages(pages, id);
    forall k | 0 <= k < |pages| && !Touches(pages[k], answer) ensures !Touches(rest[k], answer) {
      UntouchedWithout(pages[k], answer, id);
    }
    if Touches(pages[h], answer) {
      var list := pages[h].messages;
      TouchedIff(pages[h], answer);
      TouchedIff(rest[h], answer);
      WithoutMeaning(list, id);
      if answer.id !in Ids(list) { MatchKept(list, answer, id); }
      assert Touches(rest[h], answer);
    }
  }

  // An echo that does not consume the placeholder makes no difference.
  lemma NotTaken(clock: Clock, pages: seq<Page>, answer: Entry, id: string)
    requires pages != [] && AllReady(clock, pages, answer) && id != answer.id && !TakesHome(pages, answer, id)
    ensures Reconciled(clock, WritePages(clock, pages, answer), id, answer) == Reconciled(clock, pages, id, answer)
  {
    var h, rest := Home(pages, answer), WithoutPages(pages, id);
    HomeAfterRemoval(clock, pages, answer, id);
    RemoveAfterWrite(clock, pages[h].messages, answer, id);
    assert WithoutPages(WritePages(clock, pages, answer), id) == WritePages(clock, rest, answer);
    forall k | 0 <= k < |rest| ensures Ready(clock, rest[k].messages, answer) {
      WithoutIsReady(clock, pages[k].messages, answer, id);
    }
    EchoAfter(clock, rest, answer);
  }

  // An echo that consumes it leaves the answer in its place.
  lemma TakenLeaves(clock: Clock, pages: seq<Page>, answer: Entry, id: string)
    requires pages != [] && AllReady(clock, pages, answer) && id != answer.id && TakesHome(pages, answer, id)
    ensures var h := Home(pages, answer);
      WithoutPages(WritePages(clock, pages, answer), id)
        == WithoutPages(pages, id)[h := WritePage(clock, pages[h], answer)]
  {
    RemoveAfterTaken(clock, pages[Home(pages, answer)].messages, answer, id);
  }

  lemma TakenHome(clock: Clock, pages: seq<Page>, answer: Entry, id: string)
    requires pages != [] && AllReady(clock, pages, answer)
    ensures var h := Home(pages, answer);
      Home(WithoutPages(pages, id)[h := WritePage(clock, pages[h], answer)], answer) == h
  {
    var h := Home(pages, answer);
    var next := WithoutPages(pages, id)[h := WritePage(clock, pages[h], answer)];
    WroteTable(clock, pages[h].messages, answer);
    TouchedIff(next[h], answer);
    forall k | 0 <= k < h ensures !Touches(next[k], answer) {
      UntouchedWithout(pages[k], answer, id);
    }
  }

  lemma UntouchedWithout(page: Page, answer: Entry, id: string)
    requires !Touches(page, answer)
    ensures !Touches(page.(messages := Without(page.messages, id)), answer)
  {
    WithoutMeaning(page.messages, id);
  }

  lemma TakenStays(clock: Clock, pages: seq<Page>, answer: Entry, id: string)
    requires pages != [] && AllReady(clock, pages, answer) && id != answer.id && TakesHome(pages, answer, id)
    ensures var h := Home(pages, answer);
      Reconciled(clock, WritePages(clock, pages, answer), id, answer)
        == WithoutPages(pages, id)[h := WritePage(clock, pages[h], answer)]
  {
    TakenLeaves(clock, pages, answer, id);
    TakenHome(clock, pages, answer, id);
    WroteTwice(clock, pages[Home(pages, answer)].messages, answer);
  }

  lemma OtherIffTouched(pages: seq<Page>, answer: Entry, id: string)
    requires id != answer.id
    ensures TouchesOther(pages, answer, id) <==> TargetPage(WithoutPages(pages, id), answer) < |pages|
  {
    var rest := WithoutPages(pages, id);
    forall k | 0 <= k < |pages|
      ensures Touches(rest[k], answer) <==> OtherOnPage(pages[k], answer, id)
    {
      TouchedWithout(pages[k], answer, id);
    }
  }

  lemma TakenIff(clock: Clock, pages: seq<Page>, answer: Entry, id: string)
    requires pages != [] && AllReady(clock, pages, answer) && id != answer.id && TakesHome(pages, answer, id)
    ensures Reconciled(clock, WritePages(clock, pages, answer), id, answer) == Reconciled(clock, pages, id, answer)
      <==> Home(pages, answer) == 0 && !TouchesOther(pages, answer, id)
  {
    var h, rest := Home(pages, answer), WithoutPages(pages, id);
    var list := pages[h].messages;
    TakenStays(clock, pages, answer, id);
    OtherIffTouched(pages, answer, id);
    WroteTable(clock, list, answer);
    WithoutMeaning(list, id);
    var t := Home(rest, answer);
    if t != h {
      assert answer.id !in Ids(rest[h].messages);
      assert Reconciled(clock, pages, id, answer)[h] == rest[h];
    } else if TouchesOther(pages, answer, id) {
      TouchedWithout(pages[h], answer, id);
      assert MatchesOther(list, answer, id);
      TakesAnother(clock, list, answer, id);
      assert Reconciled(clock, pages, id, answer)[h].messages == Wrote(clock, Without(list, id), answer);
    } else {
      assert !MatchesOther(list, answer, id);
      TakesNoOther(clock, list, answer, id);
    }
  }

  // The first write into a transcript without windows.
  lemma NoWindows(clock: Clock, answer: Entry, id: string)
    requires id != answer.id
    ensures Reconciled(clock, WritePages(clock, [], answer), id, answer) == Reconciled(clock, [], id, answer)
    ensures WritePages(clock, [FreshPage(answer)], answer) == [FreshPage(answer)]
  {
    assert [answer][1..] == [];
    assert Absorb([answer], answer) == [answer];
    assert !Touched([answer], [answer]);
    var once := [FreshPage(answer)];
    assert Without([answer], id) == [answer];
    assert once[0].messages == [answer];
    assert WithoutPages(once, id) == once && WithoutPages([], id) == [];
    assert WritePages(clock, once, answer) == once;
  }

  // Does the echo that comes before the answer make no difference?
  ghost predicate EchoIsHarmless(pages: seq<Page>, answer: Entry, id: string) {
    TakesHome(pages, answer, id) ==> Home(pages, answer) == 0 && !TouchesOther(pages, answer, id)
  }

  // It makes none exactly when it does not consume the placeholder, or when it does so on the
  // first window and no other row of any window carries the answer's id or is a placeholder
  // that the answer matches.
  lemma EchoBeforeIff(clock: Clock, pages: seq<Page>, answer: Entry, id: string)
    requires AllReady(clock, pages, answer) && id != answer.id
    ensures Reconciled(clock, WritePages(clock, pages, answer), id, answer) == Reconciled(clock, pages, id, answer)
      <==> EchoIsHarmless(pages, answer, id)
  {
    if pages == [] { NoWindows(clock, answer, id); }
    else if TakesHome(pages, answer, id) { TakenIff(clock, pages, answer, id); }
    else { NotTaken(clock, pages, answer, id); }
  }

  // ---------------------------------------------------------------- the cached transcript

  function Succeeded(clock: Clock, current: Cached, id: string, answer: Entry): Option<Cached> {
    Written(clock, Removed(Some(current), id), answer, true)
  }

  function Echoed(clock: Clock, current: Cached, answer: Entry): Cached {
    Written(clock, Some(current), answer, false).value
  }

  // The cached transcript after a write that leaves these windows.
  function Shown(cached: Cached, pages: seq<Page>): Cached
    requires |pages| > 0
  {
    match cached
    case Flat(_) => Flat(pages[0])
    case Paged(_, params) => Paged(pages, if |params| > 0 then params else [None])
  }

  lemma WrittenPages(clock: Clock, pages: seq<Page>, answer: Entry)
    ensures |WritePages(clock, pages, answer)| == if pages == [] then 1 else |pages|
    ensures |pages| == 1 ==> WritePages(clock, pages, answer) == [WritePage(clock, pages[0], answer)]
  {
  }

  lemma EchoedShows(clock: Clock, current: Cached, answer: Entry)
    ensures WritePages(clock, PagesOf(Some(current)), answer) != []
    ensures Echoed(clock, current, answer) == Shown(current, WritePages(clock, PagesOf(Some(current)), answer))
  {
    WrittenPages(clock, PagesOf(Some(current)), answer);
  }

  lemma SucceededShows(clock: Clock, current: Cached, id: string, answer: Entry)
    ensures Reconciled(clock, PagesOf(Some(current)), id, answer) != []
    ensures Succeeded(clock, current, id, answer)
         == Some(Shown(current, Reconciled(clock, PagesOf(Some(current)), id, answer)))
  {
    var pages := PagesOf(Some(current));
    var removed := Removed(Some(current), id).value;
    assert PagesOf(Some(removed)) == WithoutPages(pages, id);
    EchoedShows(clock, removed, answer);
  }

  // A write shows the same windows in every case.
  lemma ShownAgain(current: Cached, pages: seq<Page>, next: seq<Page>)
    requires |pages| > 0 && |next| > 0 && (current.Flat? ==> |pages| == 1 && |next| == 1)
    ensures PagesOf(Some(Shown(current, pages))) == pages
    ensures Shown(Shown(current, pages), next) == Shown(current, next)
    ensures Shown(current, pages) == Shown(current, next) <==> pages == next
  {
  }

  // The realtime echo of an answer may come after the success handler or never: the transcript
  // is the same ...
  lemma SuccessIgnoresLaterEcho(clock: Clock, current: Cached, id: string, answer: Entry)
    requires AllReady(clock, PagesOf(Some(current)), answer) && id != answer.id
    ensures var done := Succeeded(clock, current, id, answer);
      done.Some? && Echoed(clock, done.value, answer) == done.value
  {
    var pages := PagesOf(Some(current));
    var rest := WithoutPages(pages, id);
    var done := Reconciled(clock, pages, id, answer);
    SucceededShows(clock, current, id, answer);
    WrittenPages(clock, rest, answer);
    WrittenPages(clock, done, answer);
    ShownAgain(current, done, done);
    EchoedShows(clock, Shown(current, done), answer);
    if pages == [] {
      NoWindows(clock, answer, id);
    } else {
      forall k | 0 <= k < |rest| ensures Ready(clock, rest[k].messages, answer) {
        WithoutIsReady(clock, pages[k].messages, answer, id);
      }
      EchoAfter(clock, rest, answer);
    }
  }

  // ... and it may come before it exactly when it is harmless.
  lemma SuccessIgnoresEarlierEchoIff(clock: Clock, current: Cached, id: string, answer: Entry)
    requires AllReady(clock, PagesOf(Some(current)), answer) && id != answer.id
    ensures Succeeded(clock, Echoed(clock, current, answer), id, answer) == Succeeded(clock, current, id, answer)
      <==> EchoIsHarmless(PagesOf(Some(current)), answer, id)
  {
    var pages := PagesOf(Some(current));
    var echoed := WritePages(clock, pages, answer);
    var early, late := Reconciled(clock, echoed, id, answer), Reconciled(clock, pages, id, answer);
    EchoedShows(clock, current, answer);
    WrittenPages(clock, pages, answer);
    WrittenPages(clock, WithoutPages(pages, id), answer);
    WrittenPages(clock, WithoutPages(echoed, id), answer);
    ShownAgain(current, echoed, early);
    ShownAgain(current, early, late);
    SucceededShows(clock, current, id, answer);
    SucceededShows(clock, Shown(current, echoed), id, answer);
    EchoBeforeIff(clock, pages, answer, id);
  }

  // ---------------------------------------------------------------- one send

  // A window before the send: it holds neither the answer nor a placeholder of either request.
  ghost predicate Unsent(clock: Clock, page: Page, placeholder: Entry, answer: Entry) {
    && clock.Consistent(Stamps(page.messages) + {placeholder.createdAt, answer.createdAt})
    && UniqueIds(page.messages) && Ordered(clock.Le, page.messages)
    && !Touches(page, placeholder) && !Touches(page, answer)
  }

  ghost predicate Send(clock: Clock, placeholder: Entry, answer: Entry) {
    clock.Lawful() && Pending(placeholder) && !Pending(answer) && placeholder.id != answer.id
  }

  lemma TwoStamps(clock: Clock, a: string, b: string)
    requires clock.Lawful()
    ensures clock.Consistent({a, b})
  {
  }

  // The window that the placeholder was written into.
  lemma SentRows(clock: Clock, page: Page, placeholder: Entry, answer: Entry)
    requires Send(clock, placeholder, answer) && Unsent(clock, page, placeholder, answer)
    ensures forall e :: e in Merge(clock, page.messages, [placeholder]) <==> e in page.messages || e == placeholder
  {
    var list := page.messages;
    assert placeholder.id !in Ids(list);
    NothingAnswered(list, placeholder);
    FreshWrite(clock, list, placeholder);
  }

  lemma SentIsReady(clock: Clock, list: seq<Entry>, placeholder: Entry, answer: Entry)
    requires Send(clock, placeholder, answer) && UniqueIds(list) && Ordered(clock.Le, list)
    requires clock.Consistent(Stamps(list) + {placeholder.createdAt, answer.createdAt})
    requires answer.id !in Ids(list)
    requires forall e :: e in Merge(clock, list, [placeholder]) <==> e in list || e == placeholder
    ensures Ready(clock, Merge(clock, list, [placeholder]), answer)
  {
    var next := Merge(clock, list, [placeholder]);
    var stamps := Stamps(list) + {placeholder.createdAt, answer.createdAt};
    assert Stamps([placeholder]) == {placeholder.createdAt};
    ConsistentSubset(clock, Stamps(list) + Stamps([placeholder]), stamps);
    MergeInvariants(clock, list, [placeholder]);
    ConsistentSubset(clock, Stamps(next) + {answer.createdAt}, stamps);
  }

  lemma SentPage(clock: Clock, page: Page, placeholder: Entry, answer: Entry)
    requires Send(clock, placeholder, answer) && Unsent(clock, page, placeholder, answer)
    ensures var next := WritePage(clock, page, placeholder);
      Ready(clock, next.messages, answer) && !OtherOnPage(next, answer, placeholder.id)
  {
    SentRows(clock, page, placeholder, answer);
    assert answer.id !in Ids(page.messages);
    SentIsReady(clock, page.messages, placeholder, answer);
  }

  lemma UnsentIsReady(clock: Clock, page: Page, placeholder: Entry, answer: Entry)
    requires Send(clock, placeholder, answer) && Unsent(clock, page, placeholder, answer)
    ensures Ready(clock, page.messages, answer) && !OtherOnPage(page, answer, placeholder.id)
  {
    ConsistentSubset(clock, Stamps(page.messages) + {answer.createdAt},
      Stamps(page.messages) + {placeholder.createdAt, answer.createdAt});
  }

  lemma SeededPage(clock: Clock, page: Page, placeholder: Entry, answer: Entry)
    requires Send(clock, placeholder, answer) && page.messages == [placeholder]
    ensures Ready(clock, page.messages, answer) && !OtherOnPage(page, answer, placeholder.id)
  {
    TwoStamps(clock, placeholder.createdAt, answer.createdAt);
    assert Stamps([placeholder]) + {answer.createdAt} == {placeholder.createdAt, answer.createdAt};
  }

  lemma NothingElseIsHarmless(pages: seq<Page>, answer: Entry, id: string)
    requires forall k :: 0 <= k < |pages| ==> !OtherOnPage(pages[k], answer, id)
    requires forall k :: 0 < k < |pages| ==> !Touches(pages[k], answer)
    ensures EchoIsHarmless(pages, answer, id)
  {
  }

  // The windows once the placeholder has been written.
  lemma SentPages(clock: Clock, before: Option<Cached>, placeholder: Entry, answer: Entry)
    requires Send(clock, placeholder, answer)
    requires forall k :: 0 <= k < |PagesOf(before)| ==> Unsent(clock, PagesOf(before)[k], placeholder, answer)
    ensures Written(clock, before, placeholder, true).Some?
    ensures var pages := PagesOf(Written(clock, before, placeholder, true));
      AllReady(clock, pages, answer) && EchoIsHarmless(pages, answer, placeholder.id)
  {
    var windows, pages := PagesOf(before), PagesOf(Written(clock, before, placeholder, true));
    if windows == [] {
      assert |pages| == 1 && pages[0].messages == [placeholder];
      SeededPage(clock, pages[0], placeholder, answer);
    } else {
      assert TargetPage(windows, placeholder) == |windows|;
      assert pages == WritePages(clock, windows, placeholder);
      SentPage(clock, windows[0], placeholder, answer);
      forall k | 1 <= k < |pages|
        ensures Ready(clock, pages[k].messages, answer) && !OtherOnPage(pages[k], answer, placeholder.id)
        ensures !Touches(pages[k], answer)
      {
        UnsentIsReady(clock, windows[k], placeholder, answer);
      }
    }
    NothingElseIsHarmless(pages, answer, placeholder.id);
  }

  // Sending one message whose request is not pending already: whether its echo comes before the
  // response, after it or never, the transcript is the same, also when the server returns
  // another author than the placeholder had.
  lemma SendingIsDeterministic(clock: Clock, before: Option<Cached>, placeholder: Entry, answer: Entry)
    requires Send(clock, placeholder, answer)
    requires forall k :: 0 <= k < |PagesOf(before)| ==> Unsent(clock, PagesOf(before)[k], placeholder, answer)
    ensures Written(clock, before, placeholder, true).Some?
    ensures var current := Written(clock, before, placeholder, true).value;
      var never := Succeeded(clock, current, placeholder.id, answer);
      && Succeeded(clock, Echoed(clock, current, answer), placeholder.id, answer) == never
      && never.Some? && Echoed(clock, never.value, answer) == never.value
  {
    SentPages(clock, before, placeholder, answer);
    var current := Written(clock, before, placeholder, true).value;
    SuccessIgnoresLaterEcho(clock, current, placeholder.id, answer);
    SuccessIgnoresEarlierEchoIff(clock, current, placeholder.id, answer);
  }

  // A transcript with two pending placeholders of one request: an echo ahead of the response
  // takes the place of the one that the response would have removed, and the other one stays.
  lemma EchoLeavesTwin(clock: Clock, page: Page, first: Entry, twin: Entry, answer: Entry)
    requires Pending(first) && Pending(twin) && first.request == twin.request == answer.request
    requires first.id != twin.id && answer.id !in {first.id, twin.id}
    requires Ready(clock, [first, twin], answer)
    ensures var current := Flat(page.(messages := [first, twin]));
      Succeeded(clock, Echoed(clock, current, answer), first.id, answer) != Succeeded(clock, current, first.id, answer)
  {
    var pages := [page.(messages := [first, twin])];
    assert pages[0].messages[1] == twin && twin in pages[0].messages;
    assert Match(pages[0].messages, answer) == {first.id};
    assert Touches(pages[0], answer) && OtherOnPage(pages[0], answer, first.id);
    assert TakesHome(pages, answer, first.id) && TouchesOther(pages, answer, first.id);
    SuccessIgnoresEarlierEchoIff(clock, Flat(pages[0]), first.id, answer);
  }
}
