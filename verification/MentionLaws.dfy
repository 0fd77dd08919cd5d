// What the composer promises: a text reads in exactly one way, and it is linked when the
// marked runs of that reading are the markers, in order.
module MentionLaws {
  import opened Options
  import opened Mentions

  // Plain characters, stray separators and marked runs.
  datatype Piece = Plain(c: char) | Stray | Mention(marker: Marker)

  // The text the pieces stand for.
  function Source(pieces: seq<Piece>): string {
    if pieces == [] then []
    else
      (match pieces[0]
       case Plain(c) => [c]
       case Stray => [SENTINEL]
       case Mention(marker) => Run(marker)) + Source(pieces[1..])
  }

  function Output(pieces: seq<Piece>): string {
    if pieces == [] then []
    else
      (match pieces[0]
       case Plain(c) => [c]
       case Stray => []
       case Mention(marker) => Link(marker)) + Output(pieces[1..])
  }

  // What the writer sees: separators are invisible.
  function Visible(pieces: seq<Piece>): string {
    if pieces == [] then []
    else
      (match pieces[0]
       case Plain(c) => [c]
       case Stray => []
       case Mention(marker) => "@" + Strip(marker.name)) + Visible(pieces[1..])
  }

  function Marks(pieces: seq<Piece>): seq<Marker> {
    if pieces == [] then []
    else if pieces[0].Mention? then [pieces[0].marker] + Marks(pieces[1..])
    else Marks(pieces[1..])
  }

  // The reading of a text: a run ends at white space or the end of the text, and a separator
  // is stray when no `@` follows.
  predicate Reads(pieces: seq<Piece>) {
    pieces == []
    || (var rest := Source(pieces[1..]);
        && (match pieces[0]
            case Plain(c) => c != SENTINEL
            case Stray => rest == [] || rest[0] != '@'
            case Mention(marker) => SpaceFree(marker.name) && (rest == [] || IsSpace(rest[0])))
        && Reads(pieces[1..]))
  }

  lemma {:induction false} WordStops(word: string, rest: string)
    requires SpaceFree(word) && (rest == [] || IsSpace(rest[0]))
    ensures WordLength(word + rest) == |word|
  {
    if word == [] {
      assert word + rest == rest;
    } else {
      assert (word + rest)[0] == word[0] && (word + rest)[1..] == word[1..] + rest;
      WordStops(word[1..], rest);
    }
  }

  // A text that reads as `pieces` links to their output, one link per marker.
  lemma {:induction false} ReadingLinks(pieces: seq<Piece>)
    requires Reads(pieces)
    ensures LinkText(Source(pieces), Marks(pieces)) == Some(Output(pieces))
  {
    if pieces != [] {
      var text, rest := Source(pieces), Source(pieces[1..]);
      ReadingLinks(pieces[1..]);
      match pieces[0] {
        case Plain(c) => assert text[1..] == rest;
        case Stray =>
          assert text[1..] == rest;
          assert [] + Output(pieces[1..]) == Output(pieces[1..]);
        case Mention(marker) => RunLinks(marker, rest, Marks(pieces[1..]), Output(pieces[1..]));
      }
    }
  }

  lemma RunLinks(marker: Marker, rest: string, markers: seq<Marker>, linked: string)
    requires SpaceFree(marker.name) && (rest == [] || IsSpace(rest[0]))
    requires LinkText(rest, markers) == Some(linked)
    ensures LinkText(Run(marker) + rest, [marker] + markers) == Some(Link(marker) + linked)
  {
    var text := Run(marker) + rest;
    assert text[2..] == marker.name + rest;
    WordStops(marker.name, rest);
    assert text[2..2 + |marker.name|] == marker.name && text[2 + |marker.name|..] == rest;
    assert ([marker] + markers)[1..] == markers;
  }

  lemma CopiedReads(c: char, rest: seq<Piece>)
    requires Reads(rest) && c != SENTINEL
    ensures Reads([Plain(c)] + rest) && Source([Plain(c)] + rest) == [c] + Source(rest)
    ensures Marks([Plain(c)] + rest) == Marks(rest)
  {
    assert ([Plain(c)] + rest)[1..] == rest;
  }

  lemma StrayReads(rest: seq<Piece>)
    requires Reads(rest) && (Source(rest) == [] || Source(rest)[0] != '@')
    ensures Reads([Stray] + rest) && Source([Stray] + rest) == [SENTINEL] + Source(rest)
    ensures Marks([Stray] + rest) == Marks(rest)
  {
    assert ([Stray] + rest)[1..] == rest;
  }

  lemma RunReads(marker: Marker, rest: seq<Piece>)
    requires Reads(rest) && SpaceFree(marker.name) && (Source(rest) == [] || IsSpace(Source(rest)[0]))
    ensures Reads([Mention(marker)] + rest) && Source([Mention(marker)] + rest) == Run(marker) + Source(rest)
    ensures Marks([Mention(marker)] + rest) == [marker] + Marks(rest)
  {
    assert ([Mention(marker)] + rest)[1..] == rest;
  }

  lemma RunSplits(text: string) returns (word: string, tail: string)
    requires |text| > 1 && text[0] == SENTINEL && text[1] == '@'
    ensures text == [SENTINEL] + "@" + word + tail && text[2..] == word + tail
    ensures |word| == WordLength(word + tail)
    ensures SpaceFree(word) && (tail == [] || IsSpace(tail[0]))
  {
    var rest, n := text[2..], WordLength(text[2..]);
    word, tail := rest[..n], rest[n..];
    assert rest == word + tail;
  }

  // The first run of a text that links is its first marker.
  lemma FirstRun(text: string, markers: seq<Marker>) returns (tail: string)
    requires |text| > 1 && text[0] == SENTINEL && text[1] == '@' && LinkText(text, markers).Some?
    ensures |tail| < |text| && markers != [] && LinkText(tail, markers[1..]).Some?
    ensures SpaceFree(markers[0].name) && text == Run(markers[0]) + tail
    ensures tail == [] || IsSpace(tail[0])
  {
    var word;
    word, tail := RunSplits(text);
    RunFirst(text, markers, word, tail);
  }

  // Any other first character of such a text leaves a text that links.
  lemma FirstCharacter(text: string, markers: seq<Marker>)
    requires text != [] && (text[0] != SENTINEL || |text| == 1 || text[1] != '@')
    requires LinkText(text, markers).Some?
    ensures LinkText(text[1..], markers).Some? && text == [text[0]] + text[1..]
  {
  }

  // A text that links has such a reading.
  lemma {:induction false} LinkedTextReads(text: string, markers: seq<Marker>) returns (pieces: seq<Piece>)
    requires LinkText(text, markers).Some?
    ensures Reads(pieces) && Source(pieces) == text && Marks(pieces) == markers
    decreases |text|, 1
  {
    if text == [] { return []; }
    if text[0] == SENTINEL && |text| > 1 && text[1] == '@' {
      pieces := LinkedRunReads(text, markers);
    } else {
      FirstCharacter(text, markers);
      var rest := LinkedTextReads(text[1..], markers);
      if text[0] == SENTINEL {
        StrayReads(rest);
        pieces := [Stray] + rest;
      } else {
        CopiedReads(text[0], rest);
        pieces := [Plain(text[0])] + rest;
      }
    }
  }

  lemma {:induction false} LinkedRunReads(text: string, markers: seq<Marker>) returns (pieces: seq<Piece>)
    requires |text| > 1 && text[0] == SENTINEL && text[1] == '@' && LinkText(text, markers).Some?
    ensures Reads(pieces) && Source(pieces) == text && Marks(pieces) == markers
    decreases |text|, 0
  {
    var tail := FirstRun(text, markers);
    var rest := LinkedTextReads(tail, markers[1..]);
    RunReads(markers[0], rest);
    pieces := [Mention(markers[0])] + rest;
    assert markers == [markers[0]] + markers[1..];
  }

  ghost predicate Pairs(pieces: seq<Piece>, text: string, markers: seq<Marker>) {
    Reads(pieces) && Source(pieces) == text && Marks(pieces) == markers
  }

  // The serializer links a text exactly when it reads as runs that are the markers in order;
  // the result is then the same pieces with each run replaced by its link. In every other
  // case the result is the text without its separators.
  lemma SerializeLinksExactlyPairs(text: string, markers: seq<Marker>)
    ensures (exists pieces :: Pairs(pieces, text, markers)) <==> LinkText(text, markers).Some?
    ensures forall pieces :: Pairs(pieces, text, markers) ==> Serialize(text, markers) == Output(pieces)
    ensures (forall pieces :: !Pairs(pieces, text, markers)) ==> Serialize(text, markers) == Strip(text)
  {
    forall pieces | Pairs(pieces, text, markers) ensures LinkText(text, markers) == Some(Output(pieces)) {
      ReadingLinks(pieces);
    }
    if LinkText(text, markers).Some? {
      var pieces := LinkedTextReads(text, markers);
      assert Pairs(pieces, text, markers);
    }
  }

  lemma {:induction false} StripSplits(a: string, b: string)
    ensures Strip(a + b) == Strip(a) + Strip(b)
  {
    if a == [] {
      assert a + b == b;
    } else {
      assert (a + b)[0] == a[0] && (a + b)[1..] == a[1..] + b;
      StripSplits(a[1..], b);
    }
  }

  // Whichever way it goes, what the writer saw is there: the fallback returns it, and the
  // linked text is it with `@name` replaced by the link at each run.
  lemma {:induction false} NothingVisibleIsLost(pieces: seq<Piece>)
    requires Reads(pieces)
    ensures Strip(Source(pieces)) == Visible(pieces)
  {
    if pieces != [] {
      var rest := Source(pieces[1..]);
      NothingVisibleIsLost(pieces[1..]);
      match pieces[0] {
        case Plain(c) => assert Source(pieces)[1..] == rest;
        case Stray => assert Source(pieces)[1..] == rest;
        case Mention(marker) =>
          StripSplits(Run(marker), rest);
          StripRun(marker);
      }
    }
  }

  lemma StripRun(marker: Marker)
    ensures Strip(Run(marker)) == "@" + Strip(marker.name)
  {
    assert Run(marker)[1..] == "@" + marker.name;
    assert ("@" + marker.name)[1..] == marker.name;
  }

  // ---------------------------------------------------------------- separators never leak

  lemma LinkSentinelFree(marker: Marker)
    requires SentinelFree(marker.name) && SentinelFree(marker.id)
    ensures SentinelFree(Link(marker))
  {
    assert SentinelFree(TypeName(marker.kind)) by {
      match marker.kind { case Member => case Agent => case Team => case All => case Issue => }
    }
    assert SentinelFree("[") && SentinelFree("@") && SentinelFree("](mention://") && SentinelFree("/") && SentinelFree(")");
  }

  lemma {:induction false} LinkTextSentinelFree(text: string, markers: seq<Marker>)
    requires forall m :: m in markers ==> SentinelFree(m.name) && SentinelFree(m.id)
    ensures LinkText(text, markers).Some? ==> SentinelFree(LinkText(text, markers).value)
    decreases |text|
  {
    if text != [] {
      if text[0] != SENTINEL || |text| == 1 || text[1] != '@' {
        LinkTextSentinelFree(text[1..], markers);
      } else if markers != [] {
        assert markers[0] in markers;
        LinkTextSentinelFree(text[2 + WordLength(text[2..])..], markers[1..]);
        LinkSentinelFree(markers[0]);
      }
    }
  }

  lemma SerializedTextIsClean(text: string, markers: seq<Marker>)
    requires forall m :: m in markers ==> SentinelFree(m.name) && SentinelFree(m.id)
    ensures SentinelFree(Serialize(text, markers))
  {
    LinkTextSentinelFree(text, markers);
  }

  // ---------------------------------------------------------------- composing from left to right

  // A plain stretch followed by an inserted mention and its space.
  datatype Part = Part(plain: string, marker: Marker)

  function Composed(parts: seq<Part>, tail: string): string {
    if parts == [] then tail
    else parts[0].plain + (Run(parts[0].marker) + (" " + Composed(parts[1..], tail)))
  }

  function Linked(parts: seq<Part>, tail: string): string {
    if parts == [] then tail
    else parts[0].plain + (Link(parts[0].marker) + (" " + Linked(parts[1..], tail)))
  }

  function Markers(parts: seq<Part>): seq<Marker> {
    if parts == [] then [] else [parts[0].marker] + Markers(parts[1..])
  }

  ghost predicate PlainParts(parts: seq<Part>, tail: string) {
    SentinelFree(tail) && forall i :: 0 <= i < |parts| ==> SentinelFree(parts[i].plain)
  }

  ghost predicate SolidNames(parts: seq<Part>) {
    forall i :: 0 <= i < |parts| ==> SpaceFree(parts[i].marker.name)
  }

  lemma {:induction false} WordBreaks(name: string, rest: string)
    requires !SpaceFree(name)
    ensures WordLength(name + rest) < |name|
  {
    assert (name + rest)[0] == name[0] && (name + rest)[1..] == name[1..] + rest;
    if !IsSpace(name[0]) {
      assert !SpaceFree(name[1..]) by {
        var i :| 0 <= i < |name| && IsSpace(name[i]);
        assert name[1..][i - 1] == name[i];
      }
      WordBreaks(name[1..], rest);
    }
  }

  lemma RunFails(marker: Marker, rest: string, markers: seq<Marker>)
    requires !SpaceFree(marker.name)
    ensures LinkText(Run(marker) + rest, [marker] + markers) == None
  {
    var text := Run(marker) + rest;
    assert text[2..] == marker.name + rest;
    WordBreaks(marker.name, rest);
  }

  lemma SpaceCopies(rest: string, markers: seq<Marker>)
    ensures LinkText(" " + rest, markers) == Prefixed(" ", LinkText(rest, markers))
  {
    LinkTextCopies(" ", rest, markers);
  }

  // Text composed from the suggestion bar serializes to the same text with one link in place
  // of each run, exactly when no inserted name contains white space.
  lemma {:induction false} ComposedTextLinks(parts: seq<Part>, tail: string)
    requires PlainParts(parts, tail)
    ensures LinkText(Composed(parts, tail), Markers(parts))
         == if SolidNames(parts) then Some(Linked(parts, tail)) else None
  {
    if parts == [] {
      LinkTextCopies(tail, [], []);
      assert tail + [] == tail;
    } else {
      var first, rest := parts[0], Composed(parts[1..], tail);
      var after := " " + rest;
      ComposedTextLinks(parts[1..], tail);
      LinkTextCopies(first.plain, Run(first.marker) + after, Markers(parts));
      SpaceCopies(rest, Markers(parts[1..]));
      if SpaceFree(first.marker.name) {
        if SolidNames(parts[1..]) {
          RunLinks(first.marker, after, Markers(parts[1..]), " " + Linked(parts[1..], tail));
          assert SolidNames(parts) by {
            forall i | 0 <= i < |parts| ensures SpaceFree(parts[i].marker.name) {
              if i > 0 { assert parts[i] == parts[1..][i - 1]; }
            }
          }
        } else {
          RunPassesFailure(first.marker, after, Markers(parts[1..]));
        }
      } else {
        RunFails(first.marker, after, Markers(parts[1..]));
      }
    }
  }

  lemma RunPassesFailure(marker: Marker, rest: string, markers: seq<Marker>)
    requires SpaceFree(marker.name) && rest != [] && IsSpace(rest[0]) && LinkText(rest, markers) == None
    ensures LinkText(Run(marker) + rest, [marker] + markers) == None
  {
    var text := Run(marker) + rest;
    assert text[2..] == marker.name + rest;
    WordStops(marker.name, rest);
    assert text[2 + |marker.name|..] == rest;
    assert ([marker] + markers)[1..] == markers;
  }

  lemma RoundTrip(parts: seq<Part>, tail: string)
    requires PlainParts(parts, tail)
    ensures Serialize(Composed(parts, tail), Markers(parts))
         == if SolidNames(parts) then Linked(parts, tail) else Strip(Composed(parts, tail))
  {
    ComposedTextLinks(parts, tail);
  }

  // ---------------------------------------------------------------- editing sessions

  // The composer's text, its ordered markers, and the cursor after the last insertion.
  datatype Draft = Draft(text: string, markers: seq<Marker>, done: nat)

  datatype Edit =
    | Type(tail: string)                                    // rewrite what follows the last mention
    | Insert(start: nat, queryLength: nat, mention: Marker) // accept a suggestion there

  ghost predicate Valid(draft: Draft, edit: Edit) {
    match edit
    case Type(tail) => draft.done <= |draft.text| && SentinelFree(tail)
    case Insert(start, _, _) => draft.done <= start <= |draft.text|
  }

  function Apply(draft: Draft, edit: Edit): Draft
    requires Valid(draft, edit)
  {
    match edit
    case Type(tail) => draft.(text := draft.text[..draft.done] + tail)
    case Insert(start, queryLength, mention) =>
      var inserted := InsertMention(draft.text, start, queryLength, mention);
      Draft(inserted.newText, draft.markers + [inserted.marker], inserted.cursor)
  }

  ghost predicate IsSession(drafts: seq<Draft>, edits: seq<Edit>) {
    && |drafts| == |edits| + 1 && drafts[0] == Draft([], [], 0)
    && forall i {:trigger edits[i]} :: 0 <= i < |edits| ==> Valid(drafts[i], edits[i]) && drafts[i + 1] == Apply(drafts[i], edits[i])
  }

  ghost predicate Composes(draft: Draft, parts: seq<Part>, tail: string) {
    && PlainParts(parts, tail)
    && draft.text == Composed(parts, tail) && draft.markers == Markers(parts)
    && draft.done == |Composed(parts, [])|
  }

  lemma {:induction false} ComposedSplits(parts: seq<Part>, tail: string)
    ensures Composed(parts, tail) == Composed(parts, []) + tail
  {
    if parts == [] {
      assert [] + tail == tail;
    } else {
      ComposedSplits(parts[1..], tail);
      var a, b := parts[0].plain, Run(parts[0].marker);
      var rest := Composed(parts[1..], []);
      assert a + (b + (" " + (rest + tail))) == (a + (b + (" " + rest))) + tail;
    }
  }

  lemma {:induction false} ComposedGrows(parts: seq<Part>, last: Part, tail: string)
    ensures Composed(parts + [last], tail)
         == Composed(parts, last.plain + (Run(last.marker) + (" " + tail)))
    ensures Markers(parts + [last]) == Markers(parts) + [last.marker]
  {
    var all := parts + [last];
    if parts == [] {
      assert all == [last] && [last][1..] == [];
    } else {
      assert all[0] == parts[0] && all[1..] == parts[1..] + [last];
      ComposedGrows(parts[1..], last, tail);
    }
  }

  lemma PlainPartsGrow(parts: seq<Part>, last: Part, tail: string, left: string)
    requires PlainParts(parts, tail) && SentinelFree(last.plain) && SentinelFree(left)
    ensures PlainParts(parts + [last], left)
  {
  }

  lemma InsertComposes(draft: Draft, parts: seq<Part>, tail: string, start: nat, queryLength: nat, mention: Marker)
    returns (part: Part, left: string)
    requires Composes(draft, parts, tail) && Valid(draft, Insert(start, queryLength, mention))
    ensures Composes(Apply(draft, Insert(start, queryLength, mention)), parts + [part], left)
  {
    ComposedSplits(parts, tail);
    var at: nat := start - draft.done;
    part, left := Part(tail[..at], mention), Slice(tail, at + 1 + queryLength);
    SliceSentinelFree(tail, at, at + 1 + queryLength);
    PlainPartsGrow(parts, part, tail, left);
    MarkersGrow(parts, part);
    InsertedText(parts, tail, at, queryLength, mention);
  }

  lemma MarkersGrow(parts: seq<Part>, last: Part)
    ensures Markers(parts + [last]) == Markers(parts) + [last.marker]
  {
    ComposedGrows(parts, last, []);
  }

  lemma InsertedText(parts: seq<Part>, tail: string, at: nat, queryLength: nat, mention: Marker)
    requires at <= |tail|
    ensures var part, left := Part(tail[..at], mention), Slice(tail, at + 1 + queryLength);
      var inserted := InsertMention(Composed(parts, tail), |Composed(parts, [])| + at, queryLength, mention);
      && inserted.newText == Composed(parts + [part], left)
      && inserted.cursor == |Composed(parts + [part], [])|
      && inserted.marker == mention
  {
    var part, left := Part(tail[..at], mention), Slice(tail, at + 1 + queryLength);
    ComposedSplits(parts, tail);
    InsertIntoTail(Composed(parts, []), tail, at, queryLength, mention);
    ComposedAppends(parts, part, left);
    ComposedAppends(parts, part, []);
    var head := Composed(parts, []) + part.plain + (Run(part.marker) + " ");
    assert head + [] == head;
  }

  lemma ComposedAppends(parts: seq<Part>, last: Part, tail: string)
    ensures Composed(parts + [last], tail)
         == Composed(parts, []) + last.plain + (Run(last.marker) + " ") + tail
  {
    var inner := last.plain + (Run(last.marker) + (" " + tail));
    ComposedGrows(parts, last, tail);
    ComposedSplits(parts, inner);
    assert inner == last.plain + (Run(last.marker) + " ") + tail;
  }

  lemma InsertIntoTail(head: string, tail: string, at: nat, queryLength: nat, mention: Marker)
    requires at <= |tail|
    ensures var inserted := InsertMention(head + tail, |head| + at, queryLength, mention);
      && inserted.newText == head + tail[..at] + (Run(mention) + " ") + Slice(tail, at + 1 + queryLength)
      && inserted.cursor == |head + tail[..at] + (Run(mention) + " ")|
      && inserted.marker == mention
  {
    var text := head + tail;
    assert text[..|head| + at] == head + tail[..at];
    assert Slice(text, |head| + at + 1 + queryLength) == Slice(tail, at + 1 + queryLength);
  }

  lemma SliceSentinelFree(tail: string, at: nat, from: nat)
    requires SentinelFree(tail) && at <= |tail|
    ensures SentinelFree(tail[..at]) && SentinelFree(Slice(tail, from))
  {
  }

  lemma TypeComposes(draft: Draft, parts: seq<Part>, tail: string, edit: Edit)
    requires Composes(draft, parts, tail) && edit.Type? && Valid(draft, edit)
    ensures Composes(Apply(draft, edit), parts, edit.tail)
  {
    ComposedSplits(parts, tail);
    ComposedSplits(parts, edit.tail);
    assert draft.text[..draft.done] == Composed(parts, []);
  }

  lemma {:induction false} SessionComposes(drafts: seq<Draft>, edits: seq<Edit>, i: nat)
    returns (parts: seq<Part>, tail: string)
    requires IsSession(drafts, edits) && i < |drafts|
    ensures Composes(drafts[i], parts, tail)
  {
    if i == 0 {
      parts, tail := [], [];
    } else {
      parts, tail := SessionComposes(drafts, edits, i - 1);
      var draft, edit := drafts[i - 1], edits[i - 1];
      if edit.Type? {
        TypeComposes(draft, parts, tail, edit);
        tail := edit.tail;
      } else {
        var part, left := InsertComposes(draft, parts, tail, edit.start, edit.queryLength, edit.mention);
        parts, tail := parts + [part], left;
      }
    }
  }

  lemma {:induction false} MarkersNames(parts: seq<Part>)
    ensures |Markers(parts)| == |parts|
    ensures SolidNames(parts) <==> forall m :: m in Markers(parts) ==> SpaceFree(m.name)
  {
    if parts != [] {
      MarkersNames(parts[1..]);
      assert parts == [parts[0]] + parts[1..];
    }
  }

  // After any session the draft links, with every marker used, exactly when no accepted name
  // contains white space; a single such name turns every mention of the draft into plain text.
  lemma SessionLinks(drafts: seq<Draft>, edits: seq<Edit>, i: nat)
    requires IsSession(drafts, edits) && i < |drafts|
    ensures var draft := drafts[i];
      LinkText(draft.text, draft.markers).Some? <==> forall m :: m in draft.markers ==> SpaceFree(m.name)
  {
    var parts, tail := SessionComposes(drafts, edits, i);
    ComposedTextLinks(parts, tail);
    MarkersNames(parts);
  }

  // Typing a query and accepting a suggestion whose name has a space.
  function SpacedEdits(mention: Marker): seq<Edit> { [Type("@ad"), Insert(0, 2, mention)] }

  function SpacedDrafts(mention: Marker): seq<Draft> {
    [Draft([], [], 0), Draft("@ad", [], 0),
     Draft(Run(mention) + " ", [mention], |Run(mention) + " "|)]
  }

  lemma SpacedNameIsNotLinked(mention: Marker)
    requires mention.name == "Ada L"
    ensures IsSession(SpacedDrafts(mention), SpacedEdits(mention))
    ensures LinkText(SpacedDrafts(mention)[2].text, [mention]) == None
  {
    var drafts, edits := SpacedDrafts(mention), SpacedEdits(mention);
    assert drafts[1] == Apply(drafts[0], edits[0]) by { assert drafts[0].text[..0] + "@ad" == "@ad"; }
    var inserted := InsertMention("@ad", 0, 2, mention);
    assert inserted.newText == Run(mention) + " " by { assert Slice("@ad", 3) == []; assert "@ad"[..0] == []; }
    assert [] + [mention] == [mention];
    assert !SpaceFree(mention.name) by { assert mention.name[3] == ' '; }
    assert mention in drafts[2].markers;
    SessionLinks(drafts, edits, 2);
  }

  // The suggestion bar never reaches back: a token found with the cursor after the last
  // mention starts after it, so accepting the suggestion is a valid edit.
  lemma TokenIsAfterLastMention(drafts: seq<Draft>, edits: seq<Edit>, i: nat, cursor: nat, start: nat, mention: Marker)
    requires IsSession(drafts, edits) && i < |drafts|
    requires drafts[i].done <= cursor && IsToken(drafts[i].text, cursor, start)
    ensures Valid(drafts[i], Insert(start, cursor - start - 1, mention))
  {
    var parts, tail := SessionComposes(drafts, edits, i);
    ComposedSplits(parts, tail);
    if parts != [] {
      EndsWithSpace(parts);
      var last: nat := drafts[i].done - 1;
      assert drafts[i].text[last] == ' ' && IsSpace(drafts[i].text[last]);
    }
  }

  lemma {:induction false} EndsWithSpace(parts: seq<Part>)
    requires parts != []
    ensures var head := Composed(parts, []); head != [] && head[|head| - 1] == ' '
  {
    if |parts| > 1 { EndsWithSpace(parts[1..]); }
  }
}
