// The backend's pattern for mentions (server/internal/util/mention.go), run over serialized
// text: what the composer links, the backend reads back.
module MentionReader {
  import opened Options
  import opened Mentions
  import opened MentionLaws

  // The leftmost matches of `\[@?(.+?)\]\(mention://(member|agent|team|issue|all)/([0-9a-fA-F-]+|all)\)`;
  // every match has this text between its caption and its target.
  const ANCHOR := "](mention://"

  // The five words of the pattern.
  function KindOf(word: string): Option<MentionType> {
    if word == "member" then Some(Member)
    else if word == "agent" then Some(Agent)
    else if word == "team" then Some(Team)
    else if word == "issue" then Some(Issue)
    else if word == "all" then Some(All)
    else None
  }

  predicate IsIdCharacter(c: char) { '0' <= c <= '9' || 'a' <= c <= 'f' || 'A' <= c <= 'F' || c == '-' }

  predicate IsId(id: string) {
    id == "all" || (id != [] && forall i :: 0 <= i < |id| ==> IsIdCharacter(id[i]))
  }

  function UpTo(s: string, c: char): (n: nat)
    ensures n <= |s| && c !in s[..n]
    ensures n < |s| ==> s[n] == c
  {
    if s == [] || s[0] == c then 0 else 1 + UpTo(s[1..], c)
  }

  // The kind and the id behind a caption, and the length of it all.
  datatype Target = Target(kind: MentionType, id: string, size: nat)

  function TargetOf(s: string): Option<Target> {
    var w := UpTo(s, '/');
    if w == |s| || KindOf(s[..w]).None? then None
    else
      var tail := s[w + 1..];
      var e := UpTo(tail, ')');
      if e == |tail| || !IsId(tail[..e]) then None
      else Some(Target(KindOf(s[..w]).value, tail[..e], |ANCHOR| + w + e + 2))
  }

  function Tail(s: string): Option<Target> {
    if ANCHOR <= s then TargetOf(s[|ANCHOR|..]) else None
  }

  // Where the first target of this line begins.
  function Scan(tail: string -> Option<Target>, s: string): (k: Option<nat>)
    ensures k.Some? ==> k.value <= |s| && tail(s[k.value..]).Some?
  {
    if tail(s).Some? then Some(0)
    else if s == [] || s[0] == '\n' then None
    else
      var rest := Scan(tail, s[1..]);
      if rest.None? then None else Some(rest.value + 1)
  }

  // The shortest caption of at least one character.
  function CaptionEnd(tail: string -> Option<Target>, s: string): (k: Option<nat>)
    ensures k.Some? ==> k.value <= |s| && tail(s[k.value..]).Some?
  {
    if s == [] || s[0] == '\n' then None
    else
      var rest := Scan(tail, s[1..]);
      if rest.None? then None else Some(rest.value + 1)
  }

  // `caption` is everything between the bracket and the anchor, a leading `@` included.
  datatype Found = Found(kind: MentionType, id: string, caption: string)

  datatype Match = NoMatch | Match(found: Found, rest: string)

  function MatchedAt(tail: string -> Option<Target>, body: string, k: nat): (m: Match)
    requires k <= |body| && tail(body[k..]).Some?
    ensures m.Match? ==> |m.rest| <= |body|
  {
    var t := tail(body[k..]).value;
    if k + t.size > |body| then NoMatch else Match(Found(t.kind, t.id, body[..k]), body[k + t.size..])
  }

  // A match at the first character: with the optional `@` taken, or else without.
  function MatchAt(tail: string -> Option<Target>, s: string): (m: Match)
    ensures m.Match? ==> |m.rest| < |s|
  {
    if s == [] || s[0] != '[' then NoMatch
    else
      var body := s[1..];
      var skip := if body != [] && body[0] == '@' && CaptionEnd(tail, body[1..]).Some? then 1 else 0;
      var end := CaptionEnd(tail, body[skip..]);
      if end.None? then NoMatch
      else
        assert body[skip..][end.value..] == body[skip + end.value..];
        MatchedAt(tail, body, skip + end.value)
  }

  function FindAll(tail: string -> Option<Target>, s: string): seq<Found>
    decreases |s|
  {
    if s == [] then []
    else
      var m := MatchAt(tail, s);
      if m.Match? then [m.found] + FindAll(tail, m.rest) else FindAll(tail, s[1..])
  }

  // ---------------------------------------------------------------- scanning

  // A part of the line in which no target begins is passed over.
  lemma {:induction false} ScanPasses(tail: string -> Option<Target>, a: string, rest: string)
    requires '\n' !in a && forall i :: 0 <= i < |a| ==> tail((a + rest)[i..]).None?
    ensures Scan(tail, a + rest) == if Scan(tail, rest).None? then None else Some(|a| + Scan(tail, rest).value)
  {
    if a == [] {
      assert a + rest == rest;
    } else {
      var s := a + rest;
      assert s[0..] == s && s[1..] == a[1..] + rest && s[0] == a[0] && a[0] in a;
      forall i | 0 <= i < |a[1..]| ensures tail((a[1..] + rest)[i..]).None? {
        assert (a[1..] + rest)[i..] == s[i + 1..];
      }
      ScanPasses(tail, a[1..], rest);
    }
  }

  // The optional `@` makes no difference to what is matched.
  lemma MatchIsScan(tail: string -> Option<Target>, body: string)
    requires tail(body).None? && (body != [] && body[0] == '@' ==> tail(body[1..]).None?)
    ensures var k := Scan(tail, body);
      MatchAt(tail, ['['] + body) == if k.None? then NoMatch else MatchedAt(tail, body, k.value)
  {
    var s := ['['] + body;
    assert s[1..] == body && body[0..] == body;
    assert Scan(tail, body) == CaptionEnd(tail, body);
    if body != [] && body[0] == '@' {
      assert Scan(tail, body[1..]) == CaptionEnd(tail, body[1..]);
    }
  }

  // A caption with its target: no target begins earlier, and `rest` follows.
  ghost predicate Fits(tail: string -> Option<Target>, caption: string, behind: string, target: Target, rest: string) {
    && caption != [] && '\n' !in caption && caption != "@"
    && tail(behind) == Some(target)
    && target.size <= |behind| && behind[target.size..] == rest
    && forall i :: 0 <= i < |caption| ==> tail((caption + behind)[i..]).None?
  }

  lemma CaptionScans(tail: string -> Option<Target>, caption: string, behind: string, target: Target, rest: string)
    requires Fits(tail, caption, behind, target, rest)
    ensures Scan(tail, caption + behind) == Some(|caption|)
    ensures tail(caption + behind).None?
    ensures MatchedAt(tail, caption + behind, |caption|) == Match(Found(target.kind, target.id, caption), rest)
  {
    var s := caption + behind;
    ScanPasses(tail, caption, behind);
    assert s[0..] == s && s[|caption|..] == behind && s[..|caption|] == caption;
    assert s[|caption| + target.size..] == behind[target.size..];
  }

  lemma CaptionMatches(tail: string -> Option<Target>, caption: string, behind: string, target: Target, rest: string)
    requires Fits(tail, caption, behind, target, rest)
    ensures MatchAt(tail, ['['] + (caption + behind)) == Match(Found(target.kind, target.id, caption), rest)
  {
    CaptionScans(tail, caption, behind, target, rest);
    if caption[0] == '@' { assert |caption| > 1; }
    MatchIsScan(tail, caption + behind);
  }

  // ---------------------------------------------------------------- a whole text

  // The label of a marker: issues go without the `@`.
  function LabelOf(m: Marker): string {
    match m.kind
    case Issue => m.name
    case Member => "@" + m.name
    case Agent => "@" + m.name
    case Team => "@" + m.name
    case All => "@" + m.name
  }

  ghost predicate LinkFits(tail: string -> Option<Target>, m: Marker, rest: string) {
    exists behind, size ::
      && Link(m) + rest == ['['] + (LabelOf(m) + behind)
      && Fits(tail, LabelOf(m), behind, Target(m.kind, m.id, size), rest)
  }

  // Targets begin behind the labels of mentions and nowhere else.
  ghost predicate Plainly(tail: string -> Option<Target>, pieces: seq<Piece>) {
    && tail(Output(pieces)).None?
    && (pieces == []
        || ((pieces[0].Mention? ==> LinkFits(tail, pieces[0].marker, Output(pieces[1..])))
            && Plainly(tail, pieces[1..])))
  }

  // The first mention on the line, and the pieces after it.
  function NextMention(pieces: seq<Piece>): Option<(Marker, seq<Piece>)> {
    if pieces == [] then None
    else
      match pieces[0]
      case Plain(c) => if c == '\n' then None else NextMention(pieces[1..])
      case Stray => NextMention(pieces[1..])
      case Mention(m) => Some((m, pieces[1..]))
  }

  predicate EndsWith(s: string, end: string) { |end| <= |s| && s[|s| - |end|..] == end }

  // A match at this place of the text takes that mention.
  ghost predicate Takes(tail: string -> Option<Target>, s: string, k: nat, m: Marker, after: seq<Piece>) {
    && k <= |s| && tail(s[k..]).Some?
    && var found := MatchedAt(tail, s, k);
       && found.Match? && found.rest == Output(after)
       && found.found.kind == m.kind && found.found.id == m.id && EndsWith(found.found.caption, LabelOf(m))
  }

  // The scan of a text finds its next mention.
  ghost predicate ScanAgrees(tail: string -> Option<Target>, pieces: seq<Piece>) {
    var s, next := Output(pieces), NextMention(pieces);
    && (s != [] && s[0] == '@' ==> tail(s[1..]).None?)
    && (next.None? ==> Scan(tail, s).None?)
    && (next.Some? ==> Scan(tail, s).Some? && Takes(tail, s, Scan(tail, s).value, next.value.0, next.value.1))
  }

  // A match reaches as far when one more character stands before it.
  lemma TakesLonger(tail: string -> Option<Target>, c: char, s: string, k: nat, m: Marker, after: seq<Piece>)
    requires Takes(tail, s, k, m, after)
    ensures Takes(tail, [c] + s, k + 1, m, after)
  {
    var more := [c] + s;
    assert more[k + 1..] == s[k..] && more[..k + 1] == [c] + s[..k];
    var size := tail(s[k..]).value.size;
    assert more[k + 1 + size..] == s[k + size..];
  }

  lemma ScanLink(tail: string -> Option<Target>, m: Marker, rest: seq<Piece>)
    requires LinkFits(tail, m, Output(rest)) && tail(Link(m) + Output(rest)).None?
    ensures var s := Link(m) + Output(rest);
      && s != [] && s[0] == '['
      && Scan(tail, s).Some? && Takes(tail, s, Scan(tail, s).value, m, rest)
      && MatchAt(tail, s) == Match(Found(m.kind, m.id, LabelOf(m)), Output(rest))
  {
    var s, caption, out := Link(m) + Output(rest), LabelOf(m), Output(rest);
    var behind, size :| s == ['['] + (caption + behind) && Fits(tail, caption, behind, Target(m.kind, m.id, size), out);
    CaptionScans(tail, caption, behind, Target(m.kind, m.id, size), out);
    CaptionMatches(tail, caption, behind, Target(m.kind, m.id, size), out);
    assert EndsWith(caption, caption);
    TakesLonger(tail, '[', caption + behind, |caption|, m, rest);
    assert s[1..] == caption + behind;
  }

  lemma ScanNext(tail: string -> Option<Target>, c: char, rest: string)
    requires tail([c] + rest).None?
    ensures Scan(tail, [c] + rest)
         == if c == '\n' || Scan(tail, rest).None? then None else Some(Scan(tail, rest).value + 1)
  {
    assert ([c] + rest)[1..] == rest;
  }

  lemma {:induction false} ScanPieces(tail: string -> Option<Target>, pieces: seq<Piece>)
    requires Plainly(tail, pieces)
    ensures ScanAgrees(tail, pieces)
  {
    if pieces != [] {
      var s, rest := Output(pieces), pieces[1..];
      ScanPieces(tail, rest);
      match pieces[0] {
        case Plain(c) =>
          assert s == [c] + Output(rest) && s[1..] == Output(rest);
          ScanNext(tail, c, Output(rest));
          if c != '\n' && NextMention(rest).Some? {
            var (m, after) := NextMention(rest).value;
            TakesLonger(tail, c, Output(rest), Scan(tail, Output(rest)).value, m, after);
          }
        case Stray => assert s == Output(rest);
        case Mention(m) =>
          assert s == Link(m) + Output(rest);
          ScanLink(tail, m, rest);
      }
    }
  }

  lemma {:induction false} NextMentionIs(tail: string -> Option<Target>, pieces: seq<Piece>)
    requires Plainly(tail, pieces) && NextMention(pieces).Some?
    ensures var (m, after) := NextMention(pieces).value;
      |after| < |pieces| && Plainly(tail, after) && Marks(pieces) == [m] + Marks(after)
  {
    if !pieces[0].Mention? { NextMentionIs(tail, pieces[1..]); }
  }

  // What is found are the markers, in order; each caption ends with the marker's label.
  ghost predicate ReadAs(found: seq<Found>, markers: seq<Marker>) {
    && |found| == |markers|
    && forall i :: 0 <= i < |found| ==>
         && found[i].kind == markers[i].kind && found[i].id == markers[i].id
         && EndsWith(found[i].caption, LabelOf(markers[i]))
  }

  lemma ReadAsCons(first: Found, found: seq<Found>, m: Marker, markers: seq<Marker>)
    requires ReadAs(found, markers)
    requires first.kind == m.kind && first.id == m.id && EndsWith(first.caption, LabelOf(m))
    ensures ReadAs([first] + found, [m] + markers)
  {
  }

  lemma FindMatch(tail: string -> Option<Target>, s: string, found: Found, rest: string)
    requires s != [] && MatchAt(tail, s) == Match(found, rest)
    ensures FindAll(tail, s) == [found] + FindAll(tail, rest)
  {
  }

  lemma FindNone(tail: string -> Option<Target>, c: char, rest: string)
    requires MatchAt(tail, [c] + rest) == NoMatch
    ensures FindAll(tail, [c] + rest) == FindAll(tail, rest)
  {
    assert ([c] + rest)[1..] == rest;
  }

  // A plain bracket takes the next mention of its line as its own.
  lemma BracketMatches(tail: string -> Option<Target>, rest: seq<Piece>)
    requires Plainly(tail, rest)
    ensures var m, next := MatchAt(tail, ['['] + Output(rest)), NextMention(rest);
      if next.None? then m == NoMatch
      else Takes(tail, Output(rest), Scan(tail, Output(rest)).GetOr(0), next.value.0, next.value.1)
           && m == MatchedAt(tail, Output(rest), Scan(tail, Output(rest)).GetOr(0))
  {
    ScanPieces(tail, rest);
    MatchIsScan(tail, Output(rest));
  }

  lemma {:induction false} PlainReads(tail: string -> Option<Target>, c: char, rest: seq<Piece>)
    requires Plainly(tail, rest)
    ensures ReadAs(FindAll(tail, [c] + Output(rest)), Marks(rest))
    decreases |rest|, 1
  {
    if c == '[' { BracketMatches(tail, rest); }
    if c == '[' && NextMention(rest).Some? {
      var (m, after) := NextMention(rest).value;
      var found := MatchAt(tail, ['['] + Output(rest));
      NextMentionIs(tail, rest);
      OutputReads(tail, after);
      FindMatch(tail, ['['] + Output(rest), found.found, Output(after));
      ReadAsCons(found.found, FindAll(tail, Output(after)), m, Marks(after));
    } else {
      FindNone(tail, c, Output(rest));
      OutputReads(tail, rest);
    }
  }

  lemma {:induction false} OutputReads(tail: string -> Option<Target>, pieces: seq<Piece>)
    requires Plainly(tail, pieces)
    ensures ReadAs(FindAll(tail, Output(pieces)), Marks(pieces))
    decreases |pieces|, 0
  {
    if pieces != [] {
      var out, rest := Output(pieces), pieces[1..];
      match pieces[0] {
        case Plain(c) =>
          assert out == [c] + Output(rest);
          PlainReads(tail, c, rest);
        case Stray =>
          OutputReads(tail, rest);
          assert out == Output(rest);
        case Mention(m) =>
          assert out == Link(m) + Output(rest);
          ScanLink(tail, m, rest);
          OutputReads(tail, rest);
          FindMatch(tail, out, Found(m.kind, m.id, LabelOf(m)), Output(rest));
          ReadAsCons(Found(m.kind, m.id, LabelOf(m)), FindAll(tail, Output(rest)), m, Marks(rest));
      }
    }
  }

  // ---------------------------------------------------------------- captions

  ghost predicate NoBracket(pieces: seq<Piece>) {
    forall i :: 0 <= i < |pieces| ==> pieces[i] != Plain('[')
  }

  function Labels(markers: seq<Marker>): seq<string> {
    if markers == [] then [] else [LabelOf(markers[0])] + Labels(markers[1..])
  }

  function Captions(found: seq<Found>): seq<string> {
    if found == [] then [] else [found[0].caption] + Captions(found[1..])
  }

  lemma CaptionsCons(first: Found, found: seq<Found>, m: Marker, markers: seq<Marker>)
    requires first.caption == LabelOf(m) && Captions(found) == Labels(markers)
    ensures Captions([first] + found) == Labels([m] + markers)
  {
    assert ([first] + found)[1..] == found && ([m] + markers)[1..] == markers;
  }

  // Without a plain bracket every caption is exactly the marker's label.
  lemma {:induction false} CaptionsAreLabels(tail: string -> Option<Target>, pieces: seq<Piece>)
    requires Plainly(tail, pieces) && NoBracket(pieces)
    ensures Captions(FindAll(tail, Output(pieces))) == Labels(Marks(pieces))
  {
    if pieces != [] {
      var out, rest := Output(pieces), pieces[1..];
      assert NoBracket(rest) && pieces[0] != Plain('[');
      CaptionsAreLabels(tail, rest);
      match pieces[0] {
        case Plain(c) =>
          assert out == [c] + Output(rest);
          FindNone(tail, c, Output(rest));
        case Stray => assert out == Output(rest);
        case Mention(m) =>
          assert out == Link(m) + Output(rest);
          ScanLink(tail, m, rest);
          FindMatch(tail, out, Found(m.kind, m.id, LabelOf(m)), Output(rest));
          CaptionsCons(Found(m.kind, m.id, LabelOf(m)), FindAll(tail, Output(rest)), m, Marks(rest));
      }
    }
  }

  // ---------------------------------------------------------------- the pattern reads a link

  predicate Contains(s: string, part: string) {
    exists i :: 0 <= i <= |s| && part <= s[i..]
  }

  lemma {:induction false} UpToFirst(a: string, c: char, b: string)
    requires c !in a
    ensures UpTo(a + [c] + b, c) == |a|
  {
    var s := a + [c] + b;
    if a != [] {
      assert s[1..] == a[1..] + [c] + b && s[0] == a[0] && a[0] in a;
      UpToFirst(a[1..], c, b);
    }
  }

  lemma WordReads(kind: MentionType)
    ensures KindOf(TypeName(kind)) == Some(kind) && '/' !in TypeName(kind)
  {
  }

  lemma TargetReads(word: string, kind: MentionType, id: string, rest: string)
    requires KindOf(word) == Some(kind) && '/' !in word && IsId(id)
    ensures TargetOf(word + "/" + id + ")" + rest) == Some(Target(kind, id, |ANCHOR| + |word| + |id| + 2))
  {
    var after := id + ")" + rest;
    var s := word + "/" + id + ")" + rest;
    assert s == word + ['/'] + after && after == id + [')'] + rest;
    assert ')' !in id;
    UpToFirst(word, '/', after);
    UpToFirst(id, ')', rest);
    assert s[..|word|] == word && s[|word| + 1..] == after;
    assert after[..|id|] == id;
  }

  // What follows the label of a link.
  function Behind(m: Marker, rest: string): string {
    ANCHOR + (TypeName(m.kind) + "/" + m.id + ")" + rest)
  }

  lemma BehindReads(m: Marker, rest: string)
    requires IsId(m.id)
    ensures var size := |ANCHOR| + |TypeName(m.kind)| + |m.id| + 2;
      && Tail(Behind(m, rest)) == Some(Target(m.kind, m.id, size))
      && size <= |Behind(m, rest)| && Behind(m, rest)[size..] == rest
  {
    var word := TypeName(m.kind);
    WordReads(m.kind);
    TargetReads(word, m.kind, m.id, rest);
    assert Behind(m, rest)[|ANCHOR|..] == word + "/" + m.id + ")" + rest;
    assert Behind(m, rest) == ANCHOR + (word + "/" + m.id + ")") + rest;
  }

  lemma LinkIs(m: Marker, rest: string)
    ensures Link(m) + rest == ['['] + (LabelOf(m) + Behind(m, rest))
  {
    assert ANCHOR == "](mention://";
  }

  // The anchor does not begin inside a caption that does not contain it.
  lemma NoEarlyAnchor(caption: string, behind: string, anchor: string, i: nat)
    requires !Contains(caption, anchor) && anchor <= behind && i < |caption|
    requires anchor != [] && forall j :: 1 <= j < |anchor| ==> anchor[j] != anchor[0]
    ensures !(anchor <= (caption + behind)[i..])
  {
    var s := caption + behind;
    if i + |anchor| <= |caption| {
      assert !(anchor <= caption[i..]);
      assert s[i..][..|anchor|] == caption[i..][..|anchor|];
    } else {
      var j := |caption| - i;
      assert s[i..][j] == behind[0] == anchor[0] && anchor[j] != anchor[0];
    }
  }

  // The caption does not keep the pattern from reading the link.
  predicate Readable(m: Marker) {
    && IsId(m.id) && LabelOf(m) != "" && LabelOf(m) != "@"
    && '\n' !in LabelOf(m) && !Contains(LabelOf(m), ANCHOR)
  }

  lemma CaptionHasNoTarget(caption: string, behind: string, i: nat)
    requires !Contains(caption, ANCHOR) && ANCHOR <= behind && i < |caption|
    ensures Tail((caption + behind)[i..]).None?
  {
    NoEarlyAnchor(caption, behind, ANCHOR, i);
  }

  lemma BracketHasNoTarget(s: string)
    requires s != [] && s[0] == '['
    ensures Tail(s).None?
  {
    assert ANCHOR[0] == ']';
  }

  lemma ReadableFits(m: Marker, rest: string)
    requires Readable(m)
    ensures LinkFits(Tail, m, rest) && Tail(Link(m) + rest).None?
  {
    var caption, behind := LabelOf(m), Behind(m, rest);
    var size := |ANCHOR| + |TypeName(m.kind)| + |m.id| + 2;
    LinkIs(m, rest);
    BehindReads(m, rest);
    forall i | 0 <= i < |caption| ensures Tail((caption + behind)[i..]).None? {
      CaptionHasNoTarget(caption, behind, i);
    }
    assert Fits(Tail, caption, behind, Target(m.kind, m.id, size), rest);
    BracketHasNoTarget(Link(m) + rest);
  }

  // ---------------------------------------------------------------- serialized text

  lemma ContainsWithin(a: string, s: string, b: string, part: string)
    ensures Contains(s, part) ==> Contains(a + s + b, part)
  {
    if Contains(s, part) {
      var i :| 0 <= i <= |s| && part <= s[i..];
      assert (a + s + b)[|a| + i..] == s[i..] + b;
    }
  }

  lemma StripKeepsPart(name: string, part: string)
    requires SentinelFree(part)
    ensures Contains(name, part) ==> Contains(Strip(name), part)
  {
    if Contains(name, part) {
      var i :| 0 <= i <= |name| && part <= name[i..];
      var a, b := name[..i], name[i..][|part|..];
      assert name == a + part + b;
      StripSplits(a + part, b);
      StripSplits(a, part);
      StripKeeps(part);
      assert Contains(part, part) by { assert part[0..] == part; }
      ContainsWithin(Strip(a), part, Strip(b), part);
    }
  }

  lemma NotLink(pieces: seq<Piece>, part: string)
    requires pieces != [] && part != [] && part[0] != '[' && part <= Output(pieces)
    ensures !pieces[0].Mention?
  {
  }

  // Plain text in front of the first mention is visible as it is.
  lemma {:induction false} PlainIsVisible(pieces: seq<Piece>, part: string)
    requires '[' !in part
    ensures part <= Output(pieces) ==> part <= Visible(pieces)
  {
    if part <= Output(pieces) && part != [] && pieces != [] {
      var rest := pieces[1..];
      assert part[0] in part;
      NotLink(pieces, part);
      if pieces[0].Plain? {
        assert Output(pieces) == [pieces[0].c] + Output(rest);
        assert part[1..] <= Output(rest) && '[' !in part[1..];
        PlainIsVisible(rest, part[1..]);
        assert part == [part[0]] + part[1..];
      } else {
        assert Output(pieces) == Output(rest);
        PlainIsVisible(rest, part);
      }
    }
  }

  predicate Linkable(m: Marker) { IsId(m.id) && LabelOf(m) != "" && LabelOf(m) != "@" }

  lemma MentionIsReadable(m: Marker, rest: string)
    requires SpaceFree(m.name) && Linkable(m) && !Contains("@" + Strip(m.name) + rest, ANCHOR)
    ensures Readable(m)
  {
    ContainsWithin("@", Strip(m.name), rest, ANCHOR);
    StripKeepsPart(m.name, ANCHOR);
    assert forall i :: 0 <= i < |m.name| ==> !IsSpace(m.name[i]);
    CaptionAnchor(m.name);
  }

  lemma CaptionAnchor(name: string)
    ensures Contains("@" + name, ANCHOR) ==> Contains(name, ANCHOR)
  {
    if Contains("@" + name, ANCHOR) {
      var i :| 0 <= i <= |"@" + name| && ANCHOR <= ("@" + name)[i..];
      assert ("@" + name)[0] == '@' && ANCHOR[0] == ']';
      assert i > 0 && ("@" + name)[i..] == name[i - 1..];
    }
  }

  lemma {:induction false} VisibleIsPlain(pieces: seq<Piece>)
    requires Reads(pieces) && !Contains(Visible(pieces), ANCHOR)
    requires forall m :: m in Marks(pieces) ==> Linkable(m)
    ensures Plainly(Tail, pieces)
  {
    PlainIsVisible(pieces, ANCHOR);
    assert Visible(pieces)[0..] == Visible(pieces);
    if pieces != [] {
      var rest := pieces[1..];
      var shown := Visible(pieces)[..|Visible(pieces)| - |Visible(rest)|];
      assert Visible(pieces) == shown + Visible(rest) + [];
      ContainsWithin(shown, Visible(rest), [], ANCHOR);
      VisibleIsPlain(rest);
      if pieces[0].Mention? {
        MentionIsReadable(pieces[0].marker, Visible(rest));
        ReadableFits(pieces[0].marker, Output(rest));
      }
    }
  }

  lemma {:induction false} PlainInSource(pieces: seq<Piece>, i: nat)
    requires i < |pieces| && pieces[i].Plain?
    ensures pieces[i].c in Source(pieces)
  {
    if i > 0 { PlainInSource(pieces[1..], i - 1); }
  }

  // A draft that links is read back by the backend: kind and id of every marker, in order, as
  // long as the writer typed no link target of their own. Captions are the names, with `@` for
  // all but issues; a bracket typed before a mention only makes its caption longer.
  lemma BackendReadsMentions(text: string, markers: seq<Marker>)
    requires LinkText(text, markers).Some? && !Contains(Strip(text), ANCHOR)
    requires forall m :: m in markers ==> Linkable(m)
    ensures ReadAs(FindAll(Tail, Serialize(text, markers)), markers)
    ensures '[' !in text ==> Captions(FindAll(Tail, Serialize(text, markers))) == Labels(markers)
  {
    var pieces := LinkedTextReads(text, markers);
    ReadingLinks(pieces);
    NothingVisibleIsLost(pieces);
    VisibleIsPlain(pieces);
    OutputReads(Tail, pieces);
    if '[' !in text {
      forall i | 0 <= i < |pieces| ensures pieces[i] != Plain('[') {
        if pieces[i].Plain? { PlainInSource(pieces, i); }
      }
      CaptionsAreLabels(Tail, pieces);
    }
  }
}
