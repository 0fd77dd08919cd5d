// The mention composer of the mobile client (apps/mobile/lib/mention-serialize.ts). A mention
// inserted from the suggestion bar is marked in the text by an invisible separator; on send
// the marked runs are paired, in order, with the list of markers and become links.
module Mentions {
  import opened Options

  const SENTINEL: char := '\U{2063}'

  datatype MentionType = Member | Agent | Team | All | Issue

  datatype Marker = Marker(kind: MentionType, id: string, name: string)

  // The class \s of regular expressions.
  predicate IsSpace(c: char) {
    c in {'\t', '\n', '\U{0B}', '\U{0C}', '\r', ' ', '\U{A0}', '\U{1680}', '\U{2028}', '\U{2029}', '\U{202F}',
          '\U{205F}', '\U{3000}', '\U{FEFF}'}
    || '\U{2000}' <= c <= '\U{200A}'
  }

  predicate SpaceFree(s: string) { forall i :: 0 <= i < |s| ==> !IsSpace(s[i]) }

  predicate SentinelFree(s: string) { SENTINEL !in s }

  function TypeName(kind: MentionType): string {
    match kind
    case Member => "member"
    case Agent => "agent"
    case Team => "team"
    case All => "all"
    case Issue => "issue"
  }

  // Issues render without the leading `@`.
  function Link(marker: Marker): string {
    "[" + (if marker.kind == Issue then marker.name else "@" + marker.name) + "](mention://"
    + TypeName(marker.kind) + "/" + marker.id + ")"
  }

  // ---------------------------------------------------------------- the token at the cursor

  datatype Token = Token(start: nat, query: string)

  // `start` is the `@` of an unfinished run that ends at the cursor.
  ghost predicate IsToken(text: string, cursor: int, start: nat) {
    && 1 <= cursor <= |text| && start < cursor && text[start] == '@'
    && (forall j :: start < j < cursor ==> text[j] != '@' && !IsSpace(text[j]))
    && (start == 0 || IsSpace(text[start - 1]))
  }

  lemma TokenIsUnique(text: string, cursor: int, a: nat, b: nat)
    requires IsToken(text, cursor, a) && IsToken(text, cursor, b)
    ensures a == b
  {
  }

  method TokenAtCursor(text: string, cursor: int) returns (token: Option<Token>)
    ensures token.Some? ==>
      IsToken(text, cursor, token.value.start) && token.value.query == text[token.value.start + 1..cursor]
    ensures token.Some? ==> forall start: nat :: IsToken(text, cursor, start) ==> start == token.value.start
    ensures token.None? ==> forall start: nat :: !IsToken(text, cursor, start)
  {
    if cursor < 1 || cursor > |text| { return None; }
    var i := cursor - 1;
    while i >= 0
      invariant -1 <= i < cursor
      invariant forall j :: i < j < cursor ==> text[j] != '@' && !IsSpace(text[j])
    {
      if text[i] == '@' { break; }
      if IsSpace(text[i]) { return None; }
      i := i - 1;
    }
    if i < 0 { return None; }
    if i > 0 && text[i - 1] == SENTINEL { return None; }
    if i > 0 && !IsSpace(text[i - 1]) { return None; }
    var query := text[i + 1..cursor];
    forall start: nat | IsToken(text, cursor, start) ensures start == i { TokenIsUnique(text, cursor, start, i); }
    return Some(Token(i, query));
  }

  // ---------------------------------------------------------------- inserting a mention

  function Slice(text: string, from: nat): string {
    if from <= |text| then text[from..] else []
  }

  function Run(marker: Marker): string { [SENTINEL] + "@" + marker.name }

  datatype Inserted = Inserted(newText: string, cursor: nat, marker: Marker)

  function InsertMention(text: string, start: nat, queryLength: nat, mention: Marker): Inserted {
    var before := if start <= |text| then text[..start] else text;
    var after := Slice(text, start + 1 + queryLength);
    var insert := Run(mention) + " ";
    Inserted(before + insert + after, |before| + |insert|, mention)
  }

  // ---------------------------------------------------------------- serializing

  function Strip(text: string): (r: string)
    ensures SentinelFree(r)
  {
    if text == [] then []
    else if text[0] == SENTINEL then Strip(text[1..])
    else [text[0]] + Strip(text[1..])
  }

  function WordLength(text: string): (n: nat)
    ensures n <= |text|
    ensures forall i :: 0 <= i < n ==> !IsSpace(text[i])
    ensures n < |text| ==> IsSpace(text[n])
  {
    if text == [] || IsSpace(text[0]) then 0 else 1 + WordLength(text[1..])
  }

  function Prefixed(prefix: string, rest: Option<string>): Option<string> {
    if rest.None? then None else Some(prefix + rest.value)
  }

  // The linked text, or None when the runs and the markers do not pair up.
  function LinkText(text: string, markers: seq<Marker>): Option<string>
    decreases |text|
  {
    if text == [] then if markers == [] then Some([]) else None
    else if text[0] != SENTINEL then Prefixed([text[0]], LinkText(text[1..], markers))
    else if |text| == 1 || text[1] != '@' then LinkText(text[1..], markers)
    else
      var length := WordLength(text[2..]);
      if markers == [] || markers[0].name != text[2..2 + length] then None
      else Prefixed(Link(markers[0]), LinkText(text[2 + length..], markers[1..]))
  }

  function Serialize(text: string, markers: seq<Marker>): string {
    match LinkText(text, markers)
    case Some(linked) => linked
    case None => Strip(text)
  }

  lemma {:induction false} StripKeeps(text: string)
    requires SentinelFree(text)
    ensures Strip(text) == text
  {
    if text != [] {
      assert text == [text[0]] + text[1..];
      StripKeeps(text[1..]);
    }
  }

  // Text without a sentinel is copied.
  lemma {:induction false} LinkTextCopies(plain: string, rest: string, markers: seq<Marker>)
    requires SentinelFree(plain)
    ensures LinkText(plain + rest, markers) == Prefixed(plain, LinkText(rest, markers))
  {
    if plain == [] {
      assert plain + rest == rest;
      if LinkText(rest, markers).Some? { assert [] + LinkText(rest, markers).value == LinkText(rest, markers).value; }
    } else {
      assert (plain + rest)[0] == plain[0] && (plain + rest)[1..] == plain[1..] + rest;
      assert plain == [plain[0]] + plain[1..];
      LinkTextCopies(plain[1..], rest, markers);
      PrefixedTwice([plain[0]], plain[1..], LinkText(rest, markers));
    }
  }

  lemma PrefixedTwice(a: string, b: string, rest: Option<string>)
    ensures Prefixed(a, Prefixed(b, rest)) == Prefixed(a + b, rest)
  {
    if rest.Some? { assert a + (b + rest.value) == (a + b) + rest.value; }
  }

  // indexOf: the first sentinel at or after `from`, or the end of the text.
  method IndexOfSentinel(text: string, from: nat) returns (at: nat)
    requires from <= |text|
    ensures from <= at <= |text|
    ensures SentinelFree(text[from..at])
    ensures at < |text| ==> text[at] == SENTINEL
  {
    at := from;
    while at < |text| && text[at] != SENTINEL
      invariant from <= at <= |text|
      invariant SentinelFree(text[from..at])
    {
      at := at + 1;
    }
  }

  // The rest of the text up to the next sentinel is copied.
  lemma CopyTurn(text: string, out: string, cursor: nat, at: nat, left: seq<Marker>)
    requires cursor <= at <= |text| && SentinelFree(text[cursor..at])
    ensures Prefixed(out, LinkText(text[cursor..], left))
         == Prefixed(out + text[cursor..at], LinkText(text[at..], left))
  {
    assert text[cursor..] == text[cursor..at] + text[at..];
    LinkTextCopies(text[cursor..at], text[at..], left);
    PrefixedTwice(out, text[cursor..at], LinkText(text[at..], left));
  }

  // What follows a sentinel: the word of the run and the rest of the text.
  lemma RunFirst(rest: string, left: seq<Marker>, word: string, tail: string)
    requires |rest| > 1 && rest[0] == SENTINEL && rest[1] == '@' && rest[2..] == word + tail
    requires |word| == WordLength(word + tail)
    ensures LinkText(rest, left) ==
      if left == [] || left[0].name != word then None
      else Prefixed(Link(left[0]), LinkText(tail, left[1..]))
  {
    assert rest[2..2 + |word|] == (word + tail)[..|word|] == word;
    assert rest[2 + |word|..] == (word + tail)[|word|..] == tail;
  }

  lemma StrayTurn(text: string, at: nat, left: seq<Marker>)
    requires at < |text| && text[at] == SENTINEL && (at + 1 == |text| || text[at + 1] != '@')
    ensures LinkText(text[at..], left) == LinkText(text[at + 1..], left)
  {
    assert text[at..][1..] == text[at + 1..];
  }

  lemma RestOfText(text: string, at: nat, end: nat)
    requires at + 2 <= end <= |text|
    ensures text[at..][2..] == text[at + 2..] == text[at + 2..end] + text[end..]
  {
  }

  lemma MarkedTurn(text: string, at: nat, left: seq<Marker>)
    requires at + 1 < |text| && text[at] == SENTINEL && text[at + 1] == '@'
    ensures var end := at + 2 + WordLength(text[at + 2..]);
      LinkText(text[at..], left) ==
        if left == [] || left[0].name != text[at + 2..end] then None
        else Prefixed(Link(left[0]), LinkText(text[end..], left[1..]))
  {
    var end := at + 2 + WordLength(text[at + 2..]);
    RestOfText(text, at, end);
    RunFirst(text[at..], left, text[at + 2..end], text[end..]);
  }

  // What the walk still has to produce from `cursor` on, after the output so far.
  ghost function Remaining(out: string, text: string, cursor: nat, markers: seq<Marker>, index: nat): Option<string>
    requires cursor <= |text| && index <= |markers|
  {
    Prefixed(out, LinkText(text[cursor..], markers[index..]))
  }

  // Linking a run consumes its marker.
  lemma Consumed(out: string, rest: string, markers: seq<Marker>, index: nat)
    requires index < |markers|
    ensures Prefixed(out, Prefixed(Link(markers[index]), LinkText(rest, markers[index..][1..])))
         == Prefixed(out + Link(markers[index]), LinkText(rest, markers[index + 1..]))
  {
    assert markers[index..][1..] == markers[index + 1..];
    PrefixedTwice(out, Link(markers[index]), LinkText(rest, markers[index + 1..]));
  }

  lemma LinkTurn(text: string, at: nat, out: string, markers: seq<Marker>, index: nat)
    requires at + 1 < |text| && text[at] == SENTINEL && text[at + 1] == '@' && index <= |markers|
    ensures var end := at + 2 + WordLength(text[at + 2..]);
      Remaining(out, text, at, markers, index) ==
        if index == |markers| || markers[index].name != text[at + 2..end] then None
        else Remaining(out + Link(markers[index]), text, end, markers, index + 1)
  {
    MarkedTurn(text, at, markers[index..]);
    if index < |markers| {
      assert markers[index..][0] == markers[index];
      Consumed(out, text[at + 2 + WordLength(text[at + 2..])..], markers, index);
    }
  }

  // The turn from a sentinel at `at`: a stray one is dropped, a marked run becomes a link.
  method SentinelTurn(text: string, at: nat, markers: seq<Marker>, index: nat, out: string)
    returns (out': string, cursor': nat, index': nat, abort: bool)
    requires at < |text| && text[at] == SENTINEL && index <= |markers|
    ensures at < cursor' <= |text| && index <= index' <= |markers|
    ensures Remaining(out, text, at, markers, index)
         == if abort then None else Remaining(out', text, cursor', markers, index')
  {
    out', index', abort := out, index, false;
    if at + 1 == |text| || text[at + 1] != '@' {
      StrayTurn(text, at, markers[index..]);
      cursor' := at + 1;
      return;
    }
    LinkTurn(text, at, out, markers, index);
    cursor' := WordEnd(text, at + 2);
    if index == |markers| || markers[index].name != text[at + 2..cursor'] {
      abort := true;
      return;
    }
    out' := out + Link(markers[index]);
    index' := index + 1;
  }

  // One turn of the loop.
  method Turn(text: string, cursor: nat, markers: seq<Marker>, index: nat, out: string)
    returns (out': string, cursor': nat, index': nat, abort: bool)
    requires cursor < |text| && index <= |markers|
    ensures cursor < cursor' <= |text| && index <= index' <= |markers|
    ensures Remaining(out, text, cursor, markers, index)
         == if abort then None else Remaining(out', text, cursor', markers, index')
  {
    var at := IndexOfSentinel(text, cursor);
    CopyTurn(text, out, cursor, at, markers[index..]);
    out' := out + text[cursor..at];
    if at == |text| {
      cursor', index', abort := |text|, index, false;
    } else {
      out', cursor', index', abort := SentinelTurn(text, at, markers, index, out');
    }
  }

  method SerializeMentions(text: string, markers: seq<Marker>) returns (result: string)
    ensures result == Serialize(text, markers)
  {
    if SENTINEL !in text {
      StripKeeps(text);
      LinkTextCopies(text, [], markers);
      assert text + [] == text;
      return text;
    }
    var out: string := [];
    var cursor := 0;
    var markerIndex := 0;
    var abort := false;
    assert text[0..] == text && markers[0..] == markers;
    PrefixedNothing(LinkText(text, markers));
    while cursor < |text| && !abort
      invariant 0 <= cursor <= |text| && 0 <= markerIndex <= |markers|
      invariant !abort ==> Remaining(out, text, cursor, markers, markerIndex) == LinkText(text, markers)
      invariant abort ==> LinkText(text, markers) == None
      decreases |text| - cursor
    {
      out, cursor, markerIndex, abort := Turn(text, cursor, markers, markerIndex, out);
    }
    if !abort { WalkEnds(out, text, markers, markerIndex); }
    if abort || markerIndex != |markers| {
      return Strip(text);
    }
    return out;
  }

  lemma WalkEnds(out: string, text: string, markers: seq<Marker>, index: nat)
    requires index <= |markers|
    ensures Remaining(out, text, |text|, markers, index) == if index == |markers| then Some(out) else None
  {
    assert text[|text|..] == [] && out + [] == out;
    assert index == |markers| ==> markers[index..] == [];
  }

  lemma PrefixedNothing(rest: Option<string>)
    ensures Prefixed([], rest) == rest
  {
    if rest.Some? { assert [] + rest.value == rest.value; }
  }

  method WordEnd(text: string, from: nat) returns (end: nat)
    requires from <= |text|
    ensures end == from + WordLength(text[from..])
  {
    end := from;
    while end < |text| && !IsSpace(text[end])
      invariant from <= end <= |text|
      invariant end - from + WordLength(text[end..]) == WordLength(text[from..])
    {
      assert text[end..][1..] == text[end + 1..];
      end := end + 1;
    }
  }

  // ---------------------------------------------------------------- characters

  // The separator is U+2063; accepting a suggestion replaces the `@` and the query by it, the
  // name behind an `@`, and a space.
  lemma InsertShows(before: string, query: string, after: string, mention: Marker)
    ensures InsertMention(before + "@" + query + after, |before|, |query|, mention)
         == Inserted(before + "\U{2063}@" + mention.name + " " + after, |before| + |mention.name| + 3, mention)
  {
    var text := before + "@" + query + after;
    assert text[..|before|] == before && text[|before| + 1 + |query|..] == after;
    assert [SENTINEL] + "@" == "\U{2063}@";
    assert before + (Run(mention) + " ") + after == before + "\U{2063}@" + mention.name + " " + after;
  }

  // White space by code point.
  lemma SpacesAre(c: char)
    ensures IsSpace(c) <==>
      var n := c as int;
      9 <= n <= 13 || n == 32 || n == 160 || n == 5760 || 8192 <= n <= 8202 || n == 8232 || n == 8233
      || n == 8239 || n == 8287 || n == 12288 || n == 65279
  {
  }
}
