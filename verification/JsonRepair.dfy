// The repair of almost-JSON written by a model (packages/core/agents/builder-protocol.ts):
// raw line breaks and tabs inside string literals become escapes, nothing else changes.
// String literals follow section 7 of RFC 8259.
module JsonRepair {
  import opened Options

  // The scanner's two flags: outside a string, inside one, or right after a backslash.
  datatype Mode = Outside | InString | Escaped

  function Next(mode: Mode, c: char): Mode {
    match mode
    case Outside => if c == '"' then InString else Outside
    case Escaped => InString
    case InString => if c == '\\' then Escaped else if c == '"' then Outside else InString
  }

  function Emit(mode: Mode, c: char): string {
    if mode != InString then [c]
    else if c == '\n' then ['\\', 'n']
    else if c == '\r' then ['\\', 'r']
    else if c == '\t' then ['\\', 't']
    else [c]
  }

  function Repair(mode: Mode, text: string): string
    decreases |text|
  {
    if text == [] then [] else Emit(mode, text[0]) + Repair(Next(mode, text[0]), text[1..])
  }

  // The mode after a text.
  function Scan(mode: Mode, text: string): Mode
    decreases |text|
  {
    if text == [] then mode else Scan(Next(mode, text[0]), text[1..])
  }

  method EscapeJsonStringControlCharacters(value: string) returns (result: string)
    ensures result == Repair(Outside, value)
  {
    result := "";
    var inString, escaped := false, false;
    for i := 0 to |value|
      invariant escaped ==> inString
      invariant result + Repair(ModeOf(inString, escaped), value[i..]) == Repair(Outside, value)
    {
      var character := value[i];
      ghost var before, mode := result, ModeOf(inString, escaped);
      assert value[i..][0] == character && value[i..][1..] == value[i + 1..];
      if !inString {
        result := result + [character];
        if character == '"' { inString := true; }
      } else if escaped {
        result := result + [character];
        escaped := false;
      } else if character == '\\' {
        result := result + [character];
        escaped := true;
      } else if character == '"' {
        result := result + [character];
        inString := false;
      } else if character == '\n' {
        result := result + ['\\', 'n'];
      } else if character == '\r' {
        result := result + ['\\', 'r'];
      } else if character == '\t' {
        result := result + ['\\', 't'];
      } else {
        result := result + [character];
      }
      RepairTurn(before, mode, character, value[i + 1..]);
      assert result == before + Emit(mode, character);
    }
    assert value[|value|..] == [];
  }

  function ModeOf(inString: bool, escaped: bool): Mode {
    if !inString then Outside else if escaped then Escaped else InString
  }

  lemma RepairFirst(mode: Mode, text: string)
    requires text != []
    ensures Repair(mode, text) == Emit(mode, text[0]) + Repair(Next(mode, text[0]), text[1..])
  {
  }

  lemma RepairTurn(before: string, mode: Mode, c: char, rest: string)
    ensures before + Repair(mode, [c] + rest) == (before + Emit(mode, c)) + Repair(Next(mode, c), rest)
  {
    assert ([c] + rest)[1..] == rest;
  }

  // ---------------------------------------------------------------- the scanner keeps step

  lemma {:induction false} ScanSplits(mode: Mode, a: string, b: string)
    ensures Scan(mode, a + b) == Scan(Scan(mode, a), b)
    decreases |a|
  {
    if a == [] {
      assert a + b == b;
    } else {
      assert (a + b)[0] == a[0] && (a + b)[1..] == a[1..] + b;
      ScanSplits(Next(mode, a[0]), a[1..], b);
    }
  }

  lemma {:induction false} RepairSplits(mode: Mode, a: string, b: string)
    ensures Repair(mode, a + b) == Repair(mode, a) + Repair(Scan(mode, a), b)
    decreases |a|
  {
    if a == [] {
      assert a + b == b;
    } else {
      assert (a + b)[0] == a[0] && (a + b)[1..] == a[1..] + b;
      RepairSplits(Next(mode, a[0]), a[1..], b);
    }
  }

  lemma EmitScans(mode: Mode, c: char)
    ensures Scan(mode, Emit(mode, c)) == Next(mode, c)
    ensures Repair(mode, Emit(mode, c)) == Emit(mode, c)
  {
    var e := Emit(mode, c);
    if |e| == 1 {
      assert e[1..] == [];
    } else {
      assert e[0] == '\\' && e[1..] == [e[1]] && [e[1]][1..] == [];
      assert Next(InString, '\\') == Escaped && Next(Escaped, e[1]) == InString;
      assert Scan(mode, e) == Scan(Escaped, [e[1]]) == Scan(InString, []);
      assert Repair(mode, e) == ['\\'] + Repair(Escaped, [e[1]]);
      assert Repair(Escaped, [e[1]]) == [e[1]] + Repair(InString, []);
    }
  }

  // After every prefix, the output is in the same string and escape state as the input, and
  // repairing a prefix gives a prefix of the repair.
  lemma {:induction false} RepairKeepsStep(mode: Mode, text: string, k: nat)
    requires k <= |text|
    ensures Scan(mode, Repair(mode, text[..k])) == Scan(mode, text[..k])
    ensures Repair(mode, text[..k]) <= Repair(mode, text)
    decreases k
  {
    assert text == text[..k] + text[k..];
    RepairSplits(mode, text[..k], text[k..]);
    if k > 0 {
      var before, c := text[..k - 1], text[k - 1];
      assert text[..k] == before + [c];
      RepairKeepsStep(mode, text, k - 1);
      OneMoreCharacter(mode, before, c);
    }
  }

  lemma OneMoreCharacter(mode: Mode, before: string, c: char)
    requires Scan(mode, Repair(mode, before)) == Scan(mode, before)
    ensures Scan(mode, Repair(mode, before + [c])) == Scan(mode, before + [c])
  {
    var m := Scan(mode, before);
    RepairSplits(mode, before, [c]);
    ScanSplits(mode, before, [c]);
    assert [c][1..] == [];
    assert Repair(m, [c]) == Emit(m, c);
    ScanSplits(mode, Repair(mode, before), Emit(m, c));
    EmitScans(m, c);
  }

  lemma {:induction false} RepairIdempotent(mode: Mode, text: string)
    ensures Repair(mode, Repair(mode, text)) == Repair(mode, text)
    decreases |text|
  {
    if text != [] {
      var e, rest := Emit(mode, text[0]), Repair(Next(mode, text[0]), text[1..]);
      RepairIdempotent(Next(mode, text[0]), text[1..]);
      EmitScans(mode, text[0]);
      RepairSplits(mode, e, rest);
    }
  }

  // The text outside string literals, quotes included.
  function OutsideText(mode: Mode, text: string): string
    decreases |text|
  {
    if text == [] then []
    else
      var rest := OutsideText(Next(mode, text[0]), text[1..]);
      if mode == Outside || Next(mode, text[0]) == Outside then [text[0]] + rest else rest
  }

  lemma {:induction false} RepairKeepsStructure(mode: Mode, text: string)
    ensures OutsideText(mode, Repair(mode, text)) == OutsideText(mode, text)
    decreases |text|
  {
    if text != [] {
      var e, rest := Emit(mode, text[0]), Repair(Next(mode, text[0]), text[1..]);
      RepairKeepsStructure(Next(mode, text[0]), text[1..]);
      if |e| == 1 {
        assert (e + rest)[1..] == rest;
      } else {
        assert (e + rest)[1..] == [e[1]] + rest && ([e[1]] + rest)[1..] == rest;
      }
    }
  }

  predicate Repairable(c: char) { c == '\n' || c == '\r' || c == '\t' }

  // A repairable character inside a string and not directly after a backslash.
  ghost predicate HasRawBreak(mode: Mode, text: string) {
    exists i :: 0 <= i < |text| && Repairable(text[i]) && Scan(mode, text[..i]) == InString
  }

  // The repair changes exactly the texts that hold such a character.
  lemma {:induction false} RepairChangesIffRawBreak(mode: Mode, text: string)
    ensures |Repair(mode, text)| >= |text|
    ensures Repair(mode, text) == text <==> !HasRawBreak(mode, text)
    decreases |text|
  {
    if text != [] {
      var c, rest := text[0], text[1..];
      RepairChangesIffRawBreak(Next(mode, c), rest);
      var e, repaired := Emit(mode, c), Repair(Next(mode, c), rest);
      assert text[..0] == [];
      if HasRawBreak(Next(mode, c), rest) {
        var i :| 0 <= i < |rest| && Repairable(rest[i]) && Scan(Next(mode, c), rest[..i]) == InString;
        assert text[..i + 1][1..] == rest[..i] && text[i + 1] == rest[i];
        assert Scan(mode, text[..i + 1]) == InString;
      }
      forall i | 0 < i < |text| && Repairable(text[i]) && Scan(mode, text[..i]) == InString
        ensures HasRawBreak(Next(mode, c), rest)
      {
        assert text[..i][1..] == rest[..i - 1] && rest[i - 1] == text[i];
      }
      if |e| == 1 {
        assert (e + repaired)[1..] == repaired;
      } else {
        assert |e + repaired| > |text|;
        assert Repairable(text[0]) && Scan(mode, text[..0]) == InString;
      }
    }
  }

  // ---------------------------------------------------------------- string literals

  predicate IsHex(c: char) { '0' <= c <= '9' || 'a' <= c <= 'f' || 'A' <= c <= 'F' }

  function HexValue(c: char): nat
    requires IsHex(c)
  {
    if c <= '9' then c as int - '0' as int
    else if c <= 'F' then c as int - 'A' as int + 10
    else c as int - 'a' as int + 10
  }

  // The character an escape stands for, for the escapes of two characters.
  function ShortEscape(c: char): Option<nat> {
    match c
    case '"' => Some(0x22)
    case '\\' => Some(0x5C)
    case '/' => Some(0x2F)
    case 'b' => Some(0x08)
    case 'f' => Some(0x0C)
    case 'n' => Some(0x0A)
    case 'r' => Some(0x0D)
    case 't' => Some(0x09)
    case _ => None
  }

  // May this character stand for itself in a literal? A lenient reader also takes the raw
  // characters that the repair escapes.
  predicate Unescaped(lenient: bool, c: char) { c as int >= 0x20 || (lenient && Repairable(c)) }

  // A literal's characters, as code values, and what follows its closing quote.
  datatype Literal = Literal(value: seq<nat>, rest: string)

  function Cons(code: nat, tail: Option<Literal>): Option<Literal> {
    if tail.None? then None else Some(Literal([code] + tail.value.value, tail.value.rest))
  }

  predicate FourHex(text: string) {
    |text| >= 4 && IsHex(text[0]) && IsHex(text[1]) && IsHex(text[2]) && IsHex(text[3])
  }

  function CodeUnit(text: string): nat
    requires FourHex(text)
  {
    ((HexValue(text[0]) * 16 + HexValue(text[1])) * 16 + HexValue(text[2])) * 16 + HexValue(text[3])
  }

  // Decodes a literal from after its opening quote.
  function Decode(lenient: bool, text: string): Option<Literal>
    decreases |text|
  {
    if text == [] then None
    else if text[0] == '"' then Some(Literal([], text[1..]))
    else if text[0] == '\\' then
      if |text| == 1 then None
      else if text[1] == 'u' then
        if FourHex(text[2..]) then Cons(CodeUnit(text[2..]), Decode(lenient, text[6..])) else None
      else if ShortEscape(text[1]).Some? then Cons(ShortEscape(text[1]).value, Decode(lenient, text[2..]))
      else None
    else if Unescaped(lenient, text[0]) then Cons(text[0] as int, Decode(lenient, text[1..]))
    else None
  }

  lemma {:induction false} DecodeShortens(lenient: bool, text: string)
    ensures Decode(lenient, text).Some? ==> |Decode(lenient, text).value.rest| < |text|
    decreases |text|
  {
    if text != [] && text[0] != '"' {
      if text[0] == '\\' {
        if |text| > 1 && text[1] == 'u' && FourHex(text[2..]) { DecodeShortens(lenient, text[6..]); }
        else if |text| > 1 { DecodeShortens(lenient, text[2..]); }
      } else {
        DecodeShortens(lenient, text[1..]);
      }
    }
  }

  // A document as a reader sees it: structure characters and decoded literals.
  datatype Token = Mark(c: char) | Text(value: seq<nat>)

  function Tokens(lenient: bool, text: string): Option<seq<Token>>
    decreases |text|
  {
    if text == [] then Some([])
    else if text[0] == '"' then
      DecodeShortens(lenient, text[1..]);
      var literal := Decode(lenient, text[1..]);
      if literal.None? then None
      else Push(Text(literal.value.value), Tokens(lenient, literal.value.rest))
    else Push(Mark(text[0]), Tokens(lenient, text[1..]))
  }

  function Push(token: Token, rest: Option<seq<Token>>): Option<seq<Token>> {
    if rest.None? then None else Some([token] + rest.value)
  }

  lemma HexKept(text: string)
    requires FourHex(text)
    ensures var repaired := Repair(InString, text);
      FourHex(repaired) && repaired[..4] == text[..4] && repaired[4..] == Repair(InString, text[4..])
  {
    HexRun(text, 4);
  }

  lemma NoHexKept(text: string)
    requires !FourHex(text)
    ensures !FourHex(Repair(InString, text))
  {
    var n := FirstNonHex(text);
    HexRun(text, n);
    if n < |text| {
      var rest := text[n..];
      RepairFirst(InString, rest);
      assert Repair(InString, text)[n] == Emit(InString, rest[0])[0];
      assert !IsHex(Repair(InString, text)[n]);
    } else {
      assert text[n..] == [] && Repair(InString, text) == text;
    }
  }

  // Repairing the rest of a literal keeps the four digits of a code escape, or their absence.
  lemma HexSurvives(text: string)
    ensures FourHex(Repair(InString, text)) <==> FourHex(text)
    ensures FourHex(text) ==>
      && Repair(InString, text)[..4] == text[..4]
      && Repair(InString, text)[4..] == Repair(InString, text[4..])
  {
    if FourHex(text) { HexKept(text); } else { NoHexKept(text); }
  }

  function FirstNonHex(text: string): (n: nat)
    ensures n <= |text| && forall i :: 0 <= i < n ==> IsHex(text[i])
    ensures n < |text| ==> !IsHex(text[n])
  {
    if text == [] || !IsHex(text[0]) then 0 else 1 + FirstNonHex(text[1..])
  }

  lemma FirstOfRun(text: string, n: nat, tail: string)
    requires 0 < n <= |text|
    ensures [text[0]] + (text[1..][..n - 1] + tail) == text[..n] + tail
    ensures text[1..][n - 1..] == text[n..]
  {
    assert [text[0]] + text[1..][..n - 1] == text[..n];
  }

  lemma {:induction false} HexRun(text: string, n: nat)
    requires n <= |text| && forall i :: 0 <= i < n ==> IsHex(text[i])
    ensures Repair(InString, text) == text[..n] + Repair(InString, text[n..])
    decreases n
  {
    if n > 0 {
      HexRun(text[1..], n - 1);
      FirstOfRun(text, n, Repair(InString, text[n..]));
      RepairFirst(InString, text);
    } else {
      assert text[0..] == text && text[..0] == [];
    }
  }

  // ---------------------------------------------------------------- repair is lenient reading

  function RepairedRest(literal: Option<Literal>): Option<Literal> {
    if literal.None? then None
    else Some(Literal(literal.value.value, Repair(Outside, literal.value.rest)))
  }

  lemma ConsRepaired(code: nat, tail: Option<Literal>)
    ensures Cons(code, RepairedRest(tail)) == RepairedRest(Cons(code, tail))
  {
  }

  lemma BackslashCopied(rest: string)
    ensures Repair(InString, ['\\'] + rest) == ['\\'] + Repair(Escaped, rest)
  {
    RepairFirst(InString, ['\\'] + rest);
    assert (['\\'] + rest)[1..] == rest;
  }

  lemma EscapedCopied(c: char, rest: string)
    ensures Repair(Escaped, [c] + rest) == [c] + Repair(InString, rest)
  {
    RepairFirst(Escaped, [c] + rest);
    assert ([c] + rest)[1..] == rest;
  }

  // An escape in the middle of a literal is copied.
  lemma RepairCopiesEscape(text: string)
    requires |text| >= 2 && text[0] == '\\'
    ensures Repair(InString, text) == ['\\', text[1]] + Repair(InString, text[2..])
  {
    var rest, tail := [text[1]] + text[2..], Repair(InString, text[2..]);
    BackslashCopied(rest);
    EscapedCopied(text[1], text[2..]);
    assert text == ['\\'] + rest;
    assert ['\\'] + ([text[1]] + tail) == ['\\', text[1]] + tail;
  }

  // The strict reader decodes a repaired literal exactly as the lenient reader decodes the
  // original one, and they stop at the same quote.
  lemma {:induction false} DecodeRepaired(text: string)
    ensures Decode(false, Repair(InString, text)) == RepairedRest(Decode(true, text))
    decreases |text|
  {
    if text != [] {
      var c, rest := text[0], text[1..];
      if c == '\\' {
        DecodeRepairedEscape(text);
      } else if c == '"' {
        assert Repair(InString, text) == ['"'] + Repair(Outside, rest);
        assert (['"'] + Repair(Outside, rest))[1..] == Repair(Outside, rest);
      } else {
        DecodeRepaired(rest);
        var tail := Repair(InString, rest);
        assert Repair(InString, text) == Emit(InString, c) + tail;
        ConsRepaired(c as int, Decode(true, rest));
        if Repairable(c) {
          var e := Emit(InString, c);
          assert (e + tail)[2..] == tail && (e + tail)[0] == '\\' && (e + tail)[1] == e[1];
          assert ShortEscape(e[1]) == Some(c as int);
        } else {
          assert ([c] + tail)[1..] == tail;
        }
      }
    }
  }

  lemma {:induction false} DecodeRepairedEscape(text: string)
    requires text != [] && text[0] == '\\'
    ensures Decode(false, Repair(InString, text)) == RepairedRest(Decode(true, text))
    decreases |text|, 0
  {
    if |text| == 1 {
      assert text[1..] == [];
      assert Repair(InString, text) == ['\\'] + Repair(Escaped, []) == text;
    } else {
      var rest := text[2..];
      RepairCopiesEscape(text);
      var repaired := Repair(InString, text);
      assert repaired[2..] == Repair(InString, rest);
      if text[1] == 'u' {
        HexSurvives(rest);
        if FourHex(rest) {
          assert text[6..] == rest[4..];
          assert repaired[6..] == repaired[2..][4..];
          DecodeRepaired(text[6..]);
          CodeUnitOfPrefix(repaired[2..], rest);
          ConsRepaired(CodeUnit(rest), Decode(true, text[6..]));
        }
      } else if ShortEscape(text[1]).Some? {
        DecodeRepaired(rest);
        ConsRepaired(ShortEscape(text[1]).value, Decode(true, rest));
      }
    }
  }

  lemma CodeUnitOfPrefix(a: string, b: string)
    requires FourHex(a) && FourHex(b) && a[..4] == b[..4]
    ensures CodeUnit(a) == CodeUnit(b)
  {
    assert a[0] == a[..4][0] && a[1] == a[..4][1] && a[2] == a[..4][2] && a[3] == a[..4][3];
    assert b[0] == b[..4][0] && b[1] == b[..4][1] && b[2] == b[..4][2] && b[3] == b[..4][3];
  }

  // For every text: what a strict reader makes of the repair is what a reader that tolerates
  // raw line breaks and tabs makes of the original, or both refuse.
  lemma {:induction false} TokensRepaired(text: string)
    ensures Tokens(false, Repair(Outside, text)) == Tokens(true, text)
    decreases |text|
  {
    if text != [] {
      var c, rest := text[0], text[1..];
      if c == '"' {
        assert Repair(Outside, text) == ['"'] + Repair(InString, rest);
        assert (['"'] + Repair(InString, rest))[1..] == Repair(InString, rest);
        DecodeRepaired(rest);
        DecodeShortens(true, rest);
        if Decode(true, rest).Some? { TokensRepaired(Decode(true, rest).value.rest); }
      } else {
        assert Repair(Outside, text) == [c] + Repair(Outside, rest);
        assert ([c] + Repair(Outside, rest))[1..] == Repair(Outside, rest);
        TokensRepaired(rest);
      }
    }
  }

  // A lenient reader agrees on every strict literal.
  lemma {:induction false} StrictLiteralIsClean(text: string)
    requires Decode(false, text).Some?
    ensures Decode(true, text) == Decode(false, text)
    decreases |text|
  {
    if text[0] == '\\' {
      StrictLiteralIsClean(if text[1] == 'u' then text[6..] else text[2..]);
    } else if text[0] != '"' {
      StrictLiteralIsClean(text[1..]);
    }
  }

  lemma {:induction false} StrictIsLenient(text: string)
    requires Tokens(false, text).Some?
    ensures Tokens(true, text) == Tokens(false, text)
    decreases |text|
  {
    if text != [] {
      if text[0] == '"' {
        StrictLiteralIsClean(text[1..]);
        DecodeShortens(false, text[1..]);
        StrictIsLenient(Decode(false, text[1..]).value.rest);
      } else {
        StrictIsLenient(text[1..]);
      }
    }
  }

  lemma {:induction false} StrictLiteralUnchanged(text: string)
    requires Decode(false, text).Some?
    ensures var rest := Decode(false, text).value.rest;
      && |rest| < |text| && text[|text| - |rest|..] == rest
      && Repair(InString, text) == text[..|text| - |rest|] + Repair(Outside, rest)
    decreases |text|
  {
    var rest := LiteralEnds(text);
    if text[0] == '\\' {
      var k := if text[1] == 'u' then 6 else 2;
      EscapeUnchanged(text, k);
      StrictLiteralUnchanged(text[k..]);
      CopyJoins(text, k, rest, Repair(InString, text[k..]), Repair(Outside, rest));
    } else if text[0] != '"' {
      StrictLiteralUnchanged(text[1..]);
      RepairFirst(InString, text);
      assert text[..1] == [text[0]];
      CopyJoins(text, 1, rest, Repair(InString, text[1..]), Repair(Outside, rest));
    } else {
      RepairFirst(InString, text);
      assert text[..1] == [text[0]];
    }
  }

  lemma EscapeUnchanged(text: string, k: nat)
    requires |text| >= 2 && text[0] == '\\' && (k == 2 || (k == 6 && FourHex(text[2..])))
    ensures k <= |text| && Repair(InString, text) == text[..k] + Repair(InString, text[k..])
  {
    RepairCopiesEscape(text);
    if k == 6 {
      var tail := text[2..];
      HexTail(tail);
      assert tail[4..] == text[6..];
      CopyTwice(text, 2, 6, Repair(InString, tail), Repair(InString, text[6..]));
    } else {
      assert text[..2] == ['\\', text[1]];
    }
  }

  lemma HexTail(tail: string)
    requires FourHex(tail)
    ensures Repair(InString, tail) == tail[..4] + Repair(InString, tail[4..])
  {
    assert forall i :: 0 <= i < 4 ==> IsHex(tail[i]);
    HexRun(tail, 4);
  }

  lemma CopyTwice(text: string, j: nat, k: nat, a: string, b: string)
    requires j <= k <= |text| && a == text[j..][..k - j] + b
    ensures text[..j] + a == text[..k] + b
    ensures j == 2 ==> text[..j] == [text[0], text[1]]
  {
    assert text[..j] + text[j..][..k - j] == text[..k];
  }

  // A copied beginning before an unchanged continuation.
  lemma CopyJoins(text: string, k: nat, rest: string, tail: string, out: string)
    requires k <= |text| && |rest| <= |text| - k && text[k..][|text| - k - |rest|..] == rest
    requires tail == text[k..][..|text| - k - |rest|] + out
    ensures text[|text| - |rest|..] == rest
    ensures text[..k] + tail == text[..|text| - |rest|] + out
  {
    CopyTwice(text, k, |text| - |rest|, tail, out);
  }

  // A text that parses strictly is not touched.
  lemma {:induction false} StrictTextUnchanged(text: string)
    requires Tokens(false, text).Some?
    ensures Repair(Outside, text) == text
    decreases |text|
  {
    if text != [] {
      var tail := text[1..];
      if text[0] == '"' {
        var rest := LiteralEnds(tail);
        StrictTextUnchanged(rest);
        LiteralCopied(tail, rest);
      } else {
        StrictTextUnchanged(tail);
      }
      RepairFirst(Outside, text);
      assert text == [text[0]] + tail;
    }
  }

  lemma LiteralEnds(tail: string) returns (rest: string)
    requires Decode(false, tail).Some?
    ensures rest == Decode(false, tail).value.rest && |rest| < |tail|
  {
    DecodeShortens(false, tail);
    rest := Decode(false, tail).value.rest;
  }

  lemma LiteralCopied(tail: string, rest: string)
    requires Decode(false, tail).Some? && rest == Decode(false, tail).value.rest
    requires Repair(Outside, rest) == rest
    ensures Repair(InString, tail) == tail
  {
    StrictLiteralUnchanged(tail);
    assert tail == tail[..|tail| - |rest|] + rest;
  }

  // ---------------------------------------------------------------- parsing a draft

  // JSON.parse: any grammar over the tokens.
  function Parse<V>(grammar: seq<Token> -> Option<V>, lenient: bool, text: string): Option<V> {
    var tokens := Tokens(lenient, text);
    if tokens.None? then None else grammar(tokens.value)
  }

  // parseBuilderDraft on the text of the block: strict first, then on the repair.
  function ParseDraft<V>(grammar: seq<Token> -> Option<V>, text: string): Option<V> {
    var strict := Parse(grammar, false, text);
    if strict.Some? then strict else Parse(grammar, false, Repair(Outside, text))
  }

  // The two attempts together are one lenient parse: a draft that parses is never changed by
  // the repair, and one that does not is read as if raw breaks were allowed in strings.
  lemma DraftParsesLeniently<V>(grammar: seq<Token> -> Option<V>, text: string)
    ensures ParseDraft(grammar, text) == Parse(grammar, true, text)
  {
    TokensRepaired(text);
    if Tokens(false, text).Some? { StrictIsLenient(text); }
  }
}
