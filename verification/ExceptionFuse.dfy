// The session fuse for repeated exceptions (packages/core/analytics/exception-dedupe.ts):
// keep the first three events of a fingerprint and drop the rest, while any trouble with the
// session storage keeps the event.
module ExceptionFuse {
  import opened Options

  const EXCEPTION_SAMPLE_LIMIT: int := 3
  const MAX_FINGERPRINTS: int := 50

  // A value of the stored record: a count, or something a foreign writer put there.
  datatype Cell = Number(n: int) | Other

  // What the storage key holds.
  datatype Blob = Missing | Corrupt | Record(counts: map<string, Cell>)

  // One call: the fingerprint, if there is any signal, and what the storage does.
  datatype Call = Call(fingerprint: Option<string>, available: bool, readable: bool, writable: bool)

  function ReadCounts(blob: Blob): map<string, Cell> {
    if blob.Record? then blob.counts else map[]
  }

  function CountOf(counts: map<string, Cell>, fingerprint: string): int {
    if fingerprint in counts && counts[fingerprint].Number? then counts[fingerprint].n else 0
  }

  function Drops(blob: Blob, call: Call): bool {
    call.fingerprint.Some? && call.available && call.readable
    && CountOf(ReadCounts(blob), call.fingerprint.value) >= EXCEPTION_SAMPLE_LIMIT
  }

  function After(blob: Blob, call: Call): Blob {
    if call.fingerprint.None? || !call.available || !call.readable then blob
    else
      var counts, fingerprint := ReadCounts(blob), call.fingerprint.value;
      var current := CountOf(counts, fingerprint);
      if current >= EXCEPTION_SAMPLE_LIMIT then blob
      else if current == 0 && |counts| >= MAX_FINGERPRINTS then blob
      else if !call.writable then blob
      else Record(counts[fingerprint := Number(current + 1)])
  }

  class SessionFuse {
    var blob: Blob

    constructor ()
      ensures blob == Missing
    {
      blob := Missing;
    }

    method ShouldDropException(call: Call) returns (drop: bool)
      modifies this
      ensures drop == Drops(old(blob), call)
      ensures blob == After(old(blob), call)
    {
      if call.fingerprint.None? { return false; }
      if !call.available { return false; }
      if !call.readable { return false; }
      var counts := ReadCounts(blob);
      var fingerprint := call.fingerprint.value;
      var current := CountOf(counts, fingerprint);
      if current >= EXCEPTION_SAMPLE_LIMIT { return true; }
      if current == 0 && |counts| >= MAX_FINGERPRINTS { return false; }
      counts := counts[fingerprint := Number(current + 1)];
      if call.writable { blob := Record(counts); }
      return false;
    }
  }

  // ---------------------------------------------------------------- sessions

  // The storage after a sequence of calls.
  function Session(start: Blob, calls: seq<Call>): Blob {
    if calls == [] then start else After(Session(start, calls[..|calls| - 1]), calls[|calls| - 1])
  }

  predicate Dropped(start: Blob, calls: seq<Call>, i: nat)
    requires i < |calls|
  {
    Drops(Session(start, calls[..i]), calls[i])
  }

  // Events of a fingerprint that were kept, among all of `calls`.
  function KeptCount(start: Blob, calls: seq<Call>, fingerprint: string): nat {
    if calls == [] then 0
    else
      var last := |calls| - 1;
      KeptCount(start, calls[..last], fingerprint)
      + if calls[last].fingerprint == Some(fingerprint) && !Dropped(start, calls, last) then 1 else 0
  }

  ghost predicate Empty(blob: Blob) { ReadCounts(blob) == map[] }

  lemma AfterBounds(blob: Blob, call: Call, fingerprint: string)
    requires |ReadCounts(blob)| <= MAX_FINGERPRINTS
    ensures |ReadCounts(After(blob, call))| <= MAX_FINGERPRINTS
    ensures CountOf(ReadCounts(After(blob, call)), fingerprint) <= CountOf(ReadCounts(blob), fingerprint)
      + if call.fingerprint == Some(fingerprint) && !Drops(blob, call) then 1 else 0
  {
    if After(blob, call) != blob {
      var counts, f := ReadCounts(blob), call.fingerprint.value;
      var next := counts[f := Number(CountOf(counts, f) + 1)];
      assert next.Keys == counts.Keys + {f};
      assert |next| == |next.Keys| && |counts| == |counts.Keys|;
      if f in counts { assert next.Keys == counts.Keys; }
    }
  }

  lemma {:induction false} SessionUndercounts(start: Blob, calls: seq<Call>, fingerprint: string)
    requires Empty(start)
    ensures CountOf(ReadCounts(Session(start, calls)), fingerprint) <= KeptCount(start, calls, fingerprint)
    ensures |ReadCounts(Session(start, calls))| <= MAX_FINGERPRINTS
  {
    if calls != [] {
      var before := calls[..|calls| - 1];
      SessionUndercounts(start, before, fingerprint);
      AfterBounds(Session(start, before), calls[|calls| - 1], fingerprint);
    }
  }

  // Whatever reads and writes fail: an event is dropped only after three events of the same
  // fingerprint were kept, and the table never outgrows its cap.
  lemma DropsOnlyRepeats(start: Blob, calls: seq<Call>, i: nat)
    requires Empty(start) && i < |calls|
    ensures Dropped(start, calls, i) ==>
      calls[i].fingerprint.Some?
      && KeptCount(start, calls[..i], calls[i].fingerprint.value) >= EXCEPTION_SAMPLE_LIMIT
    ensures |ReadCounts(Session(start, calls[..i]))| <= MAX_FINGERPRINTS
  {
    SessionUndercounts(start, calls[..i], calls[i].fingerprint.GetOr(""));
  }

  // ---------------------------------------------------------------- healthy storage

  predicate Healthy(calls: seq<Call>) {
    forall i :: 0 <= i < |calls| ==> calls[i].available && calls[i].readable && calls[i].writable
  }

  function Occurrences(calls: seq<Call>, fingerprint: string): nat {
    if calls == [] then 0
    else
      var last := |calls| - 1;
      Occurrences(calls[..last], fingerprint) + if calls[last].fingerprint == Some(fingerprint) then 1 else 0
  }

  // The fingerprints that came first, up to the cap.
  function FirstFingerprints(calls: seq<Call>): set<string> {
    if calls == [] then {}
    else
      var seen, last := FirstFingerprints(calls[..|calls| - 1]), calls[|calls| - 1];
      if last.fingerprint.Some? && |seen| < MAX_FINGERPRINTS then seen + {last.fingerprint.value} else seen
  }

  function AtMost(n: int, limit: int): int { if n < limit then n else limit }

  // One fingerprint's cell in a healthy session that saw it `n` times.
  ghost predicate CellOk(counts: map<string, Cell>, fingerprint: string, n: nat) {
    && (fingerprint in counts ==> n > 0 && counts[fingerprint] == Number(AtMost(n, EXCEPTION_SAMPLE_LIMIT)))
    && (fingerprint !in counts && |counts| < MAX_FINGERPRINTS ==> n == 0)
  }

  // What one healthy call does to the table.
  lemma HealthyWrite(blob: Blob, call: Call)
    requires call.available && call.readable && call.writable
    ensures var counts, after := ReadCounts(blob), ReadCounts(After(blob, call));
      if call.fingerprint.None? || CountOf(counts, call.fingerprint.value) >= EXCEPTION_SAMPLE_LIMIT
         || (CountOf(counts, call.fingerprint.value) == 0 && |counts| >= MAX_FINGERPRINTS)
      then after == counts
      else after == counts[call.fingerprint.value := Number(CountOf(counts, call.fingerprint.value) + 1)]
  {
  }

  lemma HealthyKeys(blob: Blob, call: Call, m: nat)
    requires call.available && call.readable && call.writable
    requires call.fingerprint.Some? ==> CellOk(ReadCounts(blob), call.fingerprint.value, m)
    ensures ReadCounts(After(blob, call)).Keys == ReadCounts(blob).Keys +
      if call.fingerprint.Some? && |ReadCounts(blob)| < MAX_FINGERPRINTS then {call.fingerprint.value} else {}
  {
    HealthyWrite(blob, call);
  }

  lemma HealthyStep(blob: Blob, call: Call, fingerprint: string, n: nat, m: nat)
    requires call.available && call.readable && call.writable
    requires CellOk(ReadCounts(blob), fingerprint, n)
    requires call.fingerprint.Some? ==> CellOk(ReadCounts(blob), call.fingerprint.value, m)
    ensures CellOk(ReadCounts(After(blob, call)), fingerprint, n + if call.fingerprint == Some(fingerprint) then 1 else 0)
  {
    HealthyWrite(blob, call);
    if call.fingerprint.Some? {
      var counts, f := ReadCounts(blob), call.fingerprint.value;
      TableSize(counts, f, Number(CountOf(counts, f) + 1));
    }
  }

  lemma TableSize(counts: map<string, Cell>, f: string, cell: Cell)
    ensures counts[f := cell].Keys == counts.Keys + {f}
    ensures |counts[f := cell]| == if f in counts then |counts| else |counts| + 1
  {
    var next := counts[f := cell];
    assert next.Keys == counts.Keys + {f} && |next| == |next.Keys| && |counts| == |counts.Keys|;
    if f in counts { assert next.Keys == counts.Keys; }
  }

  lemma {:induction false} HealthyTable(start: Blob, calls: seq<Call>, fingerprint: string)
    requires Empty(start) && Healthy(calls)
    ensures ReadCounts(Session(start, calls)).Keys == FirstFingerprints(calls)
    ensures CellOk(ReadCounts(Session(start, calls)), fingerprint, Occurrences(calls, fingerprint))
  {
    if calls != [] {
      var before, last := calls[..|calls| - 1], calls[|calls| - 1];
      var counts, other := ReadCounts(Session(start, before)), last.fingerprint.GetOr("");
      HealthyTable(start, before, fingerprint);
      HealthyTable(start, before, other);
      HealthyKeys(Session(start, before), last, Occurrences(before, other));
      HealthyStep(Session(start, before), last, fingerprint, Occurrences(before, fingerprint), Occurrences(before, other));
      assert |counts| == |counts.Keys|;
    }
  }

  // With storage that works the fuse is exact: an event is dropped if and only if its
  // fingerprint is among the first fifty of the session and has occurred three times before.
  // Other fingerprints matter only for which are the first fifty; below that cap every
  // fingerprint is tracked.
  lemma HealthyFuseIsExact(start: Blob, calls: seq<Call>, i: nat)
    requires Empty(start) && Healthy(calls) && i < |calls|
    ensures Dropped(start, calls, i) <==>
      && calls[i].fingerprint.Some?
      && calls[i].fingerprint.value in FirstFingerprints(calls[..i])
      && Occurrences(calls[..i], calls[i].fingerprint.value) >= EXCEPTION_SAMPLE_LIMIT
    ensures calls[i].fingerprint.Some? && |FirstFingerprints(calls[..i])| < MAX_FINGERPRINTS ==>
      (Dropped(start, calls, i) <==>
         Occurrences(calls[..i], calls[i].fingerprint.value) >= EXCEPTION_SAMPLE_LIMIT)
  {
    assert Healthy(calls[..i]);
    HealthyTable(start, calls[..i], calls[i].fingerprint.GetOr(""));
    var counts := ReadCounts(Session(start, calls[..i]));
    assert |counts| == |counts.Keys|;
  }

  // ---------------------------------------------------------------- the fuse in numbers

  // The fingerprints of a session so far.
  function Fingerprints(calls: seq<Call>): set<string> {
    set c | c in calls && c.fingerprint.Some? :: c.fingerprint.value
  }

  lemma {:induction false} FirstFiftyAre(calls: seq<Call>)
    ensures FirstFingerprints(calls) <= Fingerprints(calls)
    ensures |Fingerprints(calls)| <= 50 ==> FirstFingerprints(calls) == Fingerprints(calls)
    ensures |FirstFingerprints(calls)| <= 50
  {
    if calls != [] {
      var before, last := calls[..|calls| - 1], calls[|calls| - 1];
      assert calls == before + [last];
      FirstFiftyAre(before);
      FingerprintsGrow(before, last);
      if last.fingerprint.Some? {
        OneMore(Fingerprints(before), last.fingerprint.value);
        OneMore(FirstFingerprints(before), last.fingerprint.value);
      }
    }
  }

  lemma FingerprintsGrow(before: seq<Call>, last: Call)
    ensures Fingerprints(before + [last])
         == if last.fingerprint.Some? then Fingerprints(before) + {last.fingerprint.value} else Fingerprints(before)
  {
  }

  lemma OneMore(s: set<string>, x: string)
    ensures |s + {x}| == if x in s then |s| else |s| + 1
  {
    if x in s { assert s + {x} == s; }
  }

  // With working storage and at most fifty fingerprints, the fourth event of a fingerprint is
  // the first one dropped. Whatever the storage does, no event is dropped before three of its
  // fingerprint were kept, and the table never exceeds fifty entries.
  lemma ThreeOfFifty(start: Blob, calls: seq<Call>, i: nat)
    requires Empty(start) && i < |calls|
    ensures Dropped(start, calls, i) ==>
      calls[i].fingerprint.Some? && KeptCount(start, calls[..i], calls[i].fingerprint.value) >= 3
    ensures |ReadCounts(Session(start, calls))| <= 50
    ensures Healthy(calls) && calls[i].fingerprint.Some? && |Fingerprints(calls[..i])| <= 50 ==>
      (Dropped(start, calls, i) <==> Occurrences(calls[..i], calls[i].fingerprint.value) >= 3)
  {
    DropsOnlyRepeats(start, calls, i);
    FirstFiftyAre(calls[..i]);
    if Healthy(calls) {
      HealthyFuseIsExact(start, calls, i);
      if calls[i].fingerprint.Some? { OccursIfSeen(calls[..i], calls[i].fingerprint.value); }
    }
  }

  lemma {:induction false} OccursIfSeen(calls: seq<Call>, fingerprint: string)
    ensures Occurrences(calls, fingerprint) > 0 ==> fingerprint in Fingerprints(calls)
  {
    if calls != [] {
      assert calls == calls[..|calls| - 1] + [calls[|calls| - 1]];
      OccursIfSeen(calls[..|calls| - 1], fingerprint);
    }
  }

  // Any trouble keeps the event: no fingerprint, no storage, a read that fails, a table that is
  // missing or corrupt, a count that is no number. Only a write that succeeds changes the table.
  lemma TroubleKeepsTheEvent(blob: Blob, call: Call)
    ensures call.fingerprint == None || !call.available || !call.readable ==>
      !Drops(blob, call) && After(blob, call) == blob
    ensures !blob.Record? ==> !Drops(blob, call)
    ensures blob.Record? && call.fingerprint.Some? && Lookup(blob.counts, call.fingerprint.value) == Some(Other) ==>
      !Drops(blob, call)
    ensures !call.writable ==> After(blob, call) == blob
    ensures call.fingerprint.Some? && call.available && call.readable && call.writable && !blob.Record? ==>
      After(blob, call) == Record(map[call.fingerprint.value := Number(1)])
  {
  }
}
