// A concrete clock. It shows that the laws asked of a clock can be met, and it gives three rows,
// one of them with a timestamp that does not parse, on which the comparator runs in a circle.
module ChannelClocks {
  import opened CodeOrder
  import opened Options
  import opened StableSort
  import opened ChannelCache

  lemma ByCodeIsLawful(parse: string -> Option<int>)
    ensures Clock(parse, ByCode).Lawful()
  {
    forall a, b
      ensures ByCode(a, b) == 0 <==> a == b
      ensures ByCode(a, b) < 0 <==> ByCode(b, a) > 0
    {
      ByCodeIsAntisymmetric(a, b);
    }
    forall a, b, c | ByCode(a, b) <= 0 && ByCode(b, c) <= 0 ensures ByCode(a, c) <= 0 {
      ByCodeIsTransitive(a, b, c);
    }
  }

  // A clock that cannot read the stamp "h". The stamps "e", "h" and "l" stand for
  // 2026-01-01T23:00:00-05:00, a malformed 2026-01-01Tunknown and 2026-01-02T00:00:00Z:
  // they collate in this order, and the last is the earlier instant of the two parsed.
  function Parse(stamp: string): Option<int> {
    if stamp == "e" then Some(1767326400000)
    else if stamp == "l" then Some(1767312000000)
    else None
  }

  lemma StampsCycle()
    ensures Parse("e") == Some(1767326400000) && Parse("h") == None && Parse("l") == Some(1767312000000)
    ensures ByCode("e", "h") < 0 && ByCode("h", "l") < 0
  {
    assert "e"[0] != "h"[0] && "h"[0] != "l"[0] && "e"[0] != "l"[0];
  }

  // Each of the three rows sorts strictly before the next, so no arrangement is in order,
  // although every law of the clock holds.
  lemma UnparseableTimestampCycles(clock: Clock, a: Entry, b: Entry, c: Entry)
    requires clock == Clock(Parse, ByCode)
    requires a.createdAt == "e" && b.createdAt == "h" && c.createdAt == "l"
    ensures clock.Lawful()
    ensures clock.Compare(a, b) < 0 && clock.Compare(b, c) < 0 && clock.Compare(c, a) < 0
    ensures forall t :: multiset(t) == multiset([a, b, c]) ==> !Ordered(clock.Le, t)
  {
    ByCodeIsLawful(Parse);
    StampsCycle();
    InversionIsInconsistent(clock, a, b, c);
    NoArrangement(clock, [a, b, c]);
  }

  lemma NoArrangement(clock: Clock, rows: seq<Entry>)
    requires clock.Lawful() && !clock.Consistent(Stamps(rows))
    ensures forall t :: multiset(t) == multiset(rows) ==> !Ordered(clock.Le, t)
  {
    SortableIffConsistent(clock, rows);
  }

  lemma InversionIsInconsistent(clock: Clock, a: Entry, b: Entry, c: Entry)
    requires clock.parse(a.createdAt).Some? && clock.parse(b.createdAt).None? && clock.parse(c.createdAt).Some?
    requires clock.collate(a.createdAt, b.createdAt) < 0 && clock.collate(b.createdAt, c.createdAt) < 0
    requires clock.parse(a.createdAt).value > clock.parse(c.createdAt).value
    ensures !clock.Consistent(Stamps([a, b, c]))
  {
    var rows := [a, b, c];
    assert rows[0] in rows && rows[1] in rows && rows[2] in rows;
    assert a.createdAt in Stamps(rows) && b.createdAt in Stamps(rows) && c.createdAt in Stamps(rows);
  }
}
