// Strings in the order of their character codes, as Python's `sorted` puts names. The order is
// total, so sorting by it puts every list of names in order and loses none.
module CodeOrder {
  import opened StableSort

  function ByCode(a: string, b: string): int {
    if a == [] || b == [] then |a| - |b|
    else if a[0] != b[0] then a[0] as int - b[0] as int
    else ByCode(a[1..], b[1..])
  }

  lemma {:induction false} ByCodeIsAntisymmetric(a: string, b: string)
    ensures ByCode(a, b) == 0 <==> a == b
    ensures ByCode(b, a) == -ByCode(a, b)
  {
    if a != [] && b != [] && a[0] == b[0] {
      ByCodeIsAntisymmetric(a[1..], b[1..]);
      assert a == [a[0]] + a[1..] && b == [b[0]] + b[1..];
    }
  }

  lemma {:induction false} ByCodeIsTransitive(a: string, b: string, c: string)
    requires ByCode(a, b) <= 0 && ByCode(b, c) <= 0
    ensures ByCode(a, c) <= 0
  {
    if a != [] && b != [] && c != [] && a[0] == b[0] == c[0] {
      ByCodeIsTransitive(a[1..], b[1..], c[1..]);
    }
  }

  predicate ByCodeLe(a: string, b: string) { ByCode(a, b) <= 0 }

  lemma ByCodeOrders(names: seq<string>)
    ensures Ordered(ByCodeLe, Sort(ByCodeLe, names))
    ensures forall n :: n in Sort(ByCodeLe, names) <==> n in names
  {
    forall x, y ensures ByCodeLe(x, y) || ByCodeLe(y, x) {
      ByCodeIsAntisymmetric(x, y);
    }
    forall x, y, z | ByCodeLe(x, y) && ByCodeLe(y, z) ensures ByCodeLe(x, z) {
      ByCodeIsTransitive(x, y, z);
    }
    assert PreorderOn(ByCodeLe, names);
    SortOrders(ByCodeLe, names);
    SortKeepsElements(ByCodeLe, names);
  }
}
