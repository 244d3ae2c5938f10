/** Python's sorted() on strings. */
module Names {
  import opened Sorting
  import opened Text

  predicate NameOrder(a: string, b: string) {
    a == b || Before(a, b)
  }

  lemma NamesSort()
    ensures TotalPreorder(NameOrder)
  {
    forall a: string, b: string ensures NameOrder(a, b) || NameOrder(b, a) {
      BeforeIsTotal(a, b);
    }
    forall a: string, b: string, c: string | NameOrder(a, b) && NameOrder(b, c) ensures NameOrder(a, c) {
      if Before(a, b) && Before(b, c) {
        BeforeIsTransitive(a, b, c);
      }
    }
  }

  /** The order in which names were collected does not show in the sorted list. */
  lemma SortIgnoresOrder(a: seq<string>, b: seq<string>)
    requires multiset(a) == multiset(b)
    ensures Sort(a, NameOrder) == Sort(b, NameOrder)
  {
    NamesSort();
    SortOrders(a, NameOrder);
    SortOrders(b, NameOrder);
    forall x: string, y: string | NameOrder(x, y) && NameOrder(y, x) ensures x == y {
      BeforeIsTotal(x, y);
    }
    OrderedIsUnique(Sort(a, NameOrder), Sort(b, NameOrder), NameOrder);
  }

  method SortedNames(names: seq<string>) returns (sorted: seq<string>)
    ensures sorted == Sort(names, NameOrder)
    ensures multiset(sorted) == multiset(names) && |sorted| == |names| && Ordered(sorted, NameOrder)
    ensures forall f :: f in sorted <==> f in names
  {
    NamesSort();
    SortOrders(names, NameOrder);
    sorted := Sort(names, NameOrder);
    forall f ensures f in sorted <==> f in names {
      SortKeepsElements(names, NameOrder, f);
    }
  }
}
