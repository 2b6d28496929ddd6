/** Catalog rows in an order of their own: sorting, and why any sorted permutation is the same list. */
module KeysetOrder {
  import opened Text

  datatype Row = Row(id: string, updatedAt: int, rest: string)

  type Less = (Row, Row) -> bool

  /** Newest first, the id breaking ties. */
  predicate CursorLess(a: Row, b: Row) {
    a.updatedAt > b.updatedAt || (a.updatedAt == b.updatedAt && Before(a.id, b.id))
  }

  predicate IdLess(a: Row, b: Row) {
    Before(a.id, b.id)
  }

  ghost predicate Ordering(less: Less) {
    && (forall a: Row :: !less(a, a))
    && (forall a: Row, b: Row, c: Row :: less(a, b) && less(b, c) ==> less(a, c))
    && (forall a: Row, b: Row :: a.id != b.id ==> less(a, b) || less(b, a))
  }

  lemma CursorLessIsOrdering()
    ensures Ordering(CursorLess)
  {
    forall a: Row, b: Row, c: Row
      ensures !CursorLess(a, a) && (CursorLess(a, b) && CursorLess(b, c) ==> CursorLess(a, c))
      ensures a.id != b.id ==> CursorLess(a, b) || CursorLess(b, a)
    {
      BeforeIrreflexive(a.id);
      BeforeTotal(a.id, b.id);
      if Before(a.id, b.id) && Before(b.id, c.id) { BeforeTransitive(a.id, b.id, c.id); }
    }
  }

  lemma IdLessIsOrdering()
    ensures Ordering(IdLess)
  {
    forall a: Row, b: Row, c: Row
      ensures !IdLess(a, a) && (IdLess(a, b) && IdLess(b, c) ==> IdLess(a, c))
      ensures a.id != b.id ==> IdLess(a, b) || IdLess(b, a)
    {
      BeforeIrreflexive(a.id);
      BeforeTotal(a.id, b.id);
      if Before(a.id, b.id) && Before(b.id, c.id) { BeforeTransitive(a.id, b.id, c.id); }
    }
  }

  predicate UniqueIds(rows: seq<Row>) {
    forall i, j | 0 <= i < j < |rows| :: rows[i].id != rows[j].id
  }

  predicate Sorted(rows: seq<Row>, less: Less) {
    forall i, j | 0 <= i < j < |rows| :: less(rows[i], rows[j])
  }

  function Insert(rows: seq<Row>, r: Row, less: Less): seq<Row> {
    if rows == [] then [r]
    else if less(rows[0], r) then [rows[0]] + Insert(rows[1..], r, less)
    else [r] + rows
  }

  function SortBy(rows: seq<Row>, less: Less): seq<Row> {
    if rows == [] then [] else Insert(SortBy(rows[1..], less), rows[0], less)
  }

  lemma {:induction false} InsertPermutes(rows: seq<Row>, r: Row, less: Less)
    ensures multiset(Insert(rows, r, less)) == multiset(rows) + multiset{r}
  {
    if rows != [] && less(rows[0], r) {
      InsertPermutes(rows[1..], r, less);
      assert rows == [rows[0]] + rows[1..];
    }
  }

  lemma {:induction false} InsertMembers(rows: seq<Row>, r: Row, less: Less)
    ensures forall i | 0 <= i < |Insert(rows, r, less)| ::
              Insert(rows, r, less)[i] == r || Insert(rows, r, less)[i] in rows
  {
    if rows != [] && less(rows[0], r) {
      InsertMembers(rows[1..], r, less);
    }
  }

  lemma SortedCons(head: Row, tail: seq<Row>, less: Less)
    requires Sorted(tail, less) && forall i | 0 <= i < |tail| :: less(head, tail[i])
    ensures Sorted([head] + tail, less)
  {
  }

  lemma {:induction false} InsertSorts(rows: seq<Row>, r: Row, less: Less)
    requires Ordering(less) && Sorted(rows, less) && forall i | 0 <= i < |rows| :: rows[i].id != r.id
    ensures Sorted(Insert(rows, r, less), less)
  {
    if rows != [] && less(rows[0], r) {
      InsertSorts(rows[1..], r, less);
      InsertMembers(rows[1..], r, less);
      SortedCons(rows[0], Insert(rows[1..], r, less), less);
    } else if rows != [] {
      assert less(r, rows[0]);
      SortedCons(r, rows, less);
    }
  }

  /** Sorting permutes the rows into order. */
  lemma {:induction false} SortKeeps(rows: seq<Row>, less: Less)
    requires Ordering(less) && UniqueIds(rows)
    ensures multiset(SortBy(rows, less)) == multiset(rows) && Sorted(SortBy(rows, less), less)
    ensures |SortBy(rows, less)| == |rows|
  {
    if rows != [] {
      var rest := SortBy(rows[1..], less);
      SortKeeps(rows[1..], less);
      assert rows == [rows[0]] + rows[1..];
      forall i | 0 <= i < |rest| ensures rest[i].id != rows[0].id {
        assert rest[i] in multiset(rest);
        assert rest[i] in rows[1..];
      }
      InsertPermutes(rest, rows[0], less);
      InsertSorts(rest, rows[0], less);
    }
    assert |multiset(SortBy(rows, less))| == |multiset(rows)|;
  }

  lemma HeadIsLeast(rows: seq<Row>, r: Row, less: Less)
    requires Sorted(rows, less) && r in rows
    ensures r == rows[0] || less(rows[0], r)
  {
  }

  lemma SameHead(a: seq<Row>, b: seq<Row>, less: Less)
    requires Ordering(less) && Sorted(a, less) && Sorted(b, less)
    requires a != [] && b != [] && multiset(a) == multiset(b)
    ensures a[0] == b[0]
  {
    assert a[0] in multiset(b) && b[0] in multiset(a);
    HeadIsLeast(b, a[0], less);
    HeadIsLeast(a, b[0], less);
  }

  lemma SameTail(a: seq<Row>, b: seq<Row>)
    requires a != [] && b != [] && multiset(a) == multiset(b) && a[0] == b[0]
    ensures multiset(a[1..]) == multiset(b[1..])
  {
    assert a == [a[0]] + a[1..] && b == [b[0]] + b[1..];
    assert multiset(a[1..]) == multiset(a) - multiset{a[0]} == multiset(b[1..]);
  }

  /** Whatever algorithm sorted them, two sorted lists of the same rows are the same list. */
  lemma {:induction false} SortedIsUnique(a: seq<Row>, b: seq<Row>, less: Less)
    requires Ordering(less) && Sorted(a, less) && Sorted(b, less) && multiset(a) == multiset(b)
    ensures a == b
  {
    assert |multiset(a)| == |multiset(b)|;
    if a != [] {
      SameHead(a, b, less);
      SameTail(a, b);
      SortedIsUnique(a[1..], b[1..], less);
      assert a == [a[0]] + a[1..] && b == [b[0]] + b[1..];
    }
  }

  /** The order the upstream rows came in does not show in the sorted list. */
  lemma SortIgnoresOrder(a: seq<Row>, b: seq<Row>, less: Less)
    requires Ordering(less) && UniqueIds(a) && UniqueIds(b) && multiset(a) == multiset(b)
    ensures SortBy(a, less) == SortBy(b, less)
  {
    SortKeeps(a, less);
    SortKeeps(b, less);
    SortedIsUnique(SortBy(a, less), SortBy(b, less), less);
  }
}
