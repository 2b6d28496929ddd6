/**
 * The fingerprint of a catalog: the text its hash is taken of lists each row's id and time, by id. It does not
 * depend on the order rows come in. It tells catalogs apart when no id splits, at a line end it holds, into two
 * parts that rise; an id that does passes for two rows.
 */
module CatalogFingerprint {
  import opened KeysetOrder
  import opened Sequences
  import opened Text

  /** A signed number in decimal. */
  function IntText(n: int): string {
    if n < 0 then "-" + Decimal(-n) else Decimal(n)
  }

  function Line(r: Row): string {
    r.id + "|" + IntText(r.updatedAt) + "\n"
  }

  function Lines(rows: seq<Row>): string {
    if rows == [] then "" else Line(rows[0]) + Lines(rows[1..])
  }

  /** The text hashed: one line a row, in the order of the ids. */
  function FingerprintText(rows: seq<Row>): string {
    Lines(SortBy(rows, IdLess))
  }

  method Fingerprint(rows: seq<Row>) returns (text: string)
    ensures text == FingerprintText(rows)
  {
    var sorted := SortBy(rows, IdLess);
    text := "";
    for i := 0 to |sorted|
      invariant text == Lines(sorted[..i])
    {
      LinesSnoc(sorted[..i], sorted[i]);
      assert sorted[..i + 1] == sorted[..i] + [sorted[i]];
      text := text + (sorted[i].id + "|" + IntText(sorted[i].updatedAt) + "\n");
    }
    assert sorted[..|sorted|] == sorted;
  }

  lemma LinesCons(r: Row, rows: seq<Row>)
    ensures Lines([r] + rows) == Line(r) + Lines(rows)
  {
    assert ([r] + rows)[0] == r && ([r] + rows)[1..] == rows;
  }

  lemma {:induction false} LinesSnoc(rows: seq<Row>, r: Row)
    ensures Lines(rows + [r]) == Lines(rows) + Line(r)
  {
    Reassociate(Line(r), "", "");
    if rows == [] {
      LinesCons(r, []);
      assert [] + [r] == [r] + [];
    } else {
      var head, rest := rows[0], rows[1..];
      LinesSnoc(rest, r);
      assert rows == [head] + rest && rows + [r] == [head] + (rest + [r]);
      LinesCons(head, rest + [r]);
      LinesCons(head, rest);
      Reassociate(Line(head), Lines(rest), Line(r));
    }
  }

  /** Rows that came in another order have the same fingerprint. */
  lemma FingerprintIgnoresOrder(a: seq<Row>, b: seq<Row>)
    requires UniqueIds(a) && UniqueIds(b) && multiset(a) == multiset(b)
    ensures FingerprintText(a) == FingerprintText(b)
  {
    IdLessIsOrdering();
    SortIgnoresOrder(a, b, IdLess);
  }

  // ---- Different catalogs have different texts ----

  lemma {:induction false} DecimalIsDigits(n: nat)
    ensures forall i | 0 <= i < |Decimal(n)| :: '0' <= Decimal(n)[i] <= '9'
  {
    if n >= 10 {
      DecimalIsDigits(n / 10);
    }
  }

  lemma IntTextIsPlain(n: int)
    ensures Free(IntText(n), '|') && Free(IntText(n), '\n')
  {
    DecimalIsDigits(if n < 0 then -n else n);
  }

  lemma IntTextInjective(m: int, n: int)
    requires IntText(m) == IntText(n)
    ensures m == n
  {
    DecimalIsDigits(if m < 0 then -m else m);
    DecimalIsDigits(if n < 0 then -n else n);
    assert (IntText(m)[0] == '-' <==> m < 0) && (IntText(n)[0] == '-' <==> n < 0);
    if m < 0 {
      assert IntText(m)[1..] == Decimal(-m) && IntText(n)[1..] == Decimal(-n);
      DecimalInjective(-m, -n);
    } else {
      DecimalInjective(m, n);
    }
  }

  /** At `i` in an id stands what closes a line: the separator, a time and a newline. */
  ghost predicate EndsLine(id: string, i: nat, n: int) {
    i + |IntText(n)| + 2 <= |id| && id[i..i + |IntText(n)| + 2] == "|" + IntText(n) + "\n"
  }

  /** What follows the line end at `i` in an id. */
  function Rest(id: string, i: nat, n: int): string
    requires i + |IntText(n)| + 2 <= |id|
  {
    id[i + |IntText(n)| + 2..]
  }

  /** An id that holds a line end between two parts of which the second comes after the first. */
  ghost predicate SplitsRising(id: string) {
    exists i: nat, n: int :: EndsLine(id, i, n) && Before(id[..i], Rest(id, i, n))
  }

  ghost predicate PlainId(id: string) {
    !SplitsRising(id)
  }

  ghost predicate PlainIds(rows: seq<Row>) {
    forall i | 0 <= i < |rows| :: PlainId(rows[i].id)
  }

  /** Of two lines that begin one text, the longer id holds the end of the shorter's line. */
  lemma LongerHoldsEnd(r: Row, q: Row, x: string, y: string)
    requires Line(r) + x == Line(q) + y && |r.id| < |q.id|
    ensures EndsLine(q.id, |r.id|, r.updatedAt)
  {
    IntTextIsPlain(r.updatedAt);
    var digits := IntText(r.updatedAt);
    var s, end := Line(r) + x, |r.id| + |digits| + 2;
    assert s[|q.id|] == (Line(q) + y)[|q.id|] == '|';
    assert forall i | |r.id| < i < end :: s[i] == Line(r)[i];
    assert forall i | |r.id| < i < end - 1 :: Line(r)[i] == digits[i - |r.id| - 1];
    assert |q.id| >= end;
    assert s[|r.id|..end] == "|" + digits + "\n";
    assert s[|r.id|..end] == (Line(q) + y)[|r.id|..end] == q.id[|r.id|..end];
  }

  lemma {:induction false} PrefixIsBefore(u: string, x: string)
    requires x != ""
    ensures Before(u, u + x)
  {
    if u != "" {
      assert (u + x)[1..] == u[1..] + x;
      PrefixIsBefore(u[1..], x);
    }
  }

  lemma SameLengthSameRow(r: Row, q: Row, x: string, y: string)
    requires |r.id| == |q.id| && Line(r) + x == Line(q) + y
    ensures r.id == q.id && r.updatedAt == q.updatedAt && x == y
  {
    var n := |r.id|;
    assert r.id == (Line(r) + x)[..n] && q.id == (Line(q) + y)[..n];
    IntTextIsPlain(r.updatedAt);
    IntTextIsPlain(q.updatedAt);
    assert IntText(r.updatedAt) + ['\n'] + x == (Line(r) + x)[n + 1..];
    assert IntText(q.updatedAt) + ['\n'] + y == (Line(q) + y)[n + 1..];
    SplitFirst(IntText(r.updatedAt), x, IntText(q.updatedAt), y, '\n');
    IntTextInjective(r.updatedAt, q.updatedAt);
  }

  /** The row that remains of one whose id holds another's line. */
  function Remainder(r: Row, q: Row): Row
    requires |r.id| + |IntText(r.updatedAt)| + 2 <= |q.id|
  {
    Row(Rest(q.id, |r.id|, r.updatedAt), q.updatedAt, "")
  }

  function End(n: int): string {
    "|" + IntText(n) + "\n"
  }

  lemma LineHasEnd(r: Row)
    ensures Line(r) == r.id + End(r.updatedAt)
  {
  }

  lemma SplitId(id: string, i: nat, n: int)
    requires EndsLine(id, i, n)
    ensures id == id[..i] + End(n) + Rest(id, i, n)
  {
    assert id[i..i + |End(n)|] == End(n);
  }

  /** A row whose id holds another's line has that line and the remainder's for its own. */
  lemma LineOfHolder(r: Row, q: Row)
    requires EndsLine(q.id, |r.id|, r.updatedAt) && q.id[..|r.id|] == r.id
    ensures Line(q) == Line(r) + Line(Remainder(r, q))
  {
    var rest := Remainder(r, q);
    SplitId(q.id, |r.id|, r.updatedAt);
    LineHasEnd(r);
    LineHasEnd(q);
    LineHasEnd(rest);
    Reassociate(Line(r), rest.id, End(q.updatedAt));
  }

  lemma DropHead(head: string, x: string, y: string)
    requires head + x == head + y
    ensures x == y
  {
    assert x == (head + x)[|head|..] && y == (head + y)[|head|..];
  }

  lemma SamePrefix(r: Row, q: Row, x: string, y: string)
    requires Line(r) + x == Line(q) + y && |r.id| <= |q.id|
    ensures q.id[..|r.id|] == r.id
  {
    assert r.id == (Line(r) + x)[..|r.id|] && q.id[..|r.id|] == (Line(q) + y)[..|r.id|];
  }

  /** Taking the shorter id's line off both texts leaves the remainder of the longer one's. */
  lemma TakeShorter(r: Row, q: Row, x: string, y: string)
    requires Line(r) + x == Line(q) + y && |r.id| < |q.id|
    ensures EndsLine(q.id, |r.id|, r.updatedAt) && q.id[..|r.id|] == r.id && Before(r.id, q.id)
    ensures x == Line(Remainder(r, q)) + y
  {
    LongerHoldsEnd(r, q, x, y);
    SamePrefix(r, q, x, y);
    assert q.id == r.id + q.id[|r.id|..];
    PrefixIsBefore(r.id, q.id[|r.id|..]);
    LineOfHolder(r, q);
    Reassociate(Line(r), Line(Remainder(r, q)), y);
    DropHead(Line(r), x, Line(Remainder(r, q)) + y);
  }

  /** A remainder of a plain id does not come after what was taken off. */
  lemma RemainderIsEarlier(r: Row, q: Row, x: string, y: string)
    requires Line(r) + x == Line(q) + y && |r.id| < |q.id| && PlainId(q.id)
    ensures EndsLine(q.id, |r.id|, r.updatedAt) && !Before(r.id, Remainder(r, q).id)
  {
    TakeShorter(r, q, x, y);
  }

  lemma LaterThan(z: string, u: string, v: string)
    requires !Before(u, z) && Before(u, v)
    ensures Before(z, v)
  {
    BeforeTotal(u, z);
    if u != z { BeforeTransitive(z, u, v); }
  }

  /** The same sessions at the same times, whatever else the rows carry. */
  predicate SameKeys(a: seq<Row>, b: seq<Row>) {
    |a| == |b| && forall i | 0 <= i < |a| :: a[i].id == b[i].id && a[i].updatedAt == b[i].updatedAt
  }

  /** Every id of the rows comes after `z`. */
  predicate AllAfterId(rows: seq<Row>, z: string) {
    forall i | 0 <= i < |rows| :: Before(z, rows[i].id)
  }

  lemma TailIsLater(rows: seq<Row>, z: string)
    requires Sorted(rows, IdLess) && rows != [] && !Before(rows[0].id, z)
    ensures Sorted(rows[1..], IdLess) && AllAfterId(rows[1..], z)
  {
    forall i | 0 <= i < |rows[1..]| ensures Before(z, rows[1..][i].id) {
      assert IdLess(rows[0], rows[i + 1]);
      LaterThan(z, rows[0].id, rows[i + 1].id);
    }
  }

  lemma PlainTail(rows: seq<Row>)
    requires PlainIds(rows) && rows != []
    ensures PlainId(rows[0].id) && PlainIds(rows[1..])
  {
  }

  lemma LinesHead(rows: seq<Row>)
    requires rows != []
    ensures Lines(rows) == Line(rows[0]) + Lines(rows[1..])
  {
  }

  lemma LaterOfBoth(rows: seq<Row>, z: string, u: string)
    requires AllAfterId(rows, u) && !Before(u, z)
    ensures AllAfterId(rows, z)
  {
    forall i | 0 <= i < |rows| ensures Before(z, rows[i].id) { LaterThan(z, u, rows[i].id); }
  }

  /** A line of an earlier id cannot be got over: each id that holds it leaves a remainder earlier still. */
  lemma {:induction false} NoShift(z: Row, a: seq<Row>, b: seq<Row>)
    requires Sorted(a, IdLess) && Sorted(b, IdLess) && PlainIds(a) && PlainIds(b)
    requires AllAfterId(a, z.id) && AllAfterId(b, z.id)
    ensures Line(z) + Lines(b) != Lines(a)
    decreases |a| + |b|
  {
    if a != [] && Line(z) + Lines(b) == Lines(a) {
      var q := a[0];
      LinesHead(a);
      PlainTail(a);
      if |z.id| == |q.id| {
        SameLengthSameRow(z, q, Lines(b), Lines(a[1..]));
        BeforeIrreflexive(z.id);
      } else if |q.id| < |z.id| {
        TakeShorter(q, z, Lines(a[1..]), Lines(b));
        BeforeTransitive(z.id, q.id, z.id);
        BeforeIrreflexive(z.id);
      } else {
        TakeShorter(z, q, Lines(b), Lines(a[1..]));
        RemainderIsEarlier(z, q, Lines(b), Lines(a[1..]));
        var next := Remainder(z, q);
        LaterThan(next.id, z.id, q.id);
        if Before(q.id, next.id) { BeforeTransitive(z.id, q.id, next.id); }
        TailIsLater(a, next.id);
        LaterOfBoth(b, next.id, z.id);
        NoShift(next, b, a[1..]);
      }
    }
  }

  lemma FirstOfEqualLines(a: seq<Row>, b: seq<Row>)
    requires Sorted(a, IdLess) && Sorted(b, IdLess) && PlainIds(a) && PlainIds(b) && Lines(a) == Lines(b)
    requires a != [] && b != []
    ensures |a[0].id| >= |b[0].id|
  {
    if |a[0].id| < |b[0].id| {
      var u, q := a[0], b[0];
      LinesHead(a);
      LinesHead(b);
      PlainTail(a);
      PlainTail(b);
      TakeShorter(u, q, Lines(a[1..]), Lines(b[1..]));
      RemainderIsEarlier(u, q, Lines(a[1..]), Lines(b[1..]));
      var next := Remainder(u, q);
      if Before(q.id, next.id) { BeforeTransitive(u.id, q.id, next.id); }
      TailIsLater(a, next.id);
      TailIsLater(b, next.id);
      NoShift(next, a[1..], b[1..]);
    }
  }

  lemma {:induction false} LinesInjective(a: seq<Row>, b: seq<Row>)
    requires Sorted(a, IdLess) && Sorted(b, IdLess) && PlainIds(a) && PlainIds(b) && Lines(a) == Lines(b)
    ensures SameKeys(a, b)
  {
    if a != [] && b != [] {
      FirstOfEqualLines(a, b);
      FirstOfEqualLines(b, a);
      LinesHead(a);
      LinesHead(b);
      SameLengthSameRow(a[0], b[0], Lines(a[1..]), Lines(b[1..]));
      LinesInjective(a[1..], b[1..]);
    }
  }

  /** When no id splits into rising parts, catalogs of one fingerprint list the same sessions at the same times. */
  lemma FingerprintTellsApart(a: seq<Row>, b: seq<Row>)
    requires PlainIds(a) && PlainIds(b) && UniqueIds(a) && UniqueIds(b)
    ensures FingerprintText(a) == FingerprintText(b) <==> SameKeys(SortBy(a, IdLess), SortBy(b, IdLess))
  {
    IdLessIsOrdering();
    SortKeeps(a, IdLess);
    SortKeeps(b, IdLess);
    PlainIdsPermute(a, SortBy(a, IdLess));
    PlainIdsPermute(b, SortBy(b, IdLess));
    if FingerprintText(a) == FingerprintText(b) {
      LinesInjective(SortBy(a, IdLess), SortBy(b, IdLess));
    }
    if SameKeys(SortBy(a, IdLess), SortBy(b, IdLess)) {
      SameKeysSameLines(SortBy(a, IdLess), SortBy(b, IdLess));
    }
  }

  lemma PlainIdsPermute(a: seq<Row>, b: seq<Row>)
    requires PlainIds(a) && multiset(a) == multiset(b)
    ensures PlainIds(b)
  {
    forall i | 0 <= i < |b| ensures PlainId(b[i].id) {
      assert b[i] in multiset(b);
      assert b[i] in a;
    }
  }

  lemma {:induction false} SameKeysSameLines(a: seq<Row>, b: seq<Row>)
    requires SameKeys(a, b)
    ensures Lines(a) == Lines(b)
  {
    if a != [] { SameKeysSameLines(a[1..], b[1..]); }
  }

  lemma SortOfOne(r: Row)
    ensures SortBy([r], IdLess) == [r]
  {
    assert [r][1..] == [];
  }

  lemma SortOfTwo(u: Row, v: Row)
    requires Before(u.id, v.id)
    ensures SortBy([u, v], IdLess) == [u, v]
  {
    if Before(v.id, u.id) {
      BeforeTransitive(u.id, v.id, u.id);
      BeforeIrreflexive(u.id);
    }
    assert [u, v][1..] == [v];
    SortOfOne(v);
  }

  /** The id of one row, the end of its line and the id of another, taken together. */
  function JoinedId(u: Row, v: Row): string {
    u.id + "|" + IntText(u.updatedAt) + "\n" + v.id
  }

  lemma JoinedIsNotPlain(u: Row, v: Row)
    requires Before(u.id, v.id)
    ensures SplitsRising(JoinedId(u, v))
  {
    var id := JoinedId(u, v);
    assert EndsLine(id, |u.id|, u.updatedAt) && id[..|u.id|] == u.id && Rest(id, |u.id|, u.updatedAt) == v.id;
  }

  lemma JoinedLine(u: Row, v: Row, joined: Row)
    requires joined.id == JoinedId(u, v) && joined.updatedAt == v.updatedAt
    ensures Line(joined) == Line(u) + Line(v)
  {
    var tail := "|" + IntText(v.updatedAt) + "\n";
    assert Line(joined) == JoinedId(u, v) + tail == Line(u) + v.id + tail;
  }

  lemma LinesOfTwo(u: Row, v: Row)
    ensures Lines([u]) == Line(u) && Lines([u, v]) == Line(u) + Line(v)
  {
    assert [u][1..] == [] && [u, v][1..] == [v] && [v][1..] == [];
    Reassociate(Line(u), "", "");
    Reassociate(Line(v), "", "");
  }

  /** An id made of two rising parts and a line end passes for two rows: nothing is escaped. */
  lemma NewlineIdCollides(u: Row, v: Row, joined: Row)
    requires Before(u.id, v.id) && joined.id == JoinedId(u, v) && joined.updatedAt == v.updatedAt
    ensures SplitsRising(joined.id)
    ensures FingerprintText([joined]) == FingerprintText([u, v])
  {
    JoinedIsNotPlain(u, v);
    SortOfOne(joined);
    SortOfTwo(u, v);
    JoinedLine(u, v, joined);
    LinesOfTwo(u, v);
    LinesOfTwo(joined, joined);
  }

  lemma NotWithin(q: Row, r: Row, y: string)
    requires |r.id| < |q.id|
    ensures Line(r) != Line(q) + y
  {
    if Line(r) == Line(q) + y {
      LongerHoldsEnd(r, q, "", y);
    }
  }

  /** The rest of a text behind its first line cannot hold a remainder that is no later. */
  lemma RemainderIsNoLine(z: Row, u: string, rows: seq<Row>)
    requires AllAfterId(rows, u) && !Before(u, z.id)
    ensures Line(z) != Lines(rows)
  {
    if rows != [] && Line(z) == Lines(rows) {
      var q := rows[0];
      LinesHead(rows);
      Reassociate(Line(z), "", "");
      LaterThan(z.id, u, q.id);
      if |z.id| < |q.id| {
        NotWithin(q, z, Lines(rows[1..]));
      } else if |q.id| < |z.id| {
        TakeShorter(q, z, Lines(rows[1..]), "");
        BeforeTransitive(z.id, q.id, z.id);
        BeforeIrreflexive(z.id);
      } else {
        SameLengthSameRow(z, q, "", Lines(rows[1..]));
        BeforeIrreflexive(z.id);
      }
    }
  }

  lemma NoLines(rows: seq<Row>)
    ensures Lines(rows) == "" <==> rows == []
  {
    if rows != [] { LinesHead(rows); }
  }

  lemma SortedAlone(r: Row, rows: seq<Row>)
    requires PlainId(r.id) && Sorted(rows, IdLess) && Lines(rows) == Line(r)
    ensures SameKeys(rows, [r])
  {
    var u := rows[0];
    LinesHead(rows);
    Reassociate(Line(r), "", "");
    if |r.id| < |u.id| {
      NotWithin(u, r, Lines(rows[1..]));
    } else if |u.id| < |r.id| {
      TakeShorter(u, r, Lines(rows[1..]), "");
      RemainderIsEarlier(u, r, Lines(rows[1..]), "");
      BeforeIrreflexive(u.id);
      TailIsLater(rows, u.id);
      Reassociate(Line(Remainder(u, r)), "", "");
      RemainderIsNoLine(Remainder(u, r), u.id, rows[1..]);
    } else {
      SameLengthSameRow(u, r, Lines(rows[1..]), "");
      NoLines(rows[1..]);
    }
  }

  /** A row whose id does not split has a fingerprint no other catalog has. */
  lemma AloneToldApart(r: Row, rows: seq<Row>)
    requires PlainId(r.id) && UniqueIds(rows) && FingerprintText(rows) == FingerprintText([r])
    ensures SameKeys(SortBy(rows, IdLess), [r])
  {
    IdLessIsOrdering();
    SortKeeps(rows, IdLess);
    SortOfOne(r);
    LinesOfTwo(r, r);
    SortedAlone(r, SortBy(rows, IdLess));
  }

  predicate PassesFor(r: Row, rows: seq<Row>) {
    FingerprintText([r]) == FingerprintText(rows)
  }

  lemma PairIsAnother(r: Row, u: Row, v: Row)
    requires Before(u.id, v.id)
    ensures UniqueIds([u, v]) && !SameKeys(SortBy([u, v], IdLess), [r])
  {
    BeforeIrreflexive(u.id);
    SortOfTwo(u, v);
  }

  lemma SplitIsJoined(id: string, i: nat, n: int, u: Row, v: Row)
    requires EndsLine(id, i, n) && u.id == id[..i] && u.updatedAt == n && v.id == Rest(id, i, n)
    ensures id == JoinedId(u, v)
  {
    SplitId(id, i, n);
    LineHasEnd(u);
  }

  lemma SplitPassesForTwo(r: Row) returns (u: Row, v: Row)
    requires SplitsRising(r.id)
    ensures Before(u.id, v.id) && PassesFor(r, [u, v])
  {
    var i: nat, n: int :| EndsLine(r.id, i, n) && Before(r.id[..i], Rest(r.id, i, n));
    u, v := Row(r.id[..i], n, ""), Row(Rest(r.id, i, n), r.updatedAt, "");
    SplitIsJoined(r.id, i, n, u, v);
    NewlineIdCollides(u, v, r);
  }

  /** One row's fingerprint is also that of two rows exactly when its id splits into rising parts. */
  lemma PassesForTwoIff(r: Row)
    ensures (exists u: Row, v: Row :: Before(u.id, v.id) && PassesFor(r, [u, v])) <==> SplitsRising(r.id)
  {
    if SplitsRising(r.id) {
      var u, v := SplitPassesForTwo(r);
    } else {
      forall u: Row, v: Row | Before(u.id, v.id) ensures !PassesFor(r, [u, v]) {
        PairIsAnother(r, u, v);
        if PassesFor(r, [u, v]) { AloneToldApart(r, [u, v]); }
      }
    }
  }

  /** And exactly then it is that of any other catalog. */
  lemma PassesForAnotherIff(r: Row)
    ensures (exists rows ::
               PassesFor(r, rows) && UniqueIds(rows) && !SameKeys(SortBy(rows, IdLess), [r])) <==> SplitsRising(r.id)
  {
    if SplitsRising(r.id) {
      var u, v := SplitPassesForTwo(r);
      PairIsAnother(r, u, v);
      assert PassesFor(r, [u, v]);
    } else {
      forall rows | PassesFor(r, rows) && UniqueIds(rows) ensures SameKeys(SortBy(rows, IdLess), [r]) {
        AloneToldApart(r, rows);
      }
    }
  }
}
