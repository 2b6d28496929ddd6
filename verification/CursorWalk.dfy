/** Following next cursors from page to page, and why rows handed out a page at a time are handed out once. */
module CursorWalk {

  /** An answer as its client reads it: a page's rows and whether a cursor leads on, or no page. */
  datatype Reading<R> = PageRead(rows: seq<R>, more: bool) | NoPage

  /** How a client reads an answer, and the answer it gets when its n-th request follows one's cursor. */
  datatype Client<!P, R> = Client(read: P -> Reading<R>, follow: (nat, P) -> P)

  /** Answers as a client fetches them: the first without a cursor, then cursor by cursor. */
  ghost predicate Chain<P, R>(c: Client<P, R>, first: P, pages: seq<P>) {
    var n := |pages| - 1;
    && n >= 0
    && if n == 0 then pages[0] == first
       else
         && Chain(c, first, pages[..n])
         && c.read(pages[n - 1]).PageRead? && c.read(pages[n - 1]).more && pages[n] == c.follow(n, pages[n - 1])
  }

  function AllRows<P, R>(c: Client<P, R>, pages: seq<P>): seq<R> {
    if pages == [] then []
    else
      var last := c.read(pages[|pages| - 1]);
      AllRows(c, pages[..|pages| - 1]) + if last.PageRead? then last.rows else []
  }

  /** A page's cursor leads, whenever it is used, to the page right behind it; a page without one goes to the end. */
  ghost predicate WalksAt<P, R>(c: Client<P, R>, at: nat -> P, rows: seq<R>, size: nat, k: nat)
    requires k <= |rows|
  {
    && c.read(at(k)).PageRead?
    && if !c.read(at(k)).more then c.read(at(k)).rows == rows[k..]
       else
         && k + size <= |rows| && c.read(at(k)).rows == rows[k..k + size]
         && forall n: nat :: c.follow(n, at(k)) == at(k + size)
  }

  ghost predicate Walks<P, R>(c: Client<P, R>, at: nat -> P, rows: seq<R>, size: nat) {
    size > 0 && forall k: nat | k <= |rows| :: WalksAt(c, at, rows, size, k)
  }

  lemma TakeAndDrop<R>(rows: seq<R>, i: nat, j: nat)
    requires i <= j <= |rows|
    ensures rows[..i] + rows[i..j] == rows[..j] && rows[..i] + rows[i..] == rows
  {
  }

  /** The last page of a chain starts where the rows of those before it end. */
  lemma {:induction false} ChainPosition<P, R>(c: Client<P, R>, pages: seq<P>, at: nat -> P, rows: seq<R>, size: nat)
    returns (start: nat)
    requires Walks(c, at, rows, size) && Chain(c, at(0), pages)
    ensures |pages| - 1 <= start <= |rows| && pages[|pages| - 1] == at(start)
    ensures AllRows(c, pages[..|pages| - 1]) == rows[..start]
    decreases |pages|
  {
    var n := |pages| - 1;
    if n == 0 {
      start := 0;
    } else {
      var front := pages[..n];
      var before := ChainPosition(c, front, at, rows, size);
      assert front[n - 1] == pages[n - 1] == at(before);
      assert WalksAt(c, at, rows, size, before);
      TakeAndDrop(rows, before, before + size);
      start := before + size;
    }
  }

  /**
   * A chain has at most a page a row and one; once no cursor is left, its pages are the rows, each once and in
   * order.
   */
  lemma ChainConcatenates<P, R>(c: Client<P, R>, pages: seq<P>, at: nat -> P, rows: seq<R>, size: nat)
    requires Walks(c, at, rows, size) && Chain(c, at(0), pages)
    ensures |pages| <= |rows| + 1 && c.read(pages[|pages| - 1]).PageRead?
    ensures !c.read(pages[|pages| - 1]).more ==> AllRows(c, pages) == rows
  {
    var start := ChainPosition(c, pages, at, rows, size);
    assert WalksAt(c, at, rows, size, start);
    TakeAndDrop(rows, start, start);
  }

  lemma ChainContinues<P, R>(c: Client<P, R>, first: P, pages: seq<P>) returns (p: P)
    requires Chain(c, first, pages) && c.read(pages[|pages| - 1]).PageRead? && c.read(pages[|pages| - 1]).more
    ensures Chain(c, first, pages + [p])
  {
    p := c.follow(|pages|, pages[|pages| - 1]);
    assert (pages + [p])[..|pages|] == pages;
  }
}
