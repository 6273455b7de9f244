/** Cells, addresses and reachability (main/include/vm-arch.h).

    A heap is a sequence of cells.  An address below the heap's length names a RAM cell;
    everything above (ROM constants, small integers, booleans, NIL) is a leaf for the
    collector. */
module Cells {

  type Word = w: int | 0 <= w < 0x10000

  type Tag = t: int | 0 <= t < 16

  const CONS: Tag := 0
  const CONTINUATION: Tag := 1
  const CLOSURE: Tag := 4
  const BIGNUM: Tag := 5
  const VECTOR: Tag := 12

  const FALSE: Word := 0xFFFD
  const TRUE: Word := 0xFFFE
  const NIL: Word := 0xFFFF
  const NEG1: Word := 0xFE00
  const ZERO: Word := 0xFE01
  const POS1: Word := 0xFE02

  const ROM_START: Word := 0xE000
  const SMALL_INT_START: Word := 0xFE00
  const SMALL_INT_MAX: Word := 0xFF00

  /** The two 16-bit fields, the type, and the collector's two bits. */
  datatype Cell = Cell(car: Word, cdr: Word, typ: Tag, mark: bool, flip: bool) {
    predicate HasLeftLink() { typ < 8 }

    predicate HasRightLink() { typ < 4 }

    /** The addresses the collector follows. */
    ghost function Links(): set<Word> {
      (if HasLeftLink() then {car} else {}) + (if HasRightLink() then {cdr} else {})
    }

    /** Everything but the collector's bits. */
    ghost predicate Same(c: Cell) {
      car == c.car && cdr == c.cdr && typ == c.typ
    }
  }

  /** The cell before position k of a chain. */
  function Up(st: seq<Word>, k: int): Word
    requires 0 <= k <= |st|
  {
    if k == 0 then NIL else st[k - 1]
  }

  ghost predicate Distinct(st: seq<Word>) {
    forall i, j | 0 <= i < j < |st| :: st[i] != st[j]
  }

  /** An address of an unmarked cell. */
  ghost predicate Open(h: seq<Cell>, p: int) {
    0 <= p < |h| && !h[p].mark
  }

  /** s walks along links, through unmarked cells only. */
  ghost predicate Path(h: seq<Cell>, s: seq<int>) {
    && |s| > 0
    && (forall i | 0 <= i < |s| :: Open(h, s[i]))
    && (forall i | 0 < i < |s| :: s[i] in h[s[i - 1]].Links())
  }

  ghost predicate Leads(h: seq<Cell>, roots: set<int>, s: seq<int>, q: int) {
    Path(h, s) && s[0] in roots && s[|s| - 1] == q
  }

  ghost predicate Reachable(h: seq<Cell>, roots: set<int>, q: int) {
    exists s :: Leads(h, roots, s, q)
  }

  /** The cells that can be reached from roots through unmarked cells. */
  ghost function Reach(h: seq<Cell>, roots: set<int>): set<int> {
    set q | 0 <= q < |h| && Reachable(h, roots, q)
  }

  ghost predicate Closed(h: seq<Cell>, s: set<int>) {
    && (forall p | p in s :: 0 <= p < |h|)
    && (forall p, q | p in s && q in h[p].Links() && Open(h, q) :: q in s)
  }

  ghost predicate Holds(h: seq<Cell>, roots: set<int>, s: set<int>) {
    forall r | r in roots && Open(h, r) :: r in s
  }

  /** Reach contains the roots, is closed under links, and only holds unmarked cells. */
  lemma ReachClosed(h: seq<Cell>, roots: set<int>)
    ensures Closed(h, Reach(h, roots))
    ensures Holds(h, roots, Reach(h, roots))
    ensures forall q | q in Reach(h, roots) :: Open(h, q)
  {
    forall r | r in roots && Open(h, r) ensures r in Reach(h, roots) {
      assert Leads(h, roots, [r], r);
    }
    forall p, q | p in Reach(h, roots) && q in h[p].Links() && Open(h, q) ensures q in Reach(h, roots) {
      var s :| Leads(h, roots, s, p);
      assert Leads(h, roots, s + [q], q);
    }
    forall q | q in Reach(h, roots) ensures Open(h, q) {
      var s :| Leads(h, roots, s, q);
    }
  }

  /** ... and it is the least such set. */
  lemma ReachLeast(h: seq<Cell>, roots: set<int>, s: set<int>)
    requires Closed(h, s) && Holds(h, roots, s)
    ensures Reach(h, roots) <= s
  {
    forall q | q in Reach(h, roots) ensures q in s {
      var w :| Leads(h, roots, w, q);
      WalkStays(h, s, w);
    }
  }

  lemma {:induction false} WalkStays(h: seq<Cell>, s: set<int>, w: seq<int>)
    requires Closed(h, s) && Path(h, w) && w[0] in s
    ensures w[|w| - 1] in s
  {
    if |w| > 1 {
      assert Path(h, w[..|w| - 1]);
      WalkStays(h, s, w[..|w| - 1]);
      assert w[|w| - 1] in h[w[|w| - 2]].Links();
    }
  }

  /** Two heaps with the same links on a closed set reach the same cells of it. */
  lemma ReachFrame(h: seq<Cell>, g: seq<Cell>, roots: set<int>)
    requires |h| == |g|
    requires forall p | 0 <= p < |h| :: h[p].mark == g[p].mark
    requires forall p | p in Reach(h, roots) :: h[p].Same(g[p])
    ensures Reach(g, roots) == Reach(h, roots)
  {
    ReachClosed(h, roots);
    ReachClosed(g, roots);
    Confined(h, g, roots, Reach(h, roots));
    Confined(g, h, roots, Reach(g, roots));
  }

  /** A set that is closed in h and whose cells have the same links in g bounds Reach(g). */
  lemma Confined(h: seq<Cell>, g: seq<Cell>, roots: set<int>, s: set<int>)
    requires |h| == |g| && Closed(h, s) && Holds(h, roots, s)
    requires forall p | 0 <= p < |h| :: h[p].mark == g[p].mark
    requires forall p | p in s :: h[p].Same(g[p])
    ensures Reach(g, roots) <= s
  {
    forall p, q | p in s && q in g[p].Links() && Open(g, q) ensures q in s {
      assert h[p].Same(g[p]) && Open(h, q);
    }
    forall r | r in roots && Open(g, r) ensures r in s {
      assert Open(h, r);
    }
    ReachLeast(g, roots, s);
  }

  lemma ReachMonotone(h: seq<Cell>, small: set<int>, big: set<int>)
    requires small <= big
    ensures Reach(h, small) <= Reach(h, big)
  {
    ReachClosed(h, big);
    ReachLeast(h, small, Reach(h, big));
  }
}
