/** The pointer-reversing marker of main/mm.c, one step at a time.

    The links of the cells on the way from the root to the current cell are turned round to
    point at their parent.  A cell whose flip bit is clear keeps its parent in its left link;
    once its left part is finished, the flip bit is set and the parent moves to the right link. */
module Marking {
  import opened Cells

  ghost predicate Upright(h: seq<Cell>) {
    forall i | 0 <= i < |h| :: !h[i].flip
  }

  ghost predicate Settled(h: seq<Cell>, cur: int) {
    0 <= cur < |h| ==> h[cur].mark
  }

  ghost predicate LinksSettled(o: seq<Cell>, h: seq<Cell>, i: int)
    requires 0 <= i < |o|
  {
    forall q | q in o[i].Links() :: Settled(h, q)
  }

  function Down(st: seq<Word>, cur: Word, k: int): Word
    requires 0 <= k < |st|
  {
    if k + 1 < |st| then st[k + 1] else cur
  }

  /** The k-th cell of the path: its own links are turned towards its parent, and the original
      ones lead to its successor. */
  ghost predicate OnPath(o: seq<Cell>, h: seq<Cell>, st: seq<Word>, cur: Word, k: int)
    requires |o| == |h| && 0 <= k < |st|
  {
    var s := st[k];
    && s < |h| && h[s].mark && !o[s].mark && h[s].typ == o[s].typ
    && if h[s].flip then
      && h[s].HasRightLink()
      && h[s].cdr == Up(st, k) && o[s].cdr == Down(st, cur, k)
      && h[s].car == o[s].car && Settled(h, o[s].car)
    else
      && h[s].HasLeftLink()
      && h[s].car == Up(st, k) && o[s].car == Down(st, cur, k)
      && h[s].cdr == o[s].cdr
  }

  ghost predicate OffPath(o: seq<Cell>, h: seq<Cell>, i: int)
    requires 0 <= i < |o| == |h|
  {
    && h[i].Same(o[i]) && !h[i].flip
    && (h[i].mark && !o[i].mark ==> LinksSettled(o, h, i))
  }

  /** The marker's invariant: o is the heap on entry, p the root, st the path, cur the current
      address. */
  ghost predicate Inv(o: seq<Cell>, h: seq<Cell>, p: Word, st: seq<Word>, cur: Word) {
    && |o| == |h| < ROM_START
    && Distinct(st)
    && (forall k | 0 <= k < |st| :: OnPath(o, h, st, cur, k))
    && (forall i | 0 <= i < |o| && i !in st :: OffPath(o, h, i))
    && (forall i | 0 <= i < |o| && o[i].mark :: h[i].mark)
    && (forall i | 0 <= i < |o| && h[i].mark && !o[i].mark :: i in Reach(o, {p}))
    && p == (if |st| == 0 then cur else st[0])
  }

  ghost function Unmarked(h: seq<Cell>): set<int> {
    set i | 0 <= i < |h| && !h[i].mark
  }

  ghost function Unflipped(h: seq<Cell>, st: seq<Word>): set<Word> {
    set s | s in st && s < |h| && !h[s].flip
  }

  ghost predicate Less(g: seq<Cell>, st': seq<Word>, h: seq<Cell>, st: seq<Word>) {
    || Unmarked(g) < Unmarked(h)
    || (Unmarked(g) == Unmarked(h) && |st'| < |st|)
  }

  /** The current address, if it still has to be visited, is reachable from the root. */
  lemma CurrentReachable(o: seq<Cell>, h: seq<Cell>, p: Word, st: seq<Word>, cur: Word)
    requires Inv(o, h, p, st, cur) && !Settled(h, cur)
    ensures cur in Reach(o, {p})
  {
    ReachClosed(o, {p});
    assert Open(o, cur);
    if |st| > 0 {
      var s := st[|st| - 1];
      assert OnPath(o, h, st, cur, |st| - 1);
      assert cur in o[s].Links() && s in Reach(o, {p});
    }
  }

  lemma Start(o: seq<Cell>, p: Word)
    requires |o| < ROM_START && Upright(o)
    ensures Inv(o, o, p, [], p)
  {}

  lemma Flipped(o: seq<Cell>, h: seq<Cell>, p: Word, st: seq<Word>, cur: Word)
    requires Inv(o, h, p, st, cur) && |st| > 0
    ensures var s := st[|st| - 1]; s < |h| && (h[s].flip ==> h[s].HasRightLink())
  {
    assert OnPath(o, h, st, cur, |st| - 1);
  }

  /** Entering an unmarked cell with a left link. */
  lemma Push(o: seq<Cell>, h: seq<Cell>, p: Word, st: seq<Word>, cur: Word, g: seq<Cell>)
    requires Inv(o, h, p, st, cur) && !Settled(h, cur) && h[cur].HasLeftLink()
    requires g == h[cur := h[cur].(mark := true, car := Up(st, |st|))]
    ensures Inv(o, g, p, st + [cur], h[cur].car)
    ensures cur in Unmarked(h) && Unmarked(g) == Unmarked(h) - {cur as int}
  {
    CurrentReachable(o, h, p, st, cur);
    forall k | 0 <= k < |st| ensures st[k] != cur {
      assert OnPath(o, h, st, cur, k);
    }
    var st', cur' := st + [cur], h[cur].car;
    forall k | 0 <= k < |st'| ensures OnPath(o, g, st', cur', k) {
      if k < |st| {
        assert OnPath(o, h, st, cur, k);
      } else {
        assert OffPath(o, h, cur);
      }
    }
    forall i | 0 <= i < |o| && i !in st' ensures OffPath(o, g, i) {
      assert i !in st && OffPath(o, h, i);
    }
  }

  /** Entering an unmarked cell without links: it stays the current one. */
  lemma Visit(o: seq<Cell>, h: seq<Cell>, p: Word, st: seq<Word>, cur: Word, g: seq<Cell>)
    requires Inv(o, h, p, st, cur) && !Settled(h, cur) && !h[cur].HasLeftLink()
    requires g == h[cur := h[cur].(mark := true)]
    ensures Inv(o, g, p, st, cur)
    ensures cur in Unmarked(h) && Unmarked(g) == Unmarked(h) - {cur as int}
  {
    CurrentReachable(o, h, p, st, cur);
    forall k | 0 <= k < |st| ensures st[k] != cur {
      assert OnPath(o, h, st, cur, k);
    }
    forall k | 0 <= k < |st| ensures OnPath(o, g, st, cur, k) {
      assert OnPath(o, h, st, cur, k);
    }
    forall i | 0 <= i < |o| && i !in st ensures OffPath(o, g, i) {
      assert OffPath(o, h, i);
    }
  }

  /** Leaving a cell, through its right link once that part is finished, or through its left
      link when it has no other: the link down is put back. */
  lemma Leave(o: seq<Cell>, h: seq<Cell>, p: Word, st: seq<Word>, cur: Word, g: seq<Cell>)
    requires Inv(o, h, p, st, cur) && Settled(h, cur) && |st| > 0
    requires st[|st| - 1] < |h|
    requires var s := st[|st| - 1];
      g == if h[s].flip then h[s := h[s].(flip := false, cdr := cur)] else h[s := h[s].(car := cur)]
    requires h[st[|st| - 1]].flip || !h[st[|st| - 1]].HasRightLink()
    ensures var s := st[|st| - 1]; (if h[s].flip then h[s].cdr else h[s].car) == Up(st, |st| - 1)
    ensures Inv(o, g, p, st[..|st| - 1], st[|st| - 1])
    ensures Unmarked(g) == Unmarked(h) && Settled(g, st[|st| - 1])
  {
    var n := |st| - 1;
    var s, st' := st[n], st[..n];
    assert OnPath(o, h, st, cur, n);
    forall k | 0 <= k < n ensures OnPath(o, g, st', s, k) {
      assert OnPath(o, h, st, cur, k);
    }
    forall i | 0 <= i < |o| && i !in st' ensures OffPath(o, g, i) {
      if i != s {
        assert i !in st && OffPath(o, h, i);
      }
    }
  }

  /** The left part is finished: remember it with the flip bit and go right. */
  lemma Turn(o: seq<Cell>, h: seq<Cell>, p: Word, st: seq<Word>, cur: Word, g: seq<Cell>)
    requires Inv(o, h, p, st, cur) && Settled(h, cur) && |st| > 0
    requires st[|st| - 1] < |h| && !h[st[|st| - 1]].flip && h[st[|st| - 1]].HasRightLink()
    requires var s := st[|st| - 1]; g == h[s := h[s].(car := cur, flip := true, cdr := h[s].car)]
    ensures Inv(o, g, p, st, h[st[|st| - 1]].cdr)
    ensures Unmarked(g) == Unmarked(h) && Unflipped(g, st) < Unflipped(h, st)
  {
    var n := |st| - 1;
    var s := st[n];
    assert OnPath(o, h, st, cur, n);
    forall k | 0 <= k < |st| ensures OnPath(o, g, st, h[s].cdr, k) {
      assert OnPath(o, h, st, cur, k);
    }
    forall i | 0 <= i < |o| && i !in st ensures OffPath(o, g, i) {
      assert OffPath(o, h, i);
    }
    assert s in Unflipped(h, st) && s !in Unflipped(g, st);
  }

  /** The path is gone: every link is back and exactly the right cells have been marked. */
  ghost predicate Marked(o: seq<Cell>, h: seq<Cell>, roots: set<int>) {
    && |h| == |o|
    && (forall i | 0 <= i < |o| :: h[i].Same(o[i]) && !h[i].flip)
    && (forall i | 0 <= i < |o| :: h[i].mark <==> o[i].mark || i in Reach(o, roots))
  }

  ghost predicate Blank(h: seq<Cell>) {
    forall i | 0 <= i < |h| :: !h[i].mark
  }

  lemma Finish(o: seq<Cell>, h: seq<Cell>, p: Word, st: seq<Word>, cur: Word)
    requires Inv(o, h, p, st, cur) && Settled(h, cur) && Up(st, |st|) >= |h|
    ensures Marked(o, h, {p})
  {
    assert |st| > 0 ==> OnPath(o, h, st, cur, |st| - 1);
    forall i | 0 <= i < |o| ensures h[i].Same(o[i]) && !h[i].flip {
      assert OffPath(o, h, i);
    }
    var s := set i | 0 <= i < |o| && h[i].mark && !o[i].mark;
    forall a, q | a in s && q in o[a].Links() && Open(o, q) ensures q in s {
      assert OffPath(o, h, a);
    }
    ReachLeast(o, {p}, s);
    ReachClosed(o, {p});
  }

  lemma MarkNone(o: seq<Cell>)
    requires Upright(o)
    ensures Marked(o, o, {}) && (Blank(o) ==> |Unmarked(o)| == |o|)
  {
    ReachLeast(o, {}, {});
    if Blank(o) {
      CountUp(|o|, Unmarked(o));
    }
  }

  lemma {:induction false} CountUp(n: nat, s: set<int>)
    requires forall i :: i in s <==> 0 <= i < n
    ensures |s| == n
  {
    if n == 0 {
      assert forall i :: i !in s;
    } else {
      assert n - 1 in s;
      CountUp(n - 1, s - {n - 1});
    }
  }

  /** Marking from one more root adds exactly the cells which that root reaches in the unmarked
      heap and which no earlier root did. */
  lemma MarkMore(o: seq<Cell>, h: seq<Cell>, g: seq<Cell>, roots: set<int>, p: Word)
    requires Blank(o) && Marked(o, h, roots) && Marked(h, g, {p})
    ensures Marked(o, g, roots + {p})
  {
    NothingLost(o, h, roots, p);
    NothingElse(o, h, roots, p);
    ReachMonotone(o, roots, roots + {p});
  }

  lemma NothingLost(o: seq<Cell>, h: seq<Cell>, roots: set<int>, p: Word)
    requires Blank(o) && Marked(o, h, roots)
    ensures Reach(o, roots + {p}) <= Reach(o, roots) + Reach(h, {p})
  {
    var s := Reach(o, roots) + Reach(h, {p});
    ReachClosed(o, roots);
    ReachClosed(h, {p});
    forall a, q | a in s && q in o[a].Links() && Open(o, q) ensures q in s {
      assert h[a].Same(o[a]) && (h[q].mark || Open(h, q));
    }
    forall q | q in roots + {p} && Open(o, q) ensures q in s {
      assert h[q].mark || Open(h, q);
    }
    ReachLeast(o, roots + {p}, s);
  }

  lemma NothingElse(o: seq<Cell>, h: seq<Cell>, roots: set<int>, p: Word)
    requires Blank(o) && Marked(o, h, roots)
    ensures Reach(h, {p}) <= Reach(o, roots + {p})
  {
    var s := Reach(o, roots + {p});
    ReachClosed(o, roots + {p});
    forall a, q | a in s && q in h[a].Links() && Open(h, q) ensures q in s {
      assert h[a].Same(o[a]) && Open(o, q);
    }
    assert Open(h, p) ==> Open(o, p);
    ReachLeast(h, {p}, s);
  }
}
