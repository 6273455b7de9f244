/** The stages one after the other: shaking, reordering, linearizing (compiler/code-gen.rkt hands
    its blocks to tree-shake!, and the scheduler works on what is left). */
module Backend {
  import opened Blocks
  import opened Linearizing
  import opened Renumbering
  import opened Reordering
  import opened Scheduling
  import TreeShaker

  /** What tree shaking leaves: exactly the blocks that are needed. */
  ghost predicate Shaken(bbs0: seq<Block>, bbs: seq<Block>, order: seq<nat>, r: seq<Block>) {
    && |bbs| == |bbs0| && (forall l | 0 <= l < |bbs| :: bbs[l].rev == bbs0[l].rev)
    && Renumbered(bbs, order, r) && |order| > 0 && order[0] == 0
    && (forall l: nat :: l in order <==> l < |bbs0| && TreeShaker.Needed(bbs0, l))
  }

  /** A label in a needed block is needed, and has a place in the order. */
  lemma NeededPlace(bbs0: seq<Block>, bbs: seq<Block>, order: seq<nat>, r: seq<Block>, j: nat, k: nat, l: nat)
    requires Shaken(bbs0, bbs, order, r) && WellFormed(bbs0)
    requires j < |order| && k < |bbs0[order[j]].rev| && l in bbs0[order[j]].rev[k].Refs()
    ensures l < |bbs| && l in order && bbs[l].name < |order| && order[bbs[l].name] == l
  {
    var o := order[j];
    assert o in order;
    assert l in bbs0[o].Refs();
    assert WellFormedBlock(bbs0, bbs0[o]);
    TreeShaker.NeededRef(bbs0, o, l);
    var i :| 0 <= i < |order| && order[i] == l;
    assert bbs[order[i]].name == i;
  }

  lemma FixRefs(bbs: seq<Block>, i: Instr)
    requires !i.BranchIfFalse? && forall l | l in i.Refs() :: l < |bbs|
    ensures Fix(bbs, i).Refs() == set l | l in i.Refs() :: bbs[l].name
    ensures Fix(bbs, i).IsJump() == i.IsJump()
  {
    match i
    case GotoIfFalse(f, t) =>
      assert f in i.Refs() && t in i.Refs();
      assert Fix(bbs, i).Refs() == {bbs[f].name, bbs[t].name};
    case Closure(l) => assert l in i.Refs();
    case CallToplevel(l) => assert l in i.Refs();
    case JumpToplevel(l) => assert l in i.Refs();
    case Goto(l) => assert l in i.Refs();
    case _ =>
  }

  /** What is left is well formed again, */
  lemma ShakenWellFormed(bbs0: seq<Block>, bbs: seq<Block>, order: seq<nat>, r: seq<Block>)
    requires Shaken(bbs0, bbs, order, r) && WellFormed(bbs0)
    ensures WellFormed(r)
  {
    forall j | 0 <= j < |r| ensures WellFormedBlock(r, r[j]) {
      var rev := bbs0[order[j]].rev;
      assert WellFormedBlock(bbs0, bbs0[order[j]]);
      forall k, x | 0 <= k < |rev| && x in r[j].rev[k].Refs()
        ensures x < |r| && r[j].rev[k].IsJump() == rev[k].IsJump()
      {
        FixRefs(bbs, rev[k]);
        var l :| l in rev[k].Refs() && x == bbs[l].name;
        NeededPlace(bbs0, bbs, order, r, j, k, l);
      }
    }
  }

  /** and all of it is needed. */
  lemma ShakenNeeded(bbs0: seq<Block>, bbs: seq<Block>, order: seq<nat>, r: seq<Block>, j: nat)
    requires Shaken(bbs0, bbs, order, r) && WellFormed(bbs0) && j < |r|
    ensures TreeShaker.Needed(r, j)
  {
    forall s | ClosedLabels(r, s) && 0 in s ensures j in s {
      var s0: set<nat> := set l: nat | l in order && l < |bbs| && bbs[l].name in s;
      forall l | l in s0 ensures bbs0[l].Refs() <= s0 {
        var i :| 0 <= i < |order| && order[i] == l;
        forall x | x in bbs0[l].Refs() ensures x in s0 {
          var k :| 0 <= k < |bbs0[l].rev| && x in bbs0[l].rev[k].Refs();
          NeededPlace(bbs0, bbs, order, r, i, k, x);
          FixRefs(bbs, bbs0[l].rev[k]);
          assert bbs[x].name in r[i].rev[k].Refs();
          assert bbs[x].name in r[i].Refs();
        }
      }
      assert ClosedLabels(bbs0, s0) && order[0] in s0;
      assert order[j] in order;
      assert order[j] in s0;
    }
  }

  /** Both renamings in one. */
  ghost function Composed(bbs0: seq<Block>, bbs: seq<Block>, bbs2: seq<Block>): (r: seq<Block>)
    requires |bbs| == |bbs0|
    ensures |r| == |bbs0| && forall l | 0 <= l < |bbs0| :: r[l].rev == bbs0[l].rev
  {
    seq(|bbs0|, l requires 0 <= l < |bbs0| =>
      Block(if bbs[l].name < |bbs2| then bbs2[bbs[l].name].name else 0, bbs0[l].rev))
  }

  ghost function ComposedOrder(order: seq<nat>, order2: seq<nat>): (r: seq<nat>)
    requires forall i | 0 <= i < |order2| :: order2[i] < |order|
    ensures |r| == |order2|
  {
    seq(|order2|, i requires 0 <= i < |order2| => order[order2[i]])
  }

  /** Shaking and then reordering is one renaming of the needed blocks. */
  lemma RenumberedTwice(bbs0: seq<Block>, bbs: seq<Block>, order: seq<nat>, r: seq<Block>, bbs2: seq<Block>,
                        order2: seq<nat>, r2: seq<Block>)
    requires WellFormed(bbs0) && Shaken(bbs0, bbs, order, r)
    requires |bbs2| == |r| && (forall l | 0 <= l < |r| :: bbs2[l].rev == r[l].rev)
    requires Renumbered(bbs2, order2, r2) && Permutes(order2, |r|) && order2[0] == 0
    ensures Shaken(bbs0, Composed(bbs0, bbs, bbs2), ComposedOrder(order, order2), r2)
  {
    var c, o := Composed(bbs0, bbs, bbs2), ComposedOrder(order, order2);
    forall i: nat | i < |o|
      ensures o[i] < |c| && c[o[i]].name == i && InRange(c, c[o[i]].rev)
      ensures r2[i] == Block(i, FixAll(c, c[o[i]].rev))
    {
      BlockTwice(bbs0, bbs, order, r, bbs2, order2, r2, i);
    }
    forall l: nat ensures l in o <==> l in order {
      if l in order {
        var j: nat :| j < |order| && order[j] == l;
        assert j in order2;
        var i :| 0 <= i < |order2| && order2[i] == j;
        assert o[i] == l;
      }
    }
  }

  lemma BlockTwice(bbs0: seq<Block>, bbs: seq<Block>, order: seq<nat>, r: seq<Block>, bbs2: seq<Block>,
                   order2: seq<nat>, r2: seq<Block>, i: nat)
    requires WellFormed(bbs0) && Shaken(bbs0, bbs, order, r)
    requires |bbs2| == |r| && (forall l | 0 <= l < |r| :: bbs2[l].rev == r[l].rev)
    requires Renumbered(bbs2, order2, r2) && Permutes(order2, |r|) && i < |r2|
    ensures var c, l := Composed(bbs0, bbs, bbs2), order[order2[i]];
      l < |c| && c[l].name == i && InRange(c, c[l].rev) && r2[i] == Block(i, FixAll(c, c[l].rev))
  {
    var c, j := Composed(bbs0, bbs, bbs2), order2[i];
    assert order[j] in order && bbs[order[j]].name == j && bbs2[j].name == i;
    var rev := bbs0[order[j]].rev;
    assert InRange(bbs, rev);
    assert WellFormedBlock(bbs0, bbs0[order[j]]);
    forall k: nat | k < |rev| ensures Fix(bbs2, r[j].rev[k]) == Fix(c, rev[k]) {
      forall l | l in rev[k].Refs() ensures bbs[l].name < |bbs2| {
        NeededPlace(bbs0, bbs, order, r, j, k, l);
      }
      FixTwice(bbs, bbs2, c, rev[k]);
    }
    assert r2[i].rev == FixAll(c, rev);
  }

  lemma FixTwice(bbs: seq<Block>, bbs2: seq<Block>, c: seq<Block>, i: Instr)
    requires |c| == |bbs| && forall l | l in i.Refs() ::
      l < |bbs| && bbs[l].name < |bbs2| && c[l].name == bbs2[bbs[l].name].name
    requires forall l | l in Fix(bbs, i).Refs() :: l < |bbs2|
    ensures !i.BranchIfFalse? ==> Fix(bbs2, Fix(bbs, i)) == Fix(c, i)
  {
    match i
    case GotoIfFalse(f, t) => assert f in i.Refs() && t in i.Refs();
    case Closure(l) => assert l in i.Refs();
    case CallToplevel(l) => assert l in i.Refs();
    case JumpToplevel(l) => assert l in i.Refs();
    case Goto(l) => assert l in i.Refs();
    case _ =>
  }

  /** The whole back end on blocks. c records each needed block's final name. */
  method Compile(bbs0: seq<Block>)
      returns (code: seq<Item>, ghost c: seq<Block>, ghost order: seq<nat>, ghost r: seq<Block>,
               ghost start: map<nat, nat>)
    requires WellFormed(bbs0)
    ensures Shaken(bbs0, c, order, r) && WellFormed(r)
    ensures Layout(r, code, start) && Has(code, 0, At(0))
    ensures ClosedLabels(r, start.Keys) && forall l: nat | l < |r| :: l in start
  {
    var shaken, bbs, order1 := TreeShaker.RemoveUselessBlocks(bbs0);
    ShakenWellFormed(bbs0, bbs, order1, shaken);
    forall l: nat | l < |shaken| ensures TreeShaker.Needed(shaken, l) {
      ShakenNeeded(bbs0, bbs, order1, shaken, l);
    }
    var r', bbs2, order2 := Reorder(shaken);
    RenumberedTwice(bbs0, bbs, order1, shaken, bbs2, order2, r');
    c, order, r := Composed(bbs0, bbs, bbs2), ComposedOrder(order1, order2), r';
    ShakenWellFormed(bbs0, c, order, r);
    code, start := Linearize(r');
    forall l: nat | l < |r| ensures l in start {
      ShakenNeeded(bbs0, c, order, r, l);
    }
  }

  /** Runs do not look at names. */
  lemma {:induction false} NamesUnused<D(!new)>(w: World<D>, a: seq<Block>, b: seq<Block>, s: State<Point, D>, n: nat)
    requires |a| == |b| && forall l | 0 <= l < |a| :: a[l].rev == b[l].rev
    ensures BlockRun(w, a, s, n) == BlockRun(w, b, s, n)
    decreases n
  {
    if n > 0 {
      var o := BlockStep(w, a, s);
      assert o == BlockStep(w, b, s);
      if o.Running? {
        NamesUnused(w, a, b, o.s, n - 1);
      }
    }
  }

  ghost predicate SameEnd<D(!new)>(c: seq<Block>, live: set<nat>, rel: (D, D) -> bool,
                                   a: Outcome<State<Point, D>, D>, b: Outcome<State<Point, D>, D>) {
    match a
    case Running(s) => b.Running? && Corresponds(c, live, rel, s, b.s)
    case Halted(d) => b.Halted? && rel(d, b.d)
    case Stuck => b.Stuck?
  }

  ghost function Retained(order: seq<nat>): set<nat> {
    set l | l in order
  }

  lemma SameOutcome<D(!new)>(w: World<D>, bbs0: seq<Block>, c: seq<Block>, order: seq<nat>, r: seq<Block>,
                      rel: (D, D) -> bool,
                             d: D, e: D, n: nat)
    requires WellFormed(bbs0) && Shaken(bbs0, c, order, r)
    requires Alike(w, c, Retained(order), rel) && rel(d, e)
    ensures SameEnd(c, Retained(order), rel, BlockRun(w, bbs0, State(Point(0, 0), [], d), n),
                    BlockRun(w, r, State(Point(0, 0), [], e), n))
  {
    var live := Retained(order);
    var s, t := State(Point(0, 0), [], d), State(Point(0, 0), [], e);
    forall l | l in live ensures c[l].Refs() <= live {
      var i :| 0 <= i < |order| && order[i] == l;
      forall x | x in c[l].Refs() ensures x in live {
        var k :| 0 <= k < |c[l].rev| && x in c[l].rev[k].Refs();
        NeededPlace(bbs0, c, order, r, i, k, x);
      }
    }
    assert ClosedLabels(c, live) && order[0] in live && c[order[0]].name == 0;
    assert SamePoint(c, live, s.at, t.at);
    SameRun(w, c, order, r, live, rel, s, t, n);
    NamesUnused(w, bbs0, c, s, n);
  }

  /** From blocks to linear code: a program that ends gives the same result, up to the names of labels,
      before and after the back end; and one that never gets stuck ends in both forms or in neither. */
  lemma EndToEnd<D(!new)>(w: World<D>, bbs0: seq<Block>, c: seq<Block>, order: seq<nat>, r: seq<Block>, code: seq<Item>,
                          start: map<nat, nat>, rel: (D, D) -> bool, d: D, e: D)
    requires WellFormed(bbs0) && Shaken(bbs0, c, order, r) && WellFormed(r)
    requires Layout(r, code, start) && Has(code, 0, At(0)) && ClosedLabels(r, start.Keys) && 0 in start
    requires Lawful(w) && w.labels(e) == {} && Alike(w, c, Retained(order), rel) && rel(d, e)
    ensures forall x | BlocksEnd(w, bbs0, State(Point(0, 0), [], d), x) ::
      exists y :: rel(x, y) && LinearEnds(w, code, State(0, [], e), y)
    ensures NeverStuck(w, bbs0, State(Point(0, 0), [], d)) ==>
      forall y | LinearEnds(w, code, State(0, [], e), y) ::
        exists x :: rel(x, y) && BlocksEnd(w, bbs0, State(Point(0, 0), [], d), x)
  {
    var s, t := State(Point(0, 0), [], d), State(Point(0, 0), [], e);
    forall x | BlocksEnd(w, bbs0, s, x) ensures exists y :: rel(x, y) && LinearEnds(w, code, State(0, [], e), y) {
      var n: nat :| BlockRun(w, bbs0, s, n) == Halted(x);
      SameOutcome(w, bbs0, c, order, r, rel, d, e, n);
      var y := BlockRun(w, r, t, n).d;
      assert BlocksEnd(w, r, t, y);
      Linearized(w, r, code, start, e, y);
    }
    forall y | NeverStuck(w, bbs0, s) && LinearEnds(w, code, State(0, [], e), y)
      ensures exists x :: rel(x, y) && BlocksEnd(w, bbs0, s, x)
    {
      forall n: nat ensures !BlockRun(w, r, t, n).Stuck? {
        SameOutcome(w, bbs0, c, order, r, rel, d, e, n);
      }
      Linearized(w, r, code, start, e, y);
      var n: nat :| BlockRun(w, r, t, n) == Halted(y);
      SameOutcome(w, bbs0, c, order, r, rel, d, e, n);
      assert BlocksEnd(w, bbs0, s, BlockRun(w, bbs0, s, n).d);
    }
  }
}
