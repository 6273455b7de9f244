/** Giving blocks new labels, and why no run can tell the difference (compiler/back-end.rkt). */
module Renumbering {
  import opened Blocks

  /** fix: an instruction with its labels replaced by the blocks' new names. */
  function Fix(bbs: seq<Block>, i: Instr): Instr
    requires forall l | l in i.Refs() :: l < |bbs|
  {
    match i
    case Closure(l) => assert l in i.Refs(); Closure(bbs[l].name)
    case CallToplevel(l) => assert l in i.Refs(); CallToplevel(bbs[l].name)
    case JumpToplevel(l) => assert l in i.Refs(); JumpToplevel(bbs[l].name)
    case Goto(l) => assert l in i.Refs(); Goto(bbs[l].name)
    case GotoIfFalse(f, t) => assert f in i.Refs() && t in i.Refs(); GotoIfFalse(bbs[f].name, bbs[t].name)
    case _ => i
  }

  ghost predicate InRange(bbs: seq<Block>, rev: seq<Instr>) {
    forall k, l | 0 <= k < |rev| && l in rev[k].Refs() :: l < |bbs|
  }

  function FixAll(bbs: seq<Block>, rev: seq<Instr>): (r: seq<Instr>)
    requires InRange(bbs, rev)
    ensures |r| == |rev|
    ensures forall k | 0 <= k < |rev| :: r[k] == Fix(bbs, rev[k])
  {
    seq(|rev|, k requires 0 <= k < |rev| => Fix(bbs, rev[k]))
  }

  /** order lists the labels that stay, each at the position of its new name. */
  ghost predicate Ordered(bbs: seq<Block>, order: seq<nat>) {
    forall i | 0 <= i < |order| :: order[i] < |bbs| && bbs[order[i]].name == i && InRange(bbs, bbs[order[i]].rev)
  }

  /** The new block i is the old block order[i] with its labels replaced. */
  ghost predicate Renumbered(bbs: seq<Block>, order: seq<nat>, new_: seq<Block>) {
    && Ordered(bbs, order) && |new_| == |order|
    && forall i | 0 <= i < |order| :: new_[i] == Block(i, FixAll(bbs, bbs[order[i]].rev))
  }

  /** Block l stays, and no later block that stays has its name. */
  ghost predicate LastNamed(bbs: seq<Block>, refCounts: seq<nat>, l: nat)
    requires l < |bbs| == |refCounts|
  {
    refCounts[l] > 0 && forall k | l < k < |bbs| && refCounts[k] > 0 :: bbs[k].name != bbs[l].name
  }

  /** renumber-labels: blocks go to the places that their names give them, later ones over earlier ones. */
  method RenumberLabels(bbs: seq<Block>, refCounts: seq<nat>, n: nat) returns (r: seq<Block>)
    requires |refCounts| == |bbs|
    requires forall l | 0 <= l < |bbs| && refCounts[l] > 0 :: bbs[l].name < n && InRange(bbs, bbs[l].rev)
    ensures |r| == n
    ensures forall l: nat | l < |bbs| && LastNamed(bbs, refCounts, l) ::
      r[bbs[l].name] == Block(bbs[l].name, FixAll(bbs, bbs[l].rev))
  {
    var v := new Block[n](_ => Block(0, []));
    for l := 0 to |bbs|
      invariant forall k | 0 <= k < l && refCounts[k] > 0 ::
        v[bbs[k].name] == Block(bbs[k].name, FixAll(bbs, bbs[k].rev)) ||
        exists j :: k < j < l && refCounts[j] > 0 && bbs[j].name == bbs[k].name
    {
      if refCounts[l] > 0 {
        var b := bbs[l];
        v[b.name] := Block(b.name, FixAll(bbs, b.rev));
      }
    }
    r := v[..];
  }

  /** With a name for each, all of them stay. */
  lemma AllRenumbered(bbs: seq<Block>, refCounts: seq<nat>, order: seq<nat>, r: seq<Block>)
    requires Ordered(bbs, order) && |refCounts| == |bbs| && |r| == |order|
    requires forall l | 0 <= l < |bbs| :: refCounts[l] > 0 <==> l in order
    requires forall l: nat | l < |bbs| && LastNamed(bbs, refCounts, l) ::
      bbs[l].name < |r| && InRange(bbs, bbs[l].rev) ==> r[bbs[l].name] == Block(bbs[l].name, FixAll(bbs, bbs[l].rev))
    ensures Renumbered(bbs, order, r)
  {
    forall i | 0 <= i < |order| ensures r[i] == Block(i, FixAll(bbs, bbs[order[i]].rev)) {
      var l := order[i];
      assert l in order && bbs[l].name == i;
      forall k | l < k < |bbs| && refCounts[k] > 0 ensures bbs[k].name != i {
        var j :| 0 <= j < |order| && order[j] == k;
        assert bbs[order[j]].name == j;
      }
      assert LastNamed(bbs, refCounts, l);
    }
  }

  /** Data that differ in the names of labels only. */
  ghost predicate Alike<D(!new)>(w: World<D>, bbs: seq<Block>, live: set<nat>, rel: (D, D) -> bool) {
    && (forall l | l in live :: l < |bbs|)
    && (forall i: Instr, d, e | rel(d, e) && i.Refs() <= live :: rel(w.exec(i, d), w.exec(Fix(bbs, i), e)))
    && (forall d, e | rel(d, e) ::
          && w.truth(d) == w.truth(e) && rel(w.drop(d), w.drop(e))
          && (w.callee(d) in w.labels(d) <==> w.callee(e) in w.labels(e))
          && (w.callee(d) in w.labels(d) ==> w.callee(d) in live && w.callee(e) == bbs[w.callee(d)].name))
  }

  ghost predicate SamePoint(bbs: seq<Block>, live: set<nat>, p: Point, q: Point) {
    p.block in live && p.block < |bbs| && q == Point(bbs[p.block].name, p.index)
  }

  ghost predicate Corresponds<D>(bbs: seq<Block>, live: set<nat>, rel: (D, D) -> bool, s: State<Point, D>,
                                 t: State<Point, D>) {
    && SamePoint(bbs, live, s.at, t.at) && rel(s.d, t.d)
    && |s.conts| == |t.conts| && forall i | 0 <= i < |s.conts| :: SamePoint(bbs, live, s.conts[i], t.conts[i])
  }

  /** One step of the old blocks is one step of the new ones. */
  lemma SameStep<D(!new)>(w: World<D>, bbs: seq<Block>, order: seq<nat>, r: seq<Block>, live: set<nat>,
                          rel: (D, D) -> bool, s: State<Point, D>, t: State<Point, D>)
    requires Renumbered(bbs, order, r) && ClosedLabels(bbs, live) && (forall l: nat :: l in live <==> l in order)
    requires Alike(w, bbs, live, rel) && Corresponds(bbs, live, rel, s, t)
    ensures var a, b := BlockStep(w, bbs, s), BlockStep(w, r, t);
      match a
      case Running(s') => b.Running? && Corresponds(bbs, live, rel, s', b.s)
      case Halted(d) => b.Halted? && rel(d, b.d)
      case Stuck => b.Stuck?
  {
    var l, k := s.at.block, s.at.index;
    var x :| 0 <= x < |order| && order[x] == l;
    assert r[x] == Block(x, FixAll(bbs, bbs[l].rev));
    if k < |bbs[l].rev| {
      var i := bbs[l].Nth(k);
      assert r[x].Nth(k) == Fix(bbs, i);
      assert i.Refs() <= bbs[l].Refs() <= live;
      SameInstr(w, bbs, r, live, rel, s, t, i);
    }
  }

  lemma SameInstr<D(!new)>(w: World<D>, bbs: seq<Block>, r: seq<Block>, live: set<nat>,
                           rel: (D, D) -> bool, s: State<Point, D>, t: State<Point, D>, i: Instr)
    requires Alike(w, bbs, live, rel) && Corresponds(bbs, live, rel, s, t) && i.Refs() <= live
    requires s.at.index < |bbs[s.at.block].rev| && i == bbs[s.at.block].Nth(s.at.index)
    requires t.at.block < |r| && t.at.index < |r[t.at.block].rev| && r[t.at.block].Nth(t.at.index) == Fix(bbs, i)
    ensures var a, b := BlockStep(w, bbs, s), BlockStep(w, r, t);
      match a
      case Running(s') => b.Running? && Corresponds(bbs, live, rel, s', b.s)
      case Halted(d) => b.Halted? && rel(d, b.d)
      case Stuck => b.Stuck?
  {
    assert rel(w.exec(i, s.d), w.exec(Fix(bbs, i), t.d));
    match i
    case CallToplevel(l) => assert l in i.Refs();
    case JumpToplevel(l) => assert l in i.Refs();
    case Goto(l) => assert l in i.Refs();
    case GotoIfFalse(f, g) => assert f in i.Refs() && g in i.Refs();
    case _ =>
  }

  /** So whole runs are the same, step for step, to the same end. */
  lemma {:induction false} SameRun<D(!new)>(w: World<D>, bbs: seq<Block>, order: seq<nat>, r: seq<Block>,
                                     live: set<nat>,
                                            rel: (D, D) -> bool, s: State<Point, D>, t: State<Point, D>, n: nat)
    requires Renumbered(bbs, order, r) && ClosedLabels(bbs, live) && (forall l: nat :: l in live <==> l in order)
    requires Alike(w, bbs, live, rel) && Corresponds(bbs, live, rel, s, t)
    ensures var a, b := BlockRun(w, bbs, s, n), BlockRun(w, r, t, n);
      match a
      case Running(s') => b.Running? && Corresponds(bbs, live, rel, s', b.s)
      case Halted(d) => b.Halted? && rel(d, b.d)
      case Stuck => b.Stuck?
    decreases n
  {
    hide Renumbered, ClosedLabels, Alike, Corresponds, BlockStep;
    if n > 0 {
      SameStep(w, bbs, order, r, live, rel, s, t);
      var a, b := BlockStep(w, bbs, s), BlockStep(w, r, t);
      if a.Running? {
        SameRun(w, bbs, order, r, live, rel, a.s, b.s, n - 1);
      }
    }
  }
}
