/** Basic-block scheduling: linear code with fall-through (compiler/scheduling.rkt). */
module Scheduling {
  import opened Blocks

  /** Where code holds the block b: its label at position p, then its instructions up to the jump,
      then one of the forms of the jump. */
  ghost predicate Placed(code: seq<Item>, b: Block, l: nat, p: nat) {
    && |b.rev| > 0 && p + |b.rev| <= |code|
    && code[p] == At(l)
    && (forall k: nat | k < |b.rev| - 1 :: code[p + 1 + k] == Do(b.Nth(k)))
    && JumpPlaced(code, b.rev[0], p + |b.rev|)
  }

  ghost predicate Has(code: seq<Item>, p: nat, x: Item) {
    p < |code| && code[p] == x
  }

  ghost predicate JumpPlaced(code: seq<Item>, jump: Instr, p: nat) {
    match jump
    case Goto(t) => Has(code, p, Do(jump)) || Has(code, p, At(t))
    case GotoIfFalse(f, t) =>
      || (Has(code, p, Do(BranchIfFalse(f))) && (Has(code, p + 1, At(t)) || Has(code, p + 1, Do(Goto(t)))))
      || (Has(code, p, Do(Not)) && Has(code, p + 1, Do(BranchIfFalse(t))) && Has(code, p + 2, At(f)))
    case _ => Has(code, p, Do(jump))
  }

  /** Every block of start is in the code, once, at its position; and nothing else is labelled. */
  ghost predicate Layout(bbs: seq<Block>, code: seq<Item>, start: map<nat, nat>) {
    && (forall l | l in start :: l < |bbs| && Placed(code, bbs[l], l, start[l]))
    && (forall p: nat | p < |code| && code[p].At? :: code[p].name in start && start[code[p].name] == p)
  }

  lemma {:induction false} TargetFound(code: seq<Item>, l: nat, p: nat)
    requires p < |code| && code[p] == At(l)
    requires forall q: nat | q < p :: code[q] != At(l)
    ensures Target(code, l) == p + 1
  {
    if p > 0 {
      assert code[0] != At(l);
      forall q: nat | q < p - 1 ensures code[1..][q] != At(l) {
        assert code[1..][q] == code[q + 1];
      }
      TargetFound(code[1..], l, p - 1);
    }
  }

  lemma TargetIs(bbs: seq<Block>, code: seq<Item>, start: map<nat, nat>, l: nat)
    requires Layout(bbs, code, start) && l in start
    ensures Target(code, l) == start[l] + 1
  {
    assert Placed(code, bbs[l], l, start[l]);
    TargetFound(code, l, start[l]);
  }

  function Spot(start: map<nat, nat>, p: Point): nat
    requires p.block in start
  {
    start[p.block] + 1 + p.index
  }

  /** The two machines agree: same data, and corresponding control points. */
  ghost predicate Agree<D>(w: World<D>, start: map<nat, nat>, b: State<Point, D>, s: State<nat, D>) {
    && b.d == s.d && w.labels(b.d) <= start.Keys
    && b.at.block in start && s.at == Spot(start, b.at)
    && |b.conts| == |s.conts|
    && forall i | 0 <= i < |b.conts| :: b.conts[i].block in start && s.conts[i] == Spot(start, b.conts[i])
  }

  ghost predicate StepsTo<D(!new)>(w: World<D>, code: seq<Item>, s: State<nat, D>, t: State<nat, D>) {
    exists n: nat :: 1 <= n <= 3 && LinearRun(w, code, s, n) == Running(t)
  }

  lemma OneStep<D(!new)>(w: World<D>, code: seq<Item>, s: State<nat, D>, t: State<nat, D>)
    requires LinearStep(w, code, s) == Running(t)
    ensures StepsTo(w, code, s, t)
  {
    assert LinearRun(w, code, s, 1) == Running(t);
  }

  lemma TwoSteps<D(!new)>(w: World<D>, code: seq<Item>, s: State<nat, D>, u: State<nat, D>, t: State<nat, D>)
    requires LinearStep(w, code, s) == Running(u) && LinearStep(w, code, u) == Running(t)
    ensures StepsTo(w, code, s, t)
  {
    assert LinearRun(w, code, u, 1) == Running(t);
    assert LinearRun(w, code, s, 2) == Running(t);
  }

  lemma ThreeSteps<D(!new)>(w: World<D>, code: seq<Item>, s: State<nat, D>, u: State<nat, D>, v: State<nat, D>,
                            t: State<nat, D>)
    requires LinearStep(w, code, s) == Running(u) && LinearStep(w, code, u) == Running(v)
    requires LinearStep(w, code, v) == Running(t)
    ensures StepsTo(w, code, s, t)
  {
    assert LinearRun(w, code, v, 1) == Running(t);
    assert LinearRun(w, code, u, 2) == Running(t);
    assert LinearRun(w, code, s, 3) == Running(t);
  }

  /** One step of the blocks is one to three steps of the linear code: an omitted goto falls into
      its target, and all forms of a conditional branch reach the same block. */
  lemma Simulate<D(!new)>(w: World<D>, bbs: seq<Block>, code: seq<Item>, start: map<nat, nat>, b: State<Point, D>,
                          s: State<nat, D>)
      returns (t: State<nat, D>)
    requires Lawful(w) && WellFormed(bbs) && Layout(bbs, code, start) && ClosedLabels(bbs, start.Keys)
    requires Agree(w, start, b, s) && BlockStep(w, bbs, b).Running?
    ensures Agree(w, start, BlockStep(w, bbs, b).s, t) && StepsTo(w, code, s, t)
  {
    hide Lawful;
    var l, k := b.at.block, b.at.index;
    var i := bbs[l].Nth(k);
    assert Placed(code, bbs[l], l, start[l]) && WellFormedBlock(bbs, bbs[l]);
    RefsOf(bbs[l], bbs[l].rev, |bbs[l].rev| - 1 - k);
    forall x: nat | x in start ensures Target(code, x) == start[x] + 1 {
      TargetIs(bbs, code, start, x);
    }
    if i.GotoIfFalse? {
      t := SimulateBranch(w, code, start, b, s, i.ifFalse, i.ifTrue);
    } else if i.Goto? && code[s.at].At? {
      t := s.(at := s.at + 1);
      assert start[i.dest] == s.at;
      OneStep(w, code, s, t);
    } else {
      assert code[s.at] == Do(i);
      hide Placed, Layout, WellFormed, WellFormedBlock, ClosedLabels, Target;
      t := SimulateSame(w, bbs, code, start, b, s, i);
    }
  }

  /** An instruction that is the same in both. */
  lemma SimulateSame<D(!new)>(w: World<D>, bbs: seq<Block>, code: seq<Item>, start: map<nat, nat>, b: State<Point, D>,
                              s: State<nat, D>, i: Instr)
      returns (t: State<nat, D>)
    requires Lawful(w) && Agree(w, start, b, s) && i.Refs() <= start.Keys
    requires b.at.block < |bbs| && b.at.index < |bbs[b.at.block].rev| && i == bbs[b.at.block].Nth(b.at.index)
    requires s.at < |code| && code[s.at] == Do(i) && !i.GotoIfFalse?
    requires forall x: nat | x in start :: Target(code, x) == start[x] + 1
    requires BlockStep(w, bbs, b).Running?
    ensures Agree(w, start, BlockStep(w, bbs, b).s, t) && StepsTo(w, code, s, t)
  {
    t := LinearStep(w, code, s).s;
    OneStep(w, code, s, t);
    match i
    case Return =>
    case CallToplevel(x) => assert x in i.Refs();
    case JumpToplevel(x) => assert x in i.Refs();
    case Goto(x) => assert x in i.Refs();
    case Closure(x) => assert x in i.Refs();
    case _ =>
  }

  lemma RefsOf(b: Block, rev: seq<Instr>, i: nat)
    requires rev == b.rev && i < |rev|
    ensures rev[i].Refs() <= b.Refs()
  {}

  lemma SimulateBranch<D(!new)>(w: World<D>, code: seq<Item>, start: map<nat, nat>, b: State<Point, D>, s: State<nat,
                         D>,
                                f: nat, t: nat)
      returns (r: State<nat, D>)
    requires Lawful(w) && Agree(w, start, b, s) && f in start && t in start
    requires JumpPlaced(code, GotoIfFalse(f, t), s.at)
    requires Target(code, f) == start[f] + 1 && Target(code, t) == start[t] + 1
    requires forall p: nat | p < |code| && code[p].At? :: code[p].name in start && start[code[p].name] == p
    ensures Agree(w, start, State(Point(if w.truth(b.d) then t else f, 0), b.conts, w.drop(b.d)), r)
    ensures StepsTo(w, code, s, r)
  {
    var dest := if w.truth(s.d) then t else f;
    r := State(start[dest] + 1, s.conts, w.drop(s.d));
    if code[s.at] == Do(Not) {
      var u := LinearStep(w, code, s).s;
      var v := LinearStep(w, code, u).s;
      assert w.truth(u.d) == !w.truth(s.d) && v.d == r.d;
      if w.truth(s.d) {
        TwoSteps(w, code, s, u, r);
      } else {
        ThreeSteps(w, code, s, u, v, r);
      }
    } else {
      var u := LinearStep(w, code, s).s;
      if w.truth(s.d) {
        TwoSteps(w, code, s, u, r);
      } else {
        OneStep(w, code, s, r);
      }
    }
  }

  lemma {:induction false} LinearSplit<D(!new)>(w: World<D>, code: seq<Item>, s: State<nat, D>, m: nat, n: nat)
    ensures var o := LinearRun(w, code, s, m);
      LinearRun(w, code, s, m + n) == if o.Running? then LinearRun(w, code, o.s, n) else o
    decreases m
  {
    if m > 0 {
      var o := LinearStep(w, code, s);
      if o.Running? {
        LinearSplit(w, code, o.s, m - 1, n);
      }
    }
  }

  /** n steps of the blocks are at least n steps of linear code, to an agreeing state. */
  lemma {:induction false} SimulatesRun<D(!new)>(w: World<D>, bbs: seq<Block>, code: seq<Item>, start: map<nat, nat>,
                                                 b: State<Point, D>, s: State<nat, D>, n: nat)
      returns (m: nat, t: State<nat, D>)
    requires Lawful(w) && WellFormed(bbs) && Layout(bbs, code, start) && ClosedLabels(bbs, start.Keys)
    requires Agree(w, start, b, s) && BlockRun(w, bbs, b, n).Running?
    ensures m >= n && LinearRun(w, code, s, m) == Running(t) && Agree(w, start, BlockRun(w, bbs, b, n).s, t)
    decreases n
  {
    hide Lawful, WellFormed, Layout, ClosedLabels, Agree, LinearStep, BlockStep;
    if n == 0 {
      m, t := 0, s;
    } else {
      var u := Simulate(w, bbs, code, start, b, s);
      var k: nat :| 1 <= k <= 3 && LinearRun(w, code, s, k) == Running(u);
      m, t := SimulatesRun(w, bbs, code, start, BlockStep(w, bbs, b).s, u, n - 1);
      LinearSplit(w, code, s, k, m);
      m := k + m;
    }
  }

  /** An operation of a block is where the layout says. */
  lemma OpThere(bbs: seq<Block>, code: seq<Item>, start: map<nat, nat>, p: Point)
    requires Layout(bbs, code, start) && p.block in start && p.block < |bbs| && p.index < |bbs[p.block].rev|
    requires bbs[p.block].Nth(p.index).Op?
    ensures Has(code, Spot(start, p), Do(bbs[p.block].Nth(p.index)))
  {
    var b := bbs[p.block];
    assert Placed(code, b, p.block, start[p.block]);
    assert b.Nth(p.index) == b.rev[|b.rev| - 1 - p.index];
  }

  lemma HaltsAlike<D(!new)>(w: World<D>, bbs: seq<Block>, code: seq<Item>, start: map<nat, nat>, b: State<Point, D>,
                            s: State<nat, D>)
    requires Layout(bbs, code, start) && WellFormed(bbs) && Agree(w, start, b, s) && BlockStep(w, bbs, b).Halted?
    ensures LinearStep(w, code, s) == Halted(BlockStep(w, bbs, b).d)
  {
    var l := b.at.block;
    assert Placed(code, bbs[l], l, start[l]) && WellFormedBlock(bbs, bbs[l]);
    assert bbs[l].Nth(b.at.index) == bbs[l].rev[|bbs[l].rev| - 1 - b.at.index];
  }

  lemma {:induction false} BlockSplit<D(!new)>(w: World<D>, bbs: seq<Block>, b: State<Point, D>, n: nat)
      returns (k: nat)
    requires BlockRun(w, bbs, b, n).Halted?
    ensures k < n && BlockRun(w, bbs, b, k).Running?
    ensures BlockStep(w, bbs, BlockRun(w, bbs, b, k).s) == Halted(BlockRun(w, bbs, b, n).d)
    decreases n
  {
    var o := BlockStep(w, bbs, b);
    if o.Halted? {
      k := 0;
    } else {
      k := BlockSplit(w, bbs, o.s, n - 1);
      k := k + 1;
    }
  }

  ghost predicate BlocksEnd<D(!new)>(w: World<D>, bbs: seq<Block>, b: State<Point, D>, d: D) {
    exists n: nat :: BlockRun(w, bbs, b, n) == Halted(d)
  }

  ghost predicate LinearEnds<D(!new)>(w: World<D>, code: seq<Item>, s: State<nat, D>, d: D) {
    exists n: nat :: LinearRun(w, code, s, n) == Halted(d)
  }

  ghost predicate NeverStuck<D(!new)>(w: World<D>, bbs: seq<Block>, b: State<Point, D>) {
    forall n: nat :: !BlockRun(w, bbs, b, n).Stuck?
  }

  /** Runs are determined, so a run that ends is never stuck, and ends once. */
  lemma EndsOnce<D(!new)>(w: World<D>, bbs: seq<Block>, b: State<Point, D>, d: D)
    requires BlocksEnd(w, bbs, b, d)
    ensures NeverStuck(w, bbs, b) && forall e | BlocksEnd(w, bbs, b, e) :: e == d
  {
    var n: nat :| BlockRun(w, bbs, b, n) == Halted(d);
    forall k: nat ensures var o := BlockRun(w, bbs, b, k); !o.Stuck? && (o.Halted? ==> o.d == d) {
      Longer(w, bbs, b, n, k);
      if !BlockRun(w, bbs, b, k).Running? {
        Longer(w, bbs, b, k, n);
      }
    }
  }

  /** What has ended or got stuck stays so. */
  lemma {:induction false} Longer<D(!new)>(w: World<D>, bbs: seq<Block>, b: State<Point, D>, m: nat, n: nat)
    requires !BlockRun(w, bbs, b, m).Running?
    ensures m <= n ==> BlockRun(w, bbs, b, n) == BlockRun(w, bbs, b, m)
    decreases m
  {
    if m > 0 && n > 0 {
      var o := BlockStep(w, bbs, b);
      if o.Running? {
        Longer(w, bbs, o.s, m - 1, n - 1);
      }
    }
  }

  /** A program that ends does so with the same data in both forms; and one that never gets stuck
      ends in both or in neither. */
  lemma SameResult<D(!new)>(w: World<D>, bbs: seq<Block>, code: seq<Item>, start: map<nat, nat>, b: State<Point, D>,
                            s: State<nat, D>, d: D)
    requires Lawful(w) && WellFormed(bbs) && Layout(bbs, code, start) && ClosedLabels(bbs, start.Keys)
    requires Agree(w, start, b, s)
    ensures BlocksEnd(w, bbs, b, d) ==> LinearEnds(w, code, s, d)
    ensures NeverStuck(w, bbs, b) && LinearEnds(w, code, s, d) ==> BlocksEnd(w, bbs, b, d)
  {
    if BlocksEnd(w, bbs, b, d) {
      var n: nat :| BlockRun(w, bbs, b, n) == Halted(d);
      var _ := ResultForward(w, bbs, code, start, b, s, n);
    }
    if NeverStuck(w, bbs, b) && LinearEnds(w, code, s, d) {
      var m: nat :| LinearRun(w, code, s, m) == Halted(d);
      if BlockRun(w, bbs, b, m).Running? {
        var k, t := SimulatesRun(w, bbs, code, start, b, s, m);
        LinearSplit(w, code, s, m, k - m);
        assert false;
      }
      var d' := ResultForward(w, bbs, code, start, b, s, m);
      var k: nat :| LinearRun(w, code, s, k) == Halted(d');
      LinearSplit(w, code, s, m, k);
      LinearSplit(w, code, s, k, m);
    }
  }

  lemma ResultForward<D(!new)>(w: World<D>, bbs: seq<Block>, code: seq<Item>, start: map<nat, nat>, b: State<Point, D>,
                               s: State<nat, D>, n: nat)
      returns (d: D)
    requires Lawful(w) && WellFormed(bbs) && Layout(bbs, code, start) && ClosedLabels(bbs, start.Keys)
    requires Agree(w, start, b, s) && BlockRun(w, bbs, b, n).Halted?
    ensures BlockRun(w, bbs, b, n) == Halted(d) && LinearEnds(w, code, s, d)
  {
    d := BlockRun(w, bbs, b, n).d;
    var k := BlockSplit(w, bbs, b, n);
    var m, t := SimulatesRun(w, bbs, code, start, b, s, k);
    HaltsAlike(w, bbs, code, start, BlockRun(w, bbs, b, k).s, t);
    LinearSplit(w, code, s, m, 1);
    assert LinearRun(w, code, t, 1) == Halted(d);
    assert LinearRun(w, code, s, m + 1) == Halted(d);
  }
}
