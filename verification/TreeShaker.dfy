/** Dropping blocks that nothing refers to (compiler/tree-shaker.rkt). */
module TreeShaker {
  import opened Blocks
  import opened Renumbering

  ghost predicate InBounds(bbs: seq<Block>) {
    |bbs| > 0 && forall l, r | 0 <= l < |bbs| && r in bbs[l].Refs() :: r < |bbs|
  }

  /** In every closed set that holds the entry block. */
  ghost predicate Needed(bbs: seq<Block>, l: nat) {
    forall s | ClosedLabels(bbs, s) && 0 in s :: l in s
  }

  ghost function Unvisited(counts: seq<nat>): set<nat> {
    set l | 0 <= l < |counts| && counts[l] == 0
  }

  /** Every label visited since before has its own references visited. */
  ghost predicate Explored(bbs: seq<Block>, before: seq<nat>, counts: seq<nat>) {
    && |before| == |counts| == |bbs|
    && (forall l | 0 <= l < |bbs| :: before[l] <= counts[l])
    && (forall l | 0 <= l < |bbs| && before[l] == 0 && counts[l] > 0 :: Needed(bbs, l))
    && (forall l | 0 <= l < |bbs| :: FollowedUp(bbs, before, counts, l))
  }

  ghost predicate FollowedUp(bbs: seq<Block>, before: seq<nat>, counts: seq<nat>, l: nat)
    requires l < |bbs| == |before| == |counts|
  {
    before[l] == 0 && counts[l] > 0 ==> AllVisited(counts, bbs[l].Refs())
  }

  lemma ExploredTwice(bbs: seq<Block>, a: seq<nat>, b: seq<nat>, c: seq<nat>)
    requires Explored(bbs, a, b) && Explored(bbs, b, c)
    ensures Explored(bbs, a, c)
    ensures forall s | AllVisited(b, s) :: AllVisited(c, s)
  {
    forall s | AllVisited(b, s) ensures AllVisited(c, s) {
      forall r | r in s ensures r < |c| && c[r] > 0 {
        assert b[r] <= c[r];
      }
    }
    forall l | 0 <= l < |bbs| ensures FollowedUp(bbs, a, c, l) {
      assert FollowedUp(bbs, a, b, l) && FollowedUp(bbs, b, c, l);
    }
  }

  lemma UnvisitedShrinks(bbs: seq<Block>, a: seq<nat>, b: seq<nat>)
    requires Explored(bbs, a, b)
    ensures Unvisited(b) <= Unvisited(a)
  {}

  ghost predicate AllVisited(counts: seq<nat>, s: set<nat>) {
    forall r | r in s :: r < |counts| && counts[r] > 0
  }

  /** The labels in the first i instructions. */
  ghost function RefsUpTo(rev: seq<Instr>, i: nat): set<nat>
    requires i <= |rev|
  {
    set k, l | 0 <= k < i && l in rev[k].Refs() :: l
  }

  function RefList(i: Instr): (r: seq<nat>)
    ensures forall l :: l in r <==> l in i.Refs()
  {
    match i
    case Goto(l) => [l]
    case GotoIfFalse(a1, a2) => [a1, a2]
    case Closure(l) => [l]
    case CallToplevel(l) => [l]
    case JumpToplevel(l) => [l]
    case BranchIfFalse(l) => [l]
    case _ => []
  }

  /** visit: counts a reference and, the first time, explores the block. */
  method Visit(bbs: seq<Block>, counts: array<nat>, l: nat)
    requires InBounds(bbs) && counts.Length == |bbs| && l < |bbs| && Needed(bbs, l)
    modifies counts
    ensures Explored(bbs, old(counts[..]), counts[..]) && counts[l] > 0
    decreases Unvisited(counts[..]), 0
  {
    hide Explored, AllVisited, Needed, RefsUpTo;
    ghost var before := counts[..];
    var count := counts[l];
    counts[l] := count + 1;
    ghost var first := counts[..];
    Counted(bbs, before, l, first);
    if count == 0 {
      var rev := bbs[l].rev;
      for i := 0 to |rev|
        invariant Explored(bbs, first, counts[..]) && AllVisited(counts[..], RefsUpTo(rev, i))
      {
        ghost var mid := counts[..];
        UnvisitedShrinks(bbs, first, mid);
        InstrRefs(bbs[l], i);
        VisitRefs(bbs, counts, l, RefList(rev[i]));
        ExploredTwice(bbs, first, mid, counts[..]);
        MoreVisited(counts[..], rev, i, RefList(rev[i]));
      }
      InstrRefs(bbs[l], |rev|);
      VisitedFirst(bbs, before, first, counts[..], l);
    }
  }

  lemma Counted(bbs: seq<Block>, before: seq<nat>, l: nat, first: seq<nat>)
    requires |before| == |bbs| && l < |bbs| && first == before[l := before[l] + 1]
    ensures Explored(bbs, first, first) && AllVisited(first, RefsUpTo(bbs[l].rev, 0))
    ensures before[l] > 0 ==> Explored(bbs, before, first)
    ensures before[l] == 0 ==> Unvisited(first) < Unvisited(before)
  {
    assert before[l] == 0 ==> l in Unvisited(before) && l !in Unvisited(first);
  }

  lemma InstrRefs(b: Block, i: nat)
    requires i <= |b.rev|
    ensures i < |b.rev| ==> b.rev[i].Refs() <= b.Refs()
    ensures i == |b.rev| ==> RefsUpTo(b.rev, i) == b.Refs()
  {}

  lemma MoreVisited(counts: seq<nat>, rev: seq<Instr>, i: nat, refs: seq<nat>)
    requires i < |rev| && AllVisited(counts, RefsUpTo(rev, i)) && forall l :: l in refs <==> l in rev[i].Refs()
    requires forall r | r in refs :: r < |counts| && counts[r] > 0
    ensures AllVisited(counts, RefsUpTo(rev, i + 1))
  {
    assert RefsUpTo(rev, i + 1) == RefsUpTo(rev, i) + rev[i].Refs();
  }

  lemma VisitedFirst(bbs: seq<Block>, before: seq<nat>, first: seq<nat>, counts: seq<nat>, l: nat)
    requires |before| == |bbs| && l < |bbs| && before[l] == 0 && first == before[l := 1] && Needed(bbs, l)
    requires Explored(bbs, first, counts) && AllVisited(counts, bbs[l].Refs())
    ensures Explored(bbs, before, counts) && counts[l] > 0
  {
    forall x | 0 <= x < |bbs| ensures FollowedUp(bbs, before, counts, x) {
      assert FollowedUp(bbs, first, counts, x);
    }
  }

  method VisitRefs(bbs: seq<Block>, counts: array<nat>, l: nat, refs: seq<nat>)
    requires InBounds(bbs) && counts.Length == |bbs| && l < |bbs| && Needed(bbs, l)
    requires forall r | r in refs :: r in bbs[l].Refs()
    modifies counts
    ensures Explored(bbs, old(counts[..]), counts[..]) && forall r | r in refs :: r < |bbs| && counts[r] > 0
    decreases Unvisited(counts[..]), 1
  {
    ghost var first := counts[..];
    for j := 0 to |refs|
      invariant Explored(bbs, first, counts[..]) && AllVisited(counts[..], set k | 0 <= k < j :: refs[k])
    {
      assert refs[j] in refs;
      NeededRef(bbs, l, refs[j]);
      ghost var mid := counts[..];
      UnvisitedShrinks(bbs, first, mid);
      Visit(bbs, counts, refs[j]);
      ExploredTwice(bbs, first, mid, counts[..]);
      assert (set k | 0 <= k < j + 1 :: refs[k]) == (set k | 0 <= k < j :: refs[k]) + {refs[j]};
    }
  }

  lemma NeededRef(bbs: seq<Block>, l: nat, r: nat)
    requires l < |bbs| && Needed(bbs, l) && r in bbs[l].Refs()
    ensures Needed(bbs, r)
  {}

  /** bbs->ref-counts: the counts are positive exactly for the blocks that are needed. */
  method RefCounts(bbs: seq<Block>) returns (counts: seq<nat>)
    requires InBounds(bbs)
    ensures |counts| == |bbs| && forall l: nat | l < |bbs| :: counts[l] > 0 <==> Needed(bbs, l)
  {
    var v := new nat[|bbs|](_ => 0);
    ghost var before := v[..];
    Visit(bbs, v, 0);
    counts := v[..];
    VisitedAreNeeded(bbs, before, counts);
  }

  lemma VisitedAreNeeded(bbs: seq<Block>, before: seq<nat>, counts: seq<nat>)
    requires InBounds(bbs) && Explored(bbs, before, counts) && counts[0] > 0
    requires forall l | 0 <= l < |bbs| :: before[l] == 0
    ensures forall l: nat | l < |bbs| :: counts[l] > 0 <==> Needed(bbs, l)
  {
    var s: set<nat> := set l: nat | l < |bbs| && counts[l] > 0;
    forall l | l in s ensures bbs[l].Refs() <= s {
      assert FollowedUp(bbs, before, counts, l);
    }
    assert ClosedLabels(bbs, s) && 0 in s;
  }

  /** remove-useless-bbs!: what is needed stays, in order, under new labels; the entry block keeps
      label 0. */
  method RemoveUselessBlocks(bbs0: seq<Block>) returns (r: seq<Block>, ghost bbs: seq<Block>, ghost order: seq<nat>)
    requires InBounds(bbs0)
    ensures |bbs| == |bbs0| && forall l | 0 <= l < |bbs| :: bbs[l].rev == bbs0[l].rev
    ensures Renumbered(bbs, order, r) && |order| > 0 && order[0] == 0
    ensures forall l: nat :: l in order <==> l < |bbs0| && Needed(bbs0, l)
    ensures forall i, j | 0 <= i < j < |order| :: order[i] < order[j]
  {
    var counts := RefCounts(bbs0);
    var v := new Block[|bbs0|](l requires 0 <= l < |bbs0| => bbs0[l]);
    var newLabel := 0;
    order := [];
    for l := 0 to |bbs0|
      invariant newLabel == |order| && forall k | 0 <= k < |bbs0| :: v[k].rev == bbs0[k].rev
      invariant forall i | 0 <= i < |order| :: order[i] < l && v[order[i]].name == i && counts[order[i]] > 0
      invariant forall k: nat | k < l && counts[k] > 0 :: k in order
      invariant forall i, j | 0 <= i < j < |order| :: order[i] < order[j]
      invariant l > 0 ==> |order| > 0 && order[0] == 0
    {
      if counts[l] > 0 {
        v[l] := Block(newLabel, v[l].rev);
        newLabel := newLabel + 1;
        order := order + [l as nat];
      }
      assert l == 0 ==> Needed(bbs0, 0);
    }
    bbs := v[..];
    forall l | 0 <= l < |bbs| ensures InRange(bbs, bbs[l].rev) {
      forall k, x | 0 <= k < |bbs[l].rev| && x in bbs[l].rev[k].Refs() ensures x < |bbs| {
        assert x in bbs0[l].Refs();
      }
    }
    forall l: nat | l < |bbs| && counts[l] > 0 ensures bbs[l].name < newLabel {
      var i :| 0 <= i < |order| && order[i] == l;
      assert v[order[i]].name == i;
    }
    r := RenumberLabels(v[..], counts, newLabel);
    AllRenumbered(bbs, counts, order, r);
  }
}
