/** Choosing the order of blocks before they are laid out (compiler/scheduling.rkt). */
module Reordering {
  import opened Blocks
  import opened Renumbering
  import TreeShaker

  /** label-refs: the labels of closures and top-level procedures, in front of todo. */
  function LabelRefs(rev: seq<Instr>, todo: seq<nat>): (r: seq<nat>)
    ensures forall l | l in todo :: l in r
    ensures forall l | l in r :: l in todo || exists k :: 0 <= k < |rev| && l in rev[k].Refs()
    ensures forall k, l | 0 <= k < |rev| && l in rev[k].Refs() ::
      rev[k].Goto? || rev[k].GotoIfFalse? || rev[k].BranchIfFalse? || l in r
  {
    if rev == [] then todo else
      var i := rev[0];
      var next := if i.Closure? || i.CallToplevel? || i.JumpToplevel? then [i.dest] + todo else todo;
      var r := LabelRefs(rev[1..], next);
      assert forall k | 0 < k < |rev| :: rev[k] == rev[1..][k - 1];
      assert forall l | l in r ::
          l in next || exists k :: 0 <= k < |rev| - 1 && l in rev[1..][k].Refs() && rev[1..][k] == rev[k + 1];
      r
  }

  /** The blocks done so far, by name: order[i] is the one that got name i. */
  ghost predicate Done(bbs: seq<Block>, bbs0: seq<Block>, done: seq<bool>, order: seq<nat>) {
    && |bbs| == |bbs0| == |done| && (forall l | 0 <= l < |bbs| :: bbs[l].rev == bbs0[l].rev)
    && (forall i | 0 <= i < |order| :: order[i] < |bbs| && bbs[order[i]].name == i)
    && (forall l: nat | l < |done| :: done[l] <==> l in order)
    && (forall l: nat | l < |done| && !done[l] :: bbs[l] == bbs0[l])
  }

  /** Everything a finished block refers to is finished, listed or in more. */
  ghost predicate Followed(bbs0: seq<Block>, order: seq<nat>, todo: seq<nat>, more: set<nat>) {
    && (forall l, r | l in order && l < |bbs0| && r in bbs0[l].Refs() :: r in order || r in todo || r in more)
    && (forall r | r in todo :: r < |bbs0|)
  }

  /** A block stands in front of the one it goes to, unless that one has a place already; a test prefers
      the one for true. */
  ghost predicate FallsInto(bbs0: seq<Block>, order: seq<nat>, i: nat)
    requires i < |order|
  {
    order[i] < |bbs0| && bbs0[order[i]].rev != [] ==>
      var j := bbs0[order[i]].rev[0];
      && (j.Goto? ==> j.dest in order[..i + 1] || [j.dest] <= order[i + 1..])
      && (j.GotoIfFalse? ==>
            if j.ifTrue !in order[..i + 1] then [j.ifTrue] <= order[i + 1..]
            else j.ifFalse in order[..i + 1] || [j.ifFalse] <= order[i + 1..])
  }

  ghost predicate Chained(bbs0: seq<Block>, order: seq<nat>, n: nat) {
    forall i | 0 <= i < n && i < |order| :: FallsInto(bbs0, order, i)
  }

  /** What comes later does not break a chain, */
  lemma ChainedMore(bbs0: seq<Block>, order: seq<nat>, l: nat)
    requires Chained(bbs0, order, |order|)
    ensures Chained(bbs0, order + [l], |order|)
  {
    forall i | 0 <= i < |order| ensures FallsInto(bbs0, order + [l], i) {
      assert FallsInto(bbs0, order, i);
      assert (order + [l])[..i + 1] == order[..i + 1] && (order + [l])[i + 1..] == order[i + 1..] + [l];
    }
  }

  /** and a block's successor continues it. */
  lemma ChainedNext(bbs0: seq<Block>, order: seq<nat>, next: nat)
    requires order != [] && Chained(bbs0, order, |order| - 1)
    requires order[|order| - 1] < |bbs0| && bbs0[order[|order| - 1]].rev != []
    requires var j := bbs0[order[|order| - 1]].rev[0];
      || (j.Goto? && j.dest == next)
      || (j.GotoIfFalse? && next == if j.ifTrue in order then j.ifFalse else j.ifTrue)
    ensures Chained(bbs0, order + [next], |order|)
  {
    var order' := order + [next];
    forall i | 0 <= i < |order| ensures FallsInto(bbs0, order', i) {
      assert order'[..i + 1] == order[..i + 1] && order'[i + 1..] == order[i + 1..] + [next];
      if i < |order| - 1 {
        assert FallsInto(bbs0, order, i);
      } else {
        assert order[..i + 1] == order;
      }
    }
  }

  /** Where no successor is left it ends. */
  lemma ChainedLast(bbs0: seq<Block>, order: seq<nat>)
    requires order != [] && Chained(bbs0, order, |order| - 1)
    requires order[|order| - 1] < |bbs0| && bbs0[order[|order| - 1]].rev != []
    requires var j := bbs0[order[|order| - 1]].rev[0];
      (j.Goto? ==> j.dest in order) && (j.GotoIfFalse? ==> j.ifTrue in order && j.ifFalse in order)
    ensures Chained(bbs0, order, |order|)
  {
    var n := |order| - 1;
    assert order[..n + 1] == order;
    assert FallsInto(bbs0, order, n);
  }

  ghost function Undone(done: seq<bool>): set<nat> {
    set l | 0 <= l < |done| && !done[l]
  }

  lemma FollowedNext(bbs0: seq<Block>, order: seq<nat>, todo: seq<nat>, l: nat, todo': seq<nat>, more: set<nat>)
    requires WellFormed(bbs0) && l < |bbs0| && Followed(bbs0, order, todo, {l})
    requires forall r | r in todo || r in LabelRefs(bbs0[l].rev, todo) :: r in todo'
    requires forall r | r in todo' :: r in LabelRefs(bbs0[l].rev, todo) || r in bbs0[l].rev[0].Refs()
    requires var j := bbs0[l].rev[0]; j.Goto? || j.GotoIfFalse? ==>
      forall r | r in j.Refs() :: r in order + [l] || r in todo' || r in more
    ensures Followed(bbs0, order + [l], todo', more)
  {
    var b := bbs0[l];
    assert WellFormedBlock(bbs0, b);
    forall r | r in b.Refs() ensures r in order + [l] || r in todo' || r in more {
      var k :| 0 <= k < |b.rev| && r in b.rev[k].Refs();
      assert k > 0 ==> !b.rev[k].IsJump();
    }
    forall r | r in todo' ensures r < |bbs0| {
      if r !in todo && r !in b.rev[0].Refs() {
        var k :| 0 <= k < |b.rev| && r in b.rev[k].Refs();
        assert r in b.Refs();
      }
      if r in b.rev[0].Refs() {
        assert r in b.Refs();
      }
    }
  }

  /** Names a block and records it as done. */
  method NameBlock(bbs: array<Block>, done: array<bool>, l: nat, newLabel: nat, ghost bbs0: seq<Block>,
                   ghost order: seq<nat>)
    requires Done(bbs[..], bbs0, done[..], order) && newLabel == |order| && l < |bbs0| && !done[l]
    modifies bbs, done
    ensures Done(bbs[..], bbs0, done[..], order + [l]) && Undone(done[..]) < old(Undone(done[..]))
  {
    ghost var undone := Undone(done[..]);
    bbs[l] := Block(newLabel, bbs[l].rev);
    done[l] := true;
    ghost var order' := order + [l];
    assert l in undone && l !in Undone(done[..]);
    assert forall r | r in order :: r in order';
    assert l == order'[|order|];
    forall i | 0 <= i < |order'| ensures order'[i] < |bbs[..]| && bbs[order'[i]].name == i {
      assert i < |order| ==> order'[i] == order[i];
    }
  }

  /** schedule-here: names a chain of blocks, each followed by the block it falls into. */
  method ScheduleHere(bbs: array<Block>, done: array<bool>, l: nat, newLabel: nat, todo: seq<nat>,
                      ghost bbs0: seq<Block>, ghost order: seq<nat>)
      returns (nl: nat, td: seq<nat>, ghost order': seq<nat>)
    requires WellFormed(bbs0) && Done(bbs[..], bbs0, done[..], order) && newLabel == |order|
    requires l < |bbs0| && !done[l] && Followed(bbs0, order, todo, {l})
    requires Chained(bbs0, order + [l], |order|)
    modifies bbs, done
    ensures Done(bbs[..], bbs0, done[..], order') && nl == |order'| && order + [l] <= order'
    ensures Followed(bbs0, order', td, {}) && Undone(done[..]) < old(Undone(done[..]))
    ensures Chained(bbs0, order', |order'|)
    decreases Undone(done[..])
  {
    hide Followed, Undone, LabelRefs, WellFormed, Chained;
    var rev := bbs[l].rev;
    JumpRefs(bbs0, l);
    var newTodo := LabelRefs(rev, todo);
    NameBlock(bbs, done, l, newLabel, bbs0, order);
    order' := order + [l];
    assert l in order';
    nl, td := newLabel + 1, newTodo;
    var jump := rev[0];
    if jump.Goto? {
      FollowedNext(bbs0, order, todo, l, newTodo, {jump.dest});
      if !done[jump.dest] {
        ChainedNext(bbs0, order', jump.dest);
        nl, td, order' := ScheduleHere(bbs, done, jump.dest, nl, newTodo, bbs0, order');
      } else {
        FollowedNext(bbs0, order, todo, l, newTodo, {});
        ChainedLast(bbs0, order');
      }
    } else if jump.GotoIfFalse? {
      var first, second := jump.ifFalse, jump.ifTrue;
      if !done[second] {
        FollowedNext(bbs0, order, todo, l, [first] + newTodo, {second});
        ChainedNext(bbs0, order', second);
        nl, td, order' := ScheduleHere(bbs, done, second, nl, [first] + newTodo, bbs0, order');
      } else {
        FollowedNext(bbs0, order, todo, l, newTodo, {first});
        if !done[first] {
          ChainedNext(bbs0, order', first);
          nl, td, order' := ScheduleHere(bbs, done, first, nl, newTodo, bbs0, order');
        } else {
          FollowedNext(bbs0, order, todo, l, newTodo, {});
          ChainedLast(bbs0, order');
        }
      }
    } else {
      FollowedNext(bbs0, order, todo, l, newTodo, {});
      ChainedLast(bbs0, order');
    }
  }

  lemma JumpRefs(bbs0: seq<Block>, l: nat)
    requires WellFormed(bbs0) && l < |bbs0|
    ensures |bbs0[l].rev| > 0
    ensures var j := bbs0[l].rev[0];
      && (j.Goto? ==> j.dest < |bbs0|)
      && (j.GotoIfFalse? ==> j.ifFalse < |bbs0| && j.ifTrue < |bbs0|)
  {
    var j := bbs0[l].rev[0];
    assert WellFormedBlock(bbs0, bbs0[l]);
    assert j.Refs() <= bbs0[l].Refs();
    assert j.Goto? ==> j.dest in j.Refs();
    assert j.GotoIfFalse? ==> j.ifFalse in j.Refs() && j.ifTrue in j.Refs();
  }

  /** schedule-todo: the blocks that were put off. */
  method ScheduleTodo(bbs: array<Block>, done: array<bool>, newLabel: nat, todo: seq<nat>,
                      ghost bbs0: seq<Block>, ghost order: seq<nat>)
      returns (ghost order': seq<nat>)
    requires WellFormed(bbs0) && Done(bbs[..], bbs0, done[..], order) && newLabel == |order|
    requires Followed(bbs0, order, todo, {}) && Chained(bbs0, order, |order|)
    modifies bbs, done
    ensures Done(bbs[..], bbs0, done[..], order') && order <= order' && Followed(bbs0, order', [], {})
    ensures Chained(bbs0, order', |order'|)
  {
    var nl, td := newLabel, todo;
    order' := order;
    while td != []
      invariant Done(bbs[..], bbs0, done[..], order') && nl == |order'| && order <= order'
      invariant Followed(bbs0, order', td, {}) && Chained(bbs0, order', |order'|)
      decreases Undone(done[..]), |td|
    {
      hide Followed, Undone, Chained;
      var l := td[0];
      TodoNext(bbs0, order', td);
      if !done[l] {
        ChainedMore(bbs0, order', l);
        nl, td, order' := ScheduleHere(bbs, done, l, nl, td[1..], bbs0, order');
      } else {
        td := td[1..];
      }
    }
  }

  lemma TodoNext(bbs0: seq<Block>, order: seq<nat>, todo: seq<nat>)
    requires Followed(bbs0, order, todo, {}) && todo != []
    ensures todo[0] < |bbs0| && Followed(bbs0, order, todo[1..], {todo[0]})
    ensures todo[0] in order ==> Followed(bbs0, order, todo[1..], {})
  {
    assert todo[0] in todo;
    assert forall r: nat | r in todo :: r == todo[0] || r in todo[1..];
    assert forall r: nat | r in todo[1..] :: r in todo;
  }

  /** Every label has one place in the order, and every place a label. */
  ghost predicate Permutes(order: seq<nat>, n: nat) {
    && |order| == n && (forall l: nat | l < n :: l in order)
    && (forall i, j | 0 <= i < j < n :: order[i] != order[j])
    && (forall i | 0 <= i < n :: order[i] < n)
  }

  lemma {:induction false} DistinctSize(s: seq<nat>, n: nat)
    requires (forall l: nat | l < n :: l in s) && (forall i | 0 <= i < |s| :: s[i] < n)
    requires forall i, j | 0 <= i < j < |s| :: s[i] != s[j]
    ensures |s| == n
  {
    if n == 0 {
      if |s| > 0 {
        assert false;
      }
    } else {
      var last: nat := n - 1;
      assert last in s;
      var k :| 0 <= k < |s| && s[k] == last;
      var t := s[..k] + s[k + 1..];
      forall l: nat | l < n - 1 ensures l in t {
        assert l in s;
        var x :| 0 <= x < |s| && s[x] == l;
        assert t[if x < k then x else x - 1] == l;
      }
      DistinctSize(t, n - 1);
    }
  }

  lemma {:induction false} DistinctBound(s: seq<nat>, n: nat)
    requires (forall i | 0 <= i < |s| :: s[i] < n) && forall i, j | 0 <= i < j < |s| :: s[i] != s[j]
    ensures |s| <= n
    decreases n
  {
    if |s| > 0 {
      assert s[0] < n;
      if k :| 0 <= k < |s| && s[k] == n - 1 {
        DistinctBound(s[..k] + s[k + 1..], n - 1);
      } else {
        DistinctBound(s, n - 1);
      }
    }
  }

  /** All done: every needed block has a name of its own. */
  lemma AllDone(bbs: seq<Block>, bbs0: seq<Block>, done: seq<bool>, order: seq<nat>)
    requires WellFormed(bbs0) && Done(bbs, bbs0, done, order) && Followed(bbs0, order, [], {})
    requires |order| > 0 && order[0] == 0
    ensures forall l: nat | l < |bbs0| && TreeShaker.Needed(bbs0, l) :: l in order
    ensures (forall i, j | 0 <= i < j < |order| :: order[i] != order[j]) && |order| <= |bbs0|
    ensures forall l | 0 <= l < |bbs| :: InRange(bbs, bbs[l].rev)
  {
    var s: set<nat> := set l: nat | l < |bbs0| && l in order;
    assert 0 in s && ClosedLabels(bbs0, s);
    forall i, j | 0 <= i < j < |order| ensures order[i] != order[j] {
      assert bbs[order[i]].name == i && bbs[order[j]].name == j;
    }
    DistinctBound(order, |bbs0|);
    forall l | 0 <= l < |bbs| ensures InRange(bbs, bbs[l].rev) {
      var b := bbs0[l];
      assert WellFormedBlock(bbs0, b);
      forall k, x | 0 <= k < |b.rev| && x in b.rev[k].Refs() ensures x < |bbs| {
        assert x in b.Refs();
      }
    }
  }

  /** The block that ends up at place i: the one named i, unless a block that was not reached has kept
      that label and comes later. */
  ghost function Occupant(order: seq<nat>, i: nat): nat
    requires i < |order|
  {
    if i !in order && order[i] < i then i else order[i]
  }

  /** Each place has the last block with its name. */
  lemma Occupants(bbs: seq<Block>, bbs0: seq<Block>, done: seq<bool>, order: seq<nat>, counts: seq<nat>, i: nat)
    requires Done(bbs, bbs0, done, order) && i < |order| <= |bbs| == |counts|
    requires forall l | 0 <= l < |bbs0| :: bbs0[l].name == l && counts[l] > 0
    requires forall j, k | 0 <= j < k < |order| :: order[j] != order[k]
    ensures var l := Occupant(order, i); l < |bbs| && bbs[l].name == i && LastNamed(bbs, counts, l)
  {
    var l := Occupant(order, i);
    forall k | l < k < |bbs| ensures bbs[k].name != i {
      if done[k] {
        var j :| 0 <= j < |order| && order[j] == k;
        assert bbs[order[j]].name == j;
      } else {
        assert bbs[k] == bbs0[k];
      }
    }
  }

  /** reorder!: reached blocks get new labels in the order in which they are found, the entry block 0, and
      go to the places of these labels.  If every block is needed, as it is once useless ones are gone, the
      new labels permute the old ones.  A block that is not reached keeps its label, and may take the
      place of another. */
  method Reorder(bbs0: seq<Block>) returns (r: seq<Block>, ghost bbs: seq<Block>, ghost order: seq<nat>)
    requires WellFormed(bbs0) && forall l | 0 <= l < |bbs0| :: bbs0[l].name == l
    ensures |bbs| == |bbs0| && forall l | 0 <= l < |bbs| :: bbs[l].rev == bbs0[l].rev && InRange(bbs, bbs[l].rev)
    ensures 0 < |order| <= |bbs0| == |r| && order[0] == 0
    ensures forall i, j | 0 <= i < j < |order| :: order[i] != order[j]
    ensures forall i | 0 <= i < |order| :: order[i] < |bbs| && bbs[order[i]].name == i
    ensures forall l: nat | l < |bbs0| && TreeShaker.Needed(bbs0, l) :: l in order
    ensures Chained(bbs0, order, |order|)
    ensures forall i | 0 <= i < |order| ::
      Occupant(order, i) < |bbs| && r[i] == Block(i, FixAll(bbs, bbs[Occupant(order, i)].rev))
    ensures (forall l: nat | l < |bbs0| :: TreeShaker.Needed(bbs0, l)) ==>
      Renumbered(bbs, order, r) && Permutes(order, |bbs0|)
  {
    hide Followed, Undone, LabelRefs, LastNamed, WellFormed, Ordered, FallsInto;
    var v := new Block[|bbs0|](l requires 0 <= l < |bbs0| => bbs0[l]);
    var done := new bool[|bbs0|](_ => false);
    order := [];
    var nl, todo;
    NothingFollowed(bbs0);
    nl, todo, order := ScheduleHere(v, done, 0, 0, [], bbs0, []);
    ghost var first := order;
    order := ScheduleTodo(v, done, nl, todo, bbs0, order);
    assert order[0] == first[0] == 0;
    bbs := v[..];
    AllDone(bbs, bbs0, done[..], order);
    var counts: seq<nat> := seq(|bbs0|, _ => 1);
    NamesFit(bbs, bbs0, done[..], order);
    r := RenumberLabels(v[..], counts, |bbs0|);
    forall i: nat | i < |order|
      ensures var l := Occupant(order, i); l < |bbs| && r[i] == Block(i, FixAll(bbs, bbs[l].rev))
    {
      Occupants(bbs, bbs0, done[..], order, counts, i);
    }
    if forall l: nat | l < |bbs0| :: TreeShaker.Needed(bbs0, l) {
      DistinctSize(order, |bbs0|);
      OrderOfAll(bbs, order);
      AllRenumbered(bbs, counts, order, r);
    }
  }

  lemma NothingFollowed(bbs0: seq<Block>)
    requires WellFormed(bbs0)
    ensures |bbs0| > 0 && Followed(bbs0, [], [], {0})
  {}

  /** An order of all blocks is one to renumber by. */
  lemma OrderOfAll(bbs: seq<Block>, order: seq<nat>)
    requires (forall i | 0 <= i < |order| :: order[i] < |bbs| && bbs[order[i]].name == i)
    requires forall l | 0 <= l < |bbs| :: InRange(bbs, bbs[l].rev)
    ensures Ordered(bbs, order)
  {}

  lemma NamesFit(bbs: seq<Block>, bbs0: seq<Block>, done: seq<bool>, order: seq<nat>)
    requires Done(bbs, bbs0, done, order) && |order| <= |bbs| && forall l | 0 <= l < |bbs0| :: bbs0[l].name == l
    ensures forall l | 0 <= l < |bbs| :: bbs[l].name < |bbs|
  {
    forall l | 0 <= l < |bbs| ensures bbs[l].name < |bbs| {
      if done[l] {
        var j :| 0 <= j < |order| && order[j] == l;
        assert bbs[order[j]].name == j;
      }
    }
  }

  lemma OneInstr(b: Block, i: Instr)
    requires b.rev == [i]
    ensures b.Refs() == i.Refs()
  {
    forall l | l in i.Refs() ensures l in b.Refs() {
      assert b.rev[0] == i;
    }
  }

  /** A block that is not reached does take another's place: here block 2 stays where the code of block 1,
      third in the order, should be. */
  lemma Displaced()
    ensures var bbs := [Block(0, [Goto(3)]), Block(1, [Return]), Block(2, [Return]), Block(3, [Goto(1)])];
      WellFormed(bbs) && !TreeShaker.Needed(bbs, 2) && Occupant([0, 3, 1], 2) == 2
  {
    var bbs := [Block(0, [Goto(3)]), Block(1, [Return]), Block(2, [Return]), Block(3, [Goto(1)])];
    var s: set<nat> := {0, 1, 3};
    forall l | 0 <= l < 4 ensures bbs[l].Refs() == bbs[l].rev[0].Refs() {
      OneInstr(bbs[l], bbs[l].rev[0]);
    }
    assert ClosedLabels(bbs, s) && 2 !in s;
  }
}
