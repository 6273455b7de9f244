/** The linearizer itself: a worklist of labels, and code emitted backwards
    (compiler/scheduling.rkt). */
module Linearizing {
  import opened Blocks
  import opened Scheduling
  import opened Wrappers
  import TreeShaker

  datatype Todo = Todo(name: nat, pos: nat)

  ghost predicate Listed(todo: seq<Todo>, l: nat) {
    exists i :: 0 <= i < |todo| && todo[i].name == l
  }

  /** next: the first label on the list that has no code yet. */
  function Next(todo: seq<Todo>, dumped: seq<bool>): (r: Option<nat>)
    ensures r.Some? ==> r.value < |dumped| && !dumped[r.value] && Listed(todo, r.value)
    ensures r.None? ==> forall i | 0 <= i < |todo| && todo[i].name < |dumped| :: dumped[todo[i].name]
  {
    if todo == [] then None
    else if todo[0].name < |dumped| && !dumped[todo[0].name] then Some(todo[0].name)
    else
      var r := Next(todo[1..], dumped);
      assert r.Some? ==> exists i :: 0 <= i < |todo| - 1 && todo[1..][i] == todo[i + 1] && todo[i + 1].name == r.value;
      r
  }

  /** Code so far and, when it is to fall through, the mark that has to come next. */
  ghost function Expected(code: seq<Item>, next: Option<nat>): seq<Item> {
    if next.Some? then code + [At(next.value)] else code
  }

  ghost predicate AllPlaced(bbs: seq<Block>, code: seq<Item>, start: map<nat, nat>, but: set<nat>) {
    forall l | l in start && l !in but :: l < |bbs| && Placed(code, bbs[l], l, start[l])
  }

  lemma AllPlacedLonger(bbs: seq<Block>, code: seq<Item>, more: seq<Item>, start: map<nat, nat>, but: set<nat>)
    requires AllPlaced(bbs, code, start, but) && code <= more
    ensures AllPlaced(bbs, more, start, but)
  {
    forall l | l in start && l !in but ensures l < |bbs| && Placed(more, bbs[l], l, start[l]) {
      PlacedLonger(code, more, bbs[l], l, start[l]);
    }
  }

  ghost predicate Marks(code: seq<Item>, start: map<nat, nat>) {
    forall p: nat | p < |code| && code[p].At? :: code[p].name in start && start[code[p].name] == p
  }

  lemma PlacedLonger(code: seq<Item>, more: seq<Item>, b: Block, l: nat, p: nat)
    requires Placed(code, b, l, p) && code <= more
    ensures Placed(more, b, l, p)
  {}

  ghost predicate CoveredLabel(start: map<nat, nat>, todo: seq<Todo>, l: nat) {
    l in start || Listed(todo, l)
  }

  ghost predicate Extends(start: map<nat, nat>, was: seq<Todo>, todo: seq<Todo>) {
    forall l | CoveredLabel(start, was, l) :: CoveredLabel(start, todo, l)
  }

  lemma ExtendsTwice(start: map<nat, nat>, a: seq<Todo>, b: seq<Todo>, c: seq<Todo>)
    requires Extends(start, a, b) && Extends(start, b, c)
    ensures Extends(start, a, c)
  {}

  ghost predicate CoveredBy(bbs: seq<Block>, start: map<nat, nat>, todo: seq<Todo>, but: set<nat>) {
    && CoveredLabel(start, todo, 0)
    && forall l, r | l in start && l < |bbs| && l !in but && r in bbs[l].Refs() :: CoveredLabel(start, todo, r)
  }

  /** Taking a label off the list, or leaving it there, and giving it code. */
  lemma CoveredTake(bbs: seq<Block>, start: map<nat, nat>, was: seq<Todo>, todo: seq<Todo>, l: nat, p: nat)
    requires CoveredBy(bbs, start, was, {})
    requires was == todo || (|was| > 0 && was[0].name == l && todo == was[1..])
    ensures CoveredBy(bbs, start[l := p], todo, {l})
    ensures l in start ==> CoveredBy(bbs, start, todo, {})
  {
    assert CoveredLabel(start, was, 0);
    var start' := start[l := p];
    forall r | CoveredLabel(start, was, r)
      ensures CoveredLabel(start', todo, r) && (l in start ==> CoveredLabel(start, todo, r))
    {
      if Listed(was, r) && was != todo && r != l {
        var i :| 0 <= i < |was| && was[i].name == r;
        assert todo[i - 1].name == r;
      }
    }
    forall x, r | x in start' && x < |bbs| && x != l && r in bbs[x].Refs() ensures CoveredLabel(start', todo, r) {
      assert x in start && CoveredLabel(start, was, r);
    }
  }

  class Linearizer {
    const bbs: seq<Block>
    var revCode: seq<Item>
    var pos: nat
    var todo: seq<Todo>
    const dumped: array<bool>
    ghost var start: map<nat, nat>

    constructor (bbs: seq<Block>)
      requires WellFormed(bbs)
      ensures this.bbs == bbs && Valid() && todo == [] && start == map[] && Code() == [] && fresh(dumped)
    {
      this.bbs := bbs;
      revCode, pos, todo, start := [], 0, [], map[];
      dumped := new bool[|bbs|](_ => false);
    }

    ghost function Code(): seq<Item>
      reads this
    {
      Rev(revCode)
    }

    /** Labels in range, the list and the finished blocks known to be needed. */
    ghost predicate Valid()
      reads this, dumped
    {
      && WellFormed(bbs) && dumped.Length == |bbs| && pos == |Code()|
      && (forall i | 0 <= i < |todo| :: todo[i].name < |bbs| && TreeShaker.Needed(bbs, todo[i].name))
      && (forall l | 0 <= l < |bbs| :: dumped[l] <==> l in start)
      && (forall l | l in start :: l < |bbs| && TreeShaker.Needed(bbs, l))
      && Marks(Code(), start)
    }

    /** Every label that finished blocks refer to is finished or listed. */
    ghost predicate Covered(but: set<nat>)
      reads `start, `todo
    {
      CoveredBy(bbs, start, todo, but)
    }

    method Emit(x: Item)
      requires Valid() && (x.At? ==> x.name in start && start[x.name] == |Code()|)
      modifies `revCode, `pos
      ensures Code() == old(Code()) + [x] && Valid()
    {
      ghost var code := Code();
      pos := pos + 1;
      revCode := [x] + revCode;
      assert Code() == code + [x];
    }

    method Schedule(l: nat, tail: bool)
      requires Valid() && l < |bbs| && TreeShaker.Needed(bbs, l)
      modifies `todo
      ensures todo == if tail then old(todo) + [Todo(l, pos)] else [Todo(l, pos)] + old(todo)
      ensures Valid() && CoveredLabel(start, todo, l) && Extends(start, old(todo), todo)
    {
      ghost var before := todo;
      if tail {
        todo := todo + [Todo(l, pos)];
        assert todo[|before|].name == l;
      } else {
        todo := [Todo(l, pos)] + todo;
        assert todo[0].name == l;
      }
      forall r | Listed(before, r) ensures Listed(todo, r) {
        var i :| 0 <= i < |before| && before[i].name == r;
        assert todo[if tail then i else i + 1].name == r;
      }
    }

    /** get: the front of the list, taken off, when falling through; otherwise the unfinished label
        that was listed last. */
    method Get(fallthrough: bool) returns (r: Option<nat>)
      requires Valid()
      modifies `todo
      ensures fallthrough ==> if old(todo) == [] then r.None? && todo == []
        else r == Some(old(todo)[0].name) && todo == old(todo)[1..]
      ensures !fallthrough ==> todo == old(todo)
      ensures !fallthrough && r.Some? ==> Listed(todo, r.value) && r.value < |bbs| && !dumped[r.value]
      ensures !fallthrough && r.None? ==> forall i | 0 <= i < |todo| :: dumped[todo[i].name]
    {
      if todo == [] {
        return None;
      }
      if fallthrough {
        r := Some(todo[0].name);
        todo := todo[1..];
      } else {
        r := None;
        var best := 0;
        for i := 0 to |todo|
          invariant r.Some? ==> Listed(todo, r.value) && r.value < |bbs| && !dumped[r.value]
          invariant r.None? ==> forall j | 0 <= j < i :: dumped[todo[j].name]
        {
          if !dumped[todo[i].name] && (r.None? || todo[i].pos > best) {
            r, best := Some(todo[i].name), todo[i].pos;
          }
        }
      }
    }

    /** The labels in the first k instructions of a block are finished or listed. */
    ghost predicate BodyCovered(b: Block, k: nat)
      requires k <= |b.rev|
      reads `start, `todo
    {
      forall j: nat, r | j < k && r in b.Nth(j).Refs() :: CoveredLabel(start, todo, r)
    }

    /** One instruction before the jump. */
    method DumpInstr(l: nat, k: nat)
      requires Valid() && l in start && l < |bbs| && k < |bbs[l].rev| - 1 && BodyCovered(bbs[l], k)
      modifies `todo, `revCode, `pos
      ensures Valid() && Code() == old(Code()) + [Do(bbs[l].Nth(k))] && BodyCovered(bbs[l], k + 1)
      ensures Extends(start, old(todo), todo)
    {
      var instr := bbs[l].Nth(k);
      BodyInstr(bbs, l, k);
      if instr.Closure? || instr.CallToplevel? {
        Schedule(instr.dest, true);
      }
      assert BodyCovered(bbs[l], k + 1);
      Emit(Do(instr));
    }

    /** The instructions of a block before its jump. */
    method DumpBody(l: nat)
      requires Valid() && l in start && start[l] == |Code()|
      modifies `todo, `revCode, `pos
      ensures Valid() && |Code()| == start[l] + |bbs[l].rev| && BodyPlaced(Code(), bbs[l], start[l])
      ensures old(Code()) + [At(l)] <= Code()
      ensures BodyCovered(bbs[l], |bbs[l].rev| - 1)
      ensures Extends(start, old(todo), todo)
    {
      ghost var code := Code();
      assert WellFormedBlock(bbs, bbs[l]);
      Emit(At(l));
      for k := 0 to |bbs[l].rev| - 1
        invariant Valid() && |Code()| == start[l] + 1 + k && code + [At(l)] <= Code()
        invariant forall j: nat | j < k :: Code()[start[l] + 1 + j] == Do(bbs[l].Nth(j))
        invariant BodyCovered(bbs[l], k)
        invariant Extends(start, old(todo), todo)
      {
        DumpInstr(l, k);
      }
    }

    ghost function Fallthrough(on: bool): Option<nat>
      reads `todo, dumped
    {
      if on then Next(todo, dumped[..]) else None
    }

    /** A jump in one of its forms; true when the code is to fall through to the next block. */
    method EmitJump(jump: Instr) returns (fallthrough: bool)
      requires Valid() && forall r | r in jump.Refs() :: r < |bbs| && TreeShaker.Needed(bbs, r)
      requires jump.Refs() == {} || jump.Goto? || jump.GotoIfFalse? || jump.JumpToplevel?
      modifies `todo, `revCode, `pos
      ensures Valid() && old(Code()) <= Code() && (fallthrough ==> Fallthrough(true).Some?)
      ensures JumpPlaced(Expected(Code(), Fallthrough(fallthrough)), jump, |old(Code())|)
      ensures Extends(start, old(todo), todo) && forall r | r in jump.Refs() :: CoveredLabel(start, todo, r)
    {
      hide Valid, TreeShaker.Needed, CoveredLabel;
      assert forall l | jump.Refs() == {l} || (jump.GotoIfFalse? && l == jump.ifFalse) :: l in jump.Refs();
      if jump.Goto? {
        Schedule(jump.dest, false);
        fallthrough := Next(todo, dumped[..]) == Some(jump.dest);
        if !fallthrough {
          Emit(Do(jump));
        }
      } else if jump.GotoIfFalse? {
        assert jump.ifFalse in jump.Refs() && jump.ifTrue in jump.Refs();
        fallthrough := EmitBranch(jump.ifFalse, jump.ifTrue);
      } else if jump.JumpToplevel? {
        Schedule(jump.dest, false);
        Emit(Do(jump));
        fallthrough := false;
      } else {
        Emit(Do(jump));
        fallthrough := false;
      }
    }

    method EmitBranch(f: nat, t: nat) returns (fallthrough: bool)
      requires Valid() && f < |bbs| && TreeShaker.Needed(bbs, f) && t < |bbs| && TreeShaker.Needed(bbs, t)
      modifies `todo, `revCode, `pos
      ensures Valid() && old(Code()) <= Code() && (fallthrough ==> Fallthrough(true).Some?)
      ensures JumpPlaced(Expected(Code(), Fallthrough(fallthrough)), GotoIfFalse(f, t), |old(Code())|)
      ensures Extends(start, old(todo), todo) && CoveredLabel(start, todo, f) && CoveredLabel(start, todo, t)
    {
      hide Valid, TreeShaker.Needed, CoveredLabel, Extends, JumpPlaced, Expected;
      ghost var was, at := todo, start;
      Schedule(f, false);
      ghost var mid := todo;
      Schedule(t, false);
      ExtendsTwice(at, was, mid, todo);
      hide Extends;
      BranchForms(Code(), f, t);
      if Next(todo, dumped[..]) == Some(t) {
        Emit(Do(BranchIfFalse(f)));
        fallthrough := true;
      } else if Next(todo, dumped[..]) == Some(f) {
        Emit(Do(Not));
        Emit(Do(BranchIfFalse(t)));
        fallthrough := true;
      } else {
        Emit(Do(BranchIfFalse(f)));
        Emit(Do(Goto(t)));
        fallthrough := false;
      }
    }

    method DumpJump(l: nat) returns (fallthrough: bool)
      requires Valid() && l in start && l < |bbs|
      requires |Code()| == start[l] + |bbs[l].rev| && Code()[start[l]] == At(l) && BodyPlaced(Code(), bbs[l], start[l])
      requires BodyCovered(bbs[l], |bbs[l].rev| - 1) && Covered({l}) && AllPlaced(bbs, Code(), start, {l})
      modifies `todo, `revCode, `pos
      ensures Valid() && Covered({}) && (fallthrough ==> Fallthrough(true).Some?)
      ensures AllPlaced(bbs, Expected(Code(), Fallthrough(fallthrough)), start, {})
      ensures old(Code()) <= Code()
    {
      JumpRefs(bbs, l);
      hide Valid, TreeShaker.Needed, CoveredLabel, Extends, JumpPlaced, Fallthrough;
      ghost var code, b := Code(), bbs[l];
      fallthrough := EmitJump(bbs[l].rev[0]);
      ghost var expected := Expected(Code(), Fallthrough(fallthrough));
      AllPlacedLonger(bbs, code, expected, start, {l});
      assert Placed(expected, b, l, start[l]);
      JumpCovered(l);
    }

    /** dump-bb: one block; true when the code is to fall through. */
    method DumpBlock(l: nat) returns (fallthrough: bool)
      requires Valid() && l in start && start[l] == |Code()|
      requires Covered({l}) && AllPlaced(bbs, Code() + [At(l)], start, {l})
      modifies `todo, `revCode, `pos
      ensures Valid() && Covered({}) && (fallthrough ==> Fallthrough(true).Some?)
      ensures AllPlaced(bbs, Expected(Code(), Fallthrough(fallthrough)), start, {})
      ensures old(Code()) + [At(l)] <= Code()
    {
      ghost var code := Code();
      DumpBody(l);
      AllPlacedLonger(bbs, code + [At(l)], Code(), start, {l});
      assert CoveredLabel(start, old(todo), 0);
      assert Code()[start[l]] == (code + [At(l)])[|code|];
      fallthrough := DumpJump(l);
    }

    ghost function Unfinished(): set<nat>
      reads dumped
    {
      set l | 0 <= l < dumped.Length && !dumped[l]
    }

    method Finish(l: nat)
      requires Valid() && l < |bbs| && TreeShaker.Needed(bbs, l) && !dumped[l]
      modifies `start, dumped
      ensures Valid() && start == old(start)[l := |Code()|] && Unfinished() < old(Unfinished())
    {
      ghost var before := Unfinished();
      dumped[l] := true;
      start := start[l := |Code()|];
      assert l in before && l !in Unfinished();
    }

    /** dump: until nothing is left to do; every block that is needed is laid out, once. */
    method Dump()
      requires Valid() && todo == [Todo(0, 0)] && start == map[] && Code() == []
      modifies `todo, `revCode, `pos, `start, dumped
      ensures Valid() && AllPlaced(bbs, Code(), start, {})
      ensures 0 in start && ClosedLabels(bbs, start.Keys) && Has(Code(), 0, At(0))
    {
      hide TreeShaker.Needed, Placed, Expected;
      var fallthrough := true;
      assert todo[0].name == 0 && Listed(todo, 0);
      ExpectedNext(Code(), todo, dumped[..], fallthrough);
      while true
        invariant Valid() && Covered({}) && (fallthrough ==> Fallthrough(true).Some?)
        invariant AllPlaced(bbs, Expected(Code(), Fallthrough(fallthrough)), start, {})
        invariant Has(Expected(Code(), Fallthrough(fallthrough)), 0, At(0))
        decreases Unfinished(), |todo|
      {
        ghost var was := todo;
        ExpectedNext(Code(), todo, dumped[..], fallthrough);
        var r := Get(fallthrough);
        if r.None? { break; }
        var l := r.value;
        CoveredTake(bbs, start, was, todo, l, |Code()|);
        if !dumped[l] {
          ghost var code := Code() + [At(l)];
          AllPlacedLonger(bbs, Expected(Code(), if fallthrough then Some(l) else None), code, start, {});
          Finish(l);
          fallthrough := DumpBlock(l);
          ExpectedLonger(code, Code(), Fallthrough(fallthrough));
        }
      }
      ListDone(bbs, start, todo);
    }

    lemma JumpCovered(l: nat)
      requires l < |bbs| && |bbs[l].rev| > 0 && Covered({l}) && BodyCovered(bbs[l], |bbs[l].rev| - 1)
      requires forall r | r in bbs[l].rev[0].Refs() :: CoveredLabel(start, todo, r)
      ensures Covered({})
    {
      var b := bbs[l];
      forall r | r in b.Refs() ensures CoveredLabel(start, todo, r) {
        var i :| 0 <= i < |b.rev| && r in b.rev[i].Refs();
        assert i > 0 ==> r in b.Nth(|b.rev| - 1 - i).Refs();
      }
    }
  }

  /** Falling through, the front of the list is the expected label or one that is finished. */
  lemma ExpectedNext(code: seq<Item>, todo: seq<Todo>, dumped: seq<bool>, fallthrough: bool)
    ensures Expected(code, None) == code && forall l: nat :: Expected(code, Some(l)) == code + [At(l)]
    ensures todo == [] ==> Next(todo, dumped).None?
    ensures todo != [] && todo[0].name < |dumped| ==>
      Next(todo, dumped) == if dumped[todo[0].name] then Next(todo[1..], dumped) else Some(todo[0].name)
  {}

  lemma ExpectedLonger(code: seq<Item>, more: seq<Item>, next: Option<nat>)
    requires code <= more && Has(code, 0, At(0))
    ensures Has(Expected(more, next), 0, At(0))
  {}

  lemma ListDone(bbs: seq<Block>, start: map<nat, nat>, todo: seq<Todo>)
    requires CoveredBy(bbs, start, todo, {}) && forall i | 0 <= i < |todo| :: todo[i].name in start
    requires forall l | l in start :: l < |bbs|
    ensures 0 in start && ClosedLabels(bbs, start.Keys)
  {
    forall r | CoveredLabel(start, todo, r) ensures r in start {
    }
  }

  lemma BranchForms(code: seq<Item>, f: nat, t: nat)
    ensures JumpPlaced(Expected(code + [Do(BranchIfFalse(f))], Some(t)), GotoIfFalse(f, t), |code|)
    ensures JumpPlaced(Expected(code + [Do(Not)] + [Do(BranchIfFalse(t))], Some(f)), GotoIfFalse(f, t), |code|)
    ensures JumpPlaced(Expected(code + [Do(BranchIfFalse(f))] + [Do(Goto(t))], None), GotoIfFalse(f, t), |code|)
  {}

  ghost predicate BodyPlaced(code: seq<Item>, b: Block, p: nat) {
    && p + |b.rev| <= |code|
    && forall k: nat | k < |b.rev| - 1 :: code[p + 1 + k] == Do(b.Nth(k))
  }

  lemma BodyInstr(bbs: seq<Block>, l: nat, k: nat)
    requires WellFormed(bbs) && l < |bbs| && k < |bbs[l].rev| - 1 && TreeShaker.Needed(bbs, l)
    ensures var i := bbs[l].Nth(k); !i.IsJump() && forall r | r in i.Refs() :: r < |bbs| && TreeShaker.Needed(bbs, r)
  {
    var b := bbs[l];
    assert WellFormedBlock(bbs, b);
    RefsOf(b, b.rev, |b.rev| - 1 - k);
    NeededRefs(bbs, l);
  }

  lemma JumpRefs(bbs: seq<Block>, l: nat)
    requires WellFormed(bbs) && l < |bbs| && TreeShaker.Needed(bbs, l)
    ensures var j := bbs[l].rev; |j| > 0 && forall r | r in j[0].Refs() :: r < |bbs| && TreeShaker.Needed(bbs, r)
    ensures var j := bbs[l].rev[0]; j.Refs() == {} || j.Goto? || j.GotoIfFalse? || j.JumpToplevel?
  {
    var b := bbs[l];
    assert WellFormedBlock(bbs, b);
    RefsOf(b, b.rev, 0);
    NeededRefs(bbs, l);
  }

  lemma NeededRefs(bbs: seq<Block>, l: nat)
    requires l < |bbs| && TreeShaker.Needed(bbs, l)
    ensures forall r | r in bbs[l].Refs() :: TreeShaker.Needed(bbs, r)
  {}

  /** linearize */
  method Linearize(bbs: seq<Block>) returns (code: seq<Item>, ghost start: map<nat, nat>)
    requires WellFormed(bbs)
    ensures Layout(bbs, code, start) && Has(code, 0, At(0))
    ensures 0 in start && ClosedLabels(bbs, start.Keys)
    ensures forall s | ClosedLabels(bbs, s) && 0 in s :: start.Keys <= s
  {
    var z := new Linearizer(bbs);
    z.Schedule(0, false);
    z.Dump();
    code := Rev(z.revCode);
    start := z.start;
    forall s | ClosedLabels(bbs, s) && 0 in s ensures start.Keys <= s {
      assert forall l | l in start :: TreeShaker.Needed(bbs, l);
    }
  }

  /** The linear code computes what the blocks compute, from the entry block on, whatever the
      instructions do to the data. */
  lemma Linearized<D(!new)>(w: World<D>, bbs: seq<Block>, code: seq<Item>, start: map<nat, nat>, d: D, result: D)
    requires Lawful(w) && w.labels(d) == {} && WellFormed(bbs)
    requires Layout(bbs, code, start) && Has(code, 0, At(0)) && 0 in start && ClosedLabels(bbs, start.Keys)
    ensures BlocksEnd(w, bbs, State(Point(0, 0), [], d), result) ==> LinearEnds(w, code, State(0, [], d), result)
    ensures NeverStuck(w, bbs, State(Point(0, 0), [], d)) && LinearEnds(w, code, State(0, [], d), result) ==>
      BlocksEnd(w, bbs, State(Point(0, 0), [], d), result)
  {
    var b, s, t := State(Point(0, 0), [], d), State(0, [], d), State(1, [], d);
    assert start[0] == 0 && Agree(w, start, b, t);
    SameResult(w, bbs, code, start, b, t, result);
    assert LinearStep(w, code, s) == Running(t);
    if LinearEnds(w, code, t, result) {
      var n: nat :| LinearRun(w, code, t, n) == Halted(result);
      assert LinearRun(w, code, s, n + 1) == Halted(result);
    }
    if LinearEnds(w, code, s, result) {
      var n: nat :| LinearRun(w, code, s, n) == Halted(result);
      assert LinearRun(w, code, t, n - 1) == Halted(result);
    }
  }
}
