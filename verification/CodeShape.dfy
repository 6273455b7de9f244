/** What code generation does to code, whatever the expression: it only adds, it uses every label it
    makes for one block, and every block it leaves ends in its only jump. */
module CodeShape {
  import opened Blocks
  import opened CodeGen
  import opened Source
  import opened Wrappers

  ghost predicate Holds(p: seq<Block>, b: Block) {
    b.name < |p| && p[b.name].rev == b.rev
  }

  /** The block may have grown since. */
  ghost predicate HoldsStart(p: seq<Block>, b: Block) {
    b.name < |p| && |b.rev| <= |p[b.name].rev| && p[b.name].rev[|p[b.name].rev| - |b.rev|..] == b.rev
  }

  /** The program has the code in it. */
  ghost predicate Installed(p: seq<Block>, c: Code) {
    c.revBbs != [] && HoldsStart(p, c.revBbs[0]) && forall i | 0 < i < |c.revBbs| :: Holds(p, c.revBbs[i])
  }

  /** Whatever has the later code in it has the earlier. */
  ghost predicate Grows(c: Code, d: Code) {
    forall p | Installed(p, d) :: Installed(p, c)
  }

  lemma GrowsInstr(i: Instr, ctx: Context)
    requires ctx.code.revBbs != []
    ensures Grows(ctx.code, AddInstr(ctx, i).code)
  {
    var d := AddInstr(ctx, i).code;
    forall p | Installed(p, d) ensures Installed(p, ctx.code) {
      InstrBack(p, i, ctx);
    }
  }

  lemma InstrBack(p: seq<Block>, i: Instr, ctx: Context)
    requires ctx.code.revBbs != [] && Installed(p, AddInstr(ctx, i).code)
    ensures Installed(p, ctx.code)
    ensures var b := ctx.code.revBbs[0]; b.name < |p| && |b.rev| < |p[b.name].rev| && p[b.name].Nth(|b.rev|) == i
  {
    var c, d := ctx.code.revBbs, AddInstr(ctx, i).code.revBbs;
    var rev := p[c[0].name].rev;
    assert d[0].rev == rev[|rev| - |d[0].rev|..];
    assert c[0].rev == d[0].rev[1..] == rev[|rev| - |c[0].rev|..];
    forall k | 0 < k < |c| ensures Holds(p, c[k]) {
      assert d[k] == c[k];
    }
  }

  lemma BbBack(p: seq<Block>, ctx: Context, l: nat)
    requires ctx.code.revBbs != [] && Installed(p, AddBb(ctx, l).code)
    ensures Installed(p, ctx.code) && l < |p| && Holds(p, ctx.code.revBbs[0])
  {
    var c, d := ctx.code.revBbs, AddBb(ctx, l).code.revBbs;
    assert forall k | 0 <= k < |c| :: d[k + 1] == c[k];
    assert Holds(p, d[1]);
    forall k | 0 < k < |c| ensures Holds(p, c[k]) {
      assert Holds(p, d[k + 1]);
    }
  }

  lemma GrowsBb(ctx: Context, l: nat)
    requires ctx.code.revBbs != []
    ensures Grows(ctx.code, AddBb(ctx, l).code)
  {
    forall p | Installed(p, AddBb(ctx, l).code) ensures Installed(p, ctx.code) {
      BbBack(p, ctx, l);
    }
  }

  // ---- labels

  ghost function Range(a: nat, b: nat): multiset<nat>
    requires a <= b
    decreases b
  {
    if a == b then multiset{} else Range(a, b - 1) + multiset{b}
  }

  lemma {:induction false} RangeSplit(a: nat, b: nat, c: nat)
    requires a <= b <= c
    ensures Range(a, c) == Range(a, b) + Range(b, c)
    decreases c
  {
    if b < c {
      RangeSplit(a, b, c - 1);
    }
  }

  ghost function Bag(bbs: seq<Block>): multiset<nat> {
    if bbs == [] then multiset{} else multiset{bbs[0].name} + Bag(bbs[1..])
  }

  /** Between the two, the blocks with labels more were added, and labels up to the last one made. */
  ghost predicate Adds(c: Code, d: Code, more: multiset<nat>) {
    c.lastLabel <= d.lastLabel && Bag(d.revBbs) == Bag(c.revBbs) + more
  }

  ghost predicate AddsAll(c: Code, d: Code) {
    c.lastLabel <= d.lastLabel && Adds(c, d, Range(c.lastLabel, d.lastLabel))
  }

  // ---- jumps

  /** Still open: no jump yet. */
  ghost predicate Straight(rev: seq<Instr>, last: nat) {
    forall k | 0 <= k < |rev| :: !rev[k].IsJump() && forall l | l in rev[k].Refs() :: l <= last
  }

  ghost predicate Ended(rev: seq<Instr>, last: nat) {
    && |rev| > 0 && (rev[0].Goto? || rev[0].GotoIfFalse? || rev[0].Jump? || rev[0].Return?)
    && (forall l | l in rev[0].Refs() :: l <= last) && Straight(rev[1..], last)
  }

  ghost predicate Tidy(c: Code) {
    c.revBbs != [] && forall i | 0 < i < |c.revBbs| :: Ended(c.revBbs[i].rev, c.lastLabel)
  }

  /** The head is open, and everything before it is finished. */
  ghost predicate Open(c: Code) {
    Tidy(c) && Straight(c.revBbs[0].rev, c.lastLabel)
  }

  ghost predicate Shut(c: Code) {
    Tidy(c) && Ended(c.revBbs[0].rev, c.lastLabel)
  }

  /** One part of an expression's code. */
  ghost predicate Step(c: Code, d: Code) {
    Grows(c, d) && AddsAll(c, d) && (Open(c) ==> Open(d))
  }

  ghost predicate LastStep(c: Code, d: Code) {
    Grows(c, d) && AddsAll(c, d) && (Open(c) ==> Shut(d))
  }

  lemma StepRefl(c: Code)
    ensures Step(c, c)
  {}

  lemma StepTrans(a: Code, b: Code, c: Code)
    requires Step(a, b)
    ensures Step(b, c) ==> Step(a, c)
    ensures LastStep(b, c) ==> LastStep(a, c)
  {
    if AddsAll(b, c) {
      RangeSplit(a.lastLabel, b.lastLabel, c.lastLabel);
    }
  }

  /** An instruction that is not a jump, and refers to labels that exist. */
  lemma InstrStep(i: Instr, pops: nat, pushes: nat, ctx: Context)
    requires Good(ctx) && pops <= ctx.env.local.size && forall l | l in i.Refs() :: l <= ctx.code.lastLabel
    ensures var d := GenInstruction(i, pops, pushes, ctx).code;
      && (!i.IsJump() ==> Step(ctx.code, d))
      && (i.Goto? || i.GotoIfFalse? || i.Jump? || i.Return? ==> LastStep(ctx.code, d))
  {
    var c, d := ctx.code, GenInstruction(i, pops, pushes, ctx).code;
    GrowsInstr(i, ctx);
    assert GenInstruction(i, pops, pushes, ctx).code == AddInstr(ctx, i).code;
    assert d.revBbs[0].rev[1..] == c.revBbs[0].rev && d.revBbs[1..] == c.revBbs[1..];
    assert forall k | 0 < k < |c.revBbs| :: d.revBbs[k] == c.revBbs[k];
    assert Bag(d.revBbs) == Bag(c.revBbs);
  }

  // ---- labels made and blocks begun on the way

  /** d comes after c, has made labels beyond c's, and still owes blocks for those in due. */
  ghost predicate Under(c: Code, d: Code, due: multiset<nat>) {
    && Grows(c, d) && c.lastLabel <= d.lastLabel
      && Bag(d.revBbs) + due == Bag(c.revBbs) + Range(c.lastLabel, d.lastLabel)
    && (forall l | l in due :: l <= d.lastLabel)
  }

  lemma UnderLabel(c: Code, ctx: Context, due: multiset<nat>)
    requires Under(c, ctx.code, due)
    ensures var r := MakeLabel(ctx); Under(c, r.0.code, due + multiset{r.1}) && (Open(ctx.code) ==> Open(r.0.code))
  {
    hide Grows, Installed, Bag, Open;
    var b := ctx.code;
    var d, l := MakeLabel(ctx).0.code, b.lastLabel + 1;
    GrowsSame(c, b, d);
    RangeNext(c.lastLabel, b.lastLabel);
    BagMore(Bag(b.revBbs), Bag(c.revBbs), due, Range(c.lastLabel, b.lastLabel), l);
    OpenMore(b, d);
  }

  lemma RangeNext(a: nat, b: nat)
    requires a <= b
    ensures Range(a, b + 1) == Range(a, b) + multiset{b + 1}
  {}

  lemma GrowsSame(c: Code, b: Code, d: Code)
    requires Grows(c, b) && d.revBbs == b.revBbs
    ensures Grows(c, d)
  {
    forall p | Installed(p, d) ensures Installed(p, c) {
      assert Installed(p, b);
    }
  }

  lemma BagMore(a: multiset<nat>, b: multiset<nat>, due: multiset<nat>, r: multiset<nat>, l: nat)
    requires a + due == b + r
    ensures a + (due + multiset{l}) == b + (r + multiset{l})
  {
    assert a + (due + multiset{l}) == (a + due) + multiset{l};
  }

  lemma OpenMore(c: Code, d: Code)
    requires c.revBbs == d.revBbs && c.lastLabel <= d.lastLabel
    ensures Open(c) ==> Open(d)
  {
    forall i | 0 < i < |c.revBbs| && Open(c) ensures Ended(d.revBbs[i].rev, d.lastLabel) {
      assert Ended(c.revBbs[i].rev, c.lastLabel);
    }
  }

  lemma UnderStep(c: Code, d: Code, e: Code, due: multiset<nat>)
    requires Under(c, d, due) && (Step(d, e) || LastStep(d, e))
    ensures Under(c, e, due)
  {
    RangeSplit(c.lastLabel, d.lastLabel, e.lastLabel);
    var more := Range(d.lastLabel, e.lastLabel);
    assert Bag(e.revBbs) + due == (Bag(d.revBbs) + due) + more;
    assert (Bag(c.revBbs) + Range(c.lastLabel, d.lastLabel)) + more == Bag(c.revBbs) + Range(c.lastLabel, e.lastLabel);
  }

  lemma UnderBb(c: Code, ctx: Context, l: nat, due: multiset<nat>)
    requires Under(c, ctx.code, due + multiset{l}) && ctx.code.revBbs != []
    ensures Under(c, AddBb(ctx, l).code, due) && (Shut(ctx.code) ==> Open(AddBb(ctx, l).code))
  {
    var d, e := ctx.code, AddBb(ctx, l).code;
    GrowsBb(ctx, l);
    assert e.revBbs[1..] == d.revBbs;
    forall i | 0 < i < |e.revBbs| && Shut(d) ensures Ended(e.revBbs[i].rev, e.lastLabel) {
      assert e.revBbs[i] == d.revBbs[i - 1];
    }
    assert l in due + multiset{l};
    assert Bag(e.revBbs) + due == Bag(d.revBbs) + (due + multiset{l});
    assert forall x | x in due :: x in due + multiset{l};
  }

  /** On the way from c: the head open or shut, and blocks still due. */
  ghost predicate Way(c: Code, d: Code, due: multiset<nat>, open: bool) {
    Under(c, d, due) && (Open(c) ==> if open then Open(d) else Shut(d))
  }

  lemma WayStart(c: Code)
    ensures Way(c, c, multiset{}, true)
  {}

  lemma WayDone(c: Code, d: Code)
    requires Way(c, d, multiset{}, true) || Way(c, d, multiset{}, false)
    ensures Way(c, d, multiset{}, true) ==> Step(c, d)
    ensures Way(c, d, multiset{}, false) ==> LastStep(c, d)
  {}

  lemma WayLabel(c: Code, ctx: Context, due: multiset<nat>)
    requires Way(c, ctx.code, due, true)
    ensures var r := MakeLabel(ctx); Way(c, r.0.code, due + multiset{r.1}, true)
  {
    UnderLabel(c, ctx, due);
  }

  lemma WayStep(c: Code, d: Code, e: Code, due: multiset<nat>)
    requires Way(c, d, due, true)
    ensures Step(d, e) ==> Way(c, e, due, true)
    ensures LastStep(d, e) ==> Way(c, e, due, false)
  {
    if Step(d, e) || LastStep(d, e) {
      UnderStep(c, d, e, due);
    }
  }

  lemma WayBb(c: Code, ctx: Context, l: nat, due: multiset<nat>)
    requires Way(c, ctx.code, due, false) && l in due && ctx.code.revBbs != []
    ensures Way(c, AddBb(ctx, l).code, due - multiset{l}, true)
  {
    assert due == (due - multiset{l}) + multiset{l};
    UnderBb(c, ctx, l, due - multiset{l});
  }

  ghost predicate Fits(reason: Reason, c: Code, d: Code) {
    if reason == ForTail then LastStep(c, d) else Step(c, d)
  }

  /** The code of every expression is a step, and a last one in tail position. */
  lemma {:induction false} CompStep(t: Table, e: Expr, reason: Reason, ctx: Context)
    requires Good(ctx) && HasCons(t) && Scoped(t, e, Vars(ctx.env))
    ensures Fits(reason, ctx.code, Comp(t, e, reason, ctx).code)
    decreases Size(e), 4
  {
    hide Step, LastStep, CompNone, CompTail, CompPush, CompIf, CompSeq, CompAll, CompPrc, CompArgs, CompPrimCall;
    hide CompCall, CompTest, Build, Vars, AllScoped;
    match reason
    case ForNone => NoneStep(t, e, ctx);
    case ForPush => PushStep(t, e, ctx);
    case ForTail => TailStep(t, e, ctx);
  }

  lemma {:induction false} NoneStep(t: Table, e: Expr, ctx: Context)
    requires Good(ctx) && HasCons(t) && Scoped(t, e, Vars(ctx.env))
    ensures Step(ctx.code, CompNone(t, e, ctx).code)
    decreases Size(e), 1
  {
    StepRefl(ctx.code);
    hide Step, LastStep, CompTail, CompPush, Comp, CompIf, CompSeq, CompAll, CompPrc, CompArgs, CompPrimCall, CompCall;
    hide CompTest, Build, Vars, AllScoped;
    match e
    case GlobalSet(k, rhs) =>
      PushStep(t, rhs, ctx);
      InstrStep(Op(SetGlobal(k)), 1, 0, CompPush(t, rhs, ctx));
      StepTrans(ctx.code, CompPush(t, rhs, ctx).code, CompNone(t, e, ctx).code);
    case If(_, _, _) => IfStep(t, e, ForNone, ctx);
    case Begin(_) => SeqStep(t, e, ForNone, ctx);
    case PrimCall(_, _) => PrimStep(t, e, ForNone, ctx);
    case Call(_, _) => CallStep(t, e, ForNone, ctx);
    case _ =>
  }

  lemma ReturnStep(c: Code, ctx: Context)
    requires Good(ctx) && Step(c, ctx.code)
    ensures LastStep(c, GenReturn(ctx).code)
  {
    hide Step, LastStep;
    InstrStep(Return, ctx.env.local.size, 0, ctx);
    StepTrans(c, ctx.code, GenReturn(ctx).code);
  }

  lemma {:induction false} TailStep(t: Table, e: Expr, ctx: Context)
    requires Good(ctx) && HasCons(t) && Scoped(t, e, Vars(ctx.env))
    ensures LastStep(ctx.code, CompTail(t, e, ctx).code)
    decreases Size(e), 3
  {
    hide Step, LastStep, CompNone, CompPush, Comp, CompIf, CompSeq, CompAll, CompPrc, CompArgs, CompPrimCall, CompCall;
    hide CompTest, Build, Vars, AllScoped;
    match e
    case If(_, _, _) => IfStep(t, e, ForTail, ctx);
    case Begin(_) => SeqStep(t, e, ForTail, ctx);
    case PrimCall(_, _) => PrimStep(t, e, ForTail, ctx);
    case Call(_, _) => CallStep(t, e, ForTail, ctx);
    case _ =>
      PushStep(t, e, ctx);
      ReturnStep(ctx.code, CompPush(t, e, ctx));
  }

  lemma LocalVarStep(x: Var, ctx: Context)
    requires Good(ctx) && x in Vars(ctx.env)
    ensures Step(ctx.code, GenPushLocalVar(x, ctx).code)
  {
    hide Step, LastStep;
    var i := FindLocalVar(x, ctx.env);
    InstrStep(Op(PushStack(if i >= 0 then i else -1 - i + |ctx.env.local.slots|)), 0, 1, ctx);
  }

  lemma {:induction false} PushStep(t: Table, e: Expr, ctx: Context)
    requires Good(ctx) && HasCons(t) && Scoped(t, e, Vars(ctx.env))
    ensures Step(ctx.code, CompPush(t, e, ctx).code)
    decreases Size(e), 2
  {
    hide Step, LastStep, CompNone, CompTail, Comp, CompIf, CompSeq, CompAll, CompPrc, CompArgs, CompPrimCall, CompCall;
    hide CompTest, Build, Vars, AllScoped;
    match e
    case Cst(c) => InstrStep(Op(PushConstant(c)), 0, 1, ctx);
    case Ref(x) => LocalVarStep(x, ctx);
    case GlobalRef(k) => InstrStep(Op(PushGlobal(k)), 0, 1, ctx);
    case GlobalSet(_, _) =>
      NoneStep(t, e, ctx);
      InstrStep(Op(PushConstant(FALSE)), 0, 1, CompNone(t, e, ctx));
      StepTrans(ctx.code, CompNone(t, e, ctx).code, CompPush(t, e, ctx).code);
    case If(_, _, _) => IfStep(t, e, ForPush, ctx);
    case Lambda(_, _, _) => PrcStep(t, e, ctx);
    case Begin(_) => SeqStep(t, e, ForPush, ctx);
    case PrimCall(_, _) => PrimStep(t, e, ForPush, ctx);
    case Call(_, _) => CallStep(t, e, ForPush, ctx);
  }

  lemma GotoStep(c: Code, ctx: Context, l: nat, due: multiset<nat>)
    requires Good(ctx) && Way(c, ctx.code, due, true) && l in due
    ensures Way(c, GenGoto(l, ctx).code, due, false)
  {
    assert l <= ctx.code.lastLabel;
    hide Step, LastStep;
    InstrStep(Goto(l), 0, 0, ctx);
    WayStep(c, ctx.code, GenGoto(l, ctx).code, due);
  }

  lemma {:induction false} IfStep(t: Table, e: Expr, reason: Reason, ctx: Context)
    requires e.If? && Good(ctx) && HasCons(t) && Scoped(t, e, Vars(ctx.env))
    ensures Fits(reason, ctx.code, CompIf(t, e, reason, ctx).code)
    decreases Size(e), 0
  {
    hide Step, LastStep, Way, CompNone, CompTail, CompPush, Comp, CompSeq, CompAll, CompPrc, CompArgs, CompPrimCall;
    hide CompCall, CompTest, Build, Vars, AllScoped;
    var c := ctx.code;
    WayStart(c);
    var (ctx2, labelThen) := MakeLabel(ctx);
    WayLabel(c, ctx, multiset{});
    var (ctx3, labelElse) := MakeLabel(ctx2);
    var due2 := multiset{} + multiset{labelThen};
    WayLabel(c, ctx2, due2);
    if reason == ForTail {
      var due := due2 + multiset{labelElse};
      var ctx4 := CompTest(t, e.tst, labelThen, labelElse, ctx3);
      TestStep(t, e.tst, labelThen, labelElse, ctx3);
      WayStep(c, ctx3.code, ctx4.code, due);
      WayBb(c, ctx4, labelElse, due);
      var els := AddBb(ctx4, labelElse).(env2 := None);
      var ctx5 := CompTail(t, e.els, els);
      TailStep(t, e.els, els);
      WayStep(c, els.code, ctx5.code, due - multiset{labelElse});
      WayBb(c, ctx5, labelThen, due - multiset{labelElse});
      var thn := AddBb(ctx5, labelThen).(env := ctx4.env2.value);
      TailStep(t, e.thn, thn);
      assert due - multiset{labelElse} - multiset{labelThen} == multiset{};
      WayStep(c, thn.code, CompTail(t, e.thn, thn).code, multiset{});
      WayDone(c, CompTail(t, e.thn, thn).code);
    } else {
      var (ctx4, labelThenJoin) := MakeLabel(ctx3);
      var due3 := due2 + multiset{labelElse};
      WayLabel(c, ctx3, due3);
      var (ctx5, labelElseJoin) := MakeLabel(ctx4);
      var due4 := due3 + multiset{labelThenJoin};
      WayLabel(c, ctx4, due4);
      var (ctx6, labelJoin) := MakeLabel(ctx5);
      var due5 := due4 + multiset{labelElseJoin};
      WayLabel(c, ctx5, due5);
      var due := due5 + multiset{labelJoin};
      IfBody(t, e, reason, ctx, ctx6, labelThen, labelElse, labelThenJoin, labelElseJoin, labelJoin, due);
    }
  }

  /** Both branches, and the blocks where they come together again. */
  lemma {:induction false} IfBody(t: Table, e: Expr, reason: Reason, ctx: Context, ctx6: Context, labelThen: nat,
                                  labelElse: nat,
                                  labelThenJoin: nat, labelElseJoin: nat, labelJoin: nat, due: multiset<nat>)
    requires e.If? && Good(ctx) && HasCons(t) && Scoped(t, e, Vars(ctx.env)) && reason != ForTail
    requires ctx6 == ctx.(code := ctx.code.(lastLabel := ctx.code.lastLabel + 5))
    requires labelThen == ctx.code.lastLabel + 1 && labelElse == labelThen + 1 && labelThenJoin == labelThen + 2
    requires labelElseJoin == labelThen + 3 && labelJoin == labelThen + 4
    requires due == multiset{labelThen, labelElse, labelThenJoin, labelElseJoin, labelJoin}
    requires Way(ctx.code, ctx6.code, due, true)
    ensures Fits(reason, ctx.code, CompIf(t, e, reason, ctx).code)
    decreases Size(e), 0, 0
  {
    hide Step, LastStep, Way, Bag, Range, CompNone, CompTail, CompPush, Comp, CompSeq, CompAll, CompPrc, CompArgs;
    hide CompPrimCall, CompCall, CompTest, Build, Vars, AllScoped;
    var c := ctx.code;
    var ctx7 := CompTest(t, e.tst, labelThen, labelElse, ctx6);
    TestStep(t, e.tst, labelThen, labelElse, ctx6);
    WayStep(c, ctx6.code, ctx7.code, due);
    WayBb(c, ctx7, labelElse, due);
    var due6 := due - multiset{labelElse};
    var elseCtx := AddBb(ctx7, labelElse).(env2 := None);
    var els := Comp(t, e.els, reason, elseCtx);
    CompStep(t, e.els, reason, elseCtx);
    WayStep(c, elseCtx.code, els.code, due6);
    GotoStep(c, els, labelElseJoin, due6);
    var ctx8 := GenGoto(labelElseJoin, els);
    WayBb(c, ctx8, labelThen, due6);
    var due7 := due6 - multiset{labelThen};
    var thenCtx := AddBb(ctx8, labelThen).(env := ctx7.env2.value);
    var thn := Comp(t, e.thn, reason, thenCtx);
    CompStep(t, e.thn, reason, thenCtx);
    WayStep(c, thenCtx.code, thn.code, due7);
    GotoStep(c, thn, labelThenJoin, due7);
    var ctx9 := GenGoto(labelThenJoin, thn);
    JoinStep(c, ctx9, labelThenJoin, labelElseJoin, labelJoin, due7);
  }

  lemma JoinStep(c: Code, ctx9: Context, labelThenJoin: nat, labelElseJoin: nat, labelJoin: nat, due: multiset<nat>)
    requires Good(ctx9) && Way(c, ctx9.code, due, false)
    requires due == multiset{labelThenJoin, labelElseJoin, labelJoin}
    ensures var ctx10 := GenGoto(labelJoin, AddBb(ctx9, labelElseJoin));
      var ctx11 := GenGoto(labelJoin, AddBb(ctx10, labelThenJoin));
      Step(c, AddBb(ctx11, labelJoin).code)
  {
    hide Step, LastStep, Way, Bag, Range;
    WayBb(c, ctx9, labelElseJoin, due);
    var due8 := due - multiset{labelElseJoin};
    assert due8 == multiset{labelThenJoin, labelJoin};
    GotoStep(c, AddBb(ctx9, labelElseJoin), labelJoin, due8);
    var ctx10 := GenGoto(labelJoin, AddBb(ctx9, labelElseJoin));
    WayBb(c, ctx10, labelThenJoin, due8);
    var due9 := due8 - multiset{labelThenJoin};
    assert due9 == multiset{labelJoin};
    GotoStep(c, AddBb(ctx10, labelThenJoin), labelJoin, due9);
    var ctx11 := GenGoto(labelJoin, AddBb(ctx10, labelThenJoin));
    WayBb(c, ctx11, labelJoin, due9);
    assert due9 - multiset{labelJoin} == multiset{};
    WayDone(c, AddBb(ctx11, labelJoin).code);
  }

  lemma {:induction false} SeqStep(t: Table, e: Expr, reason: Reason, ctx: Context)
    requires e.Begin? && Good(ctx) && HasCons(t) && Scoped(t, e, Vars(ctx.env))
    ensures Fits(reason, ctx.code, CompSeq(t, e, reason, ctx).code)
    decreases Size(e), 0
  {
    StepRefl(ctx.code);
    hide Step, LastStep, CompNone, CompTail, CompPush, Comp, CompIf, CompAll, CompPrc, CompArgs, CompPrimCall, CompCall;
    hide CompTest, Build, Vars, AllScoped;
    if e.es == [] {
      InstrStep(Op(PushConstant(FALSE)), 0, 1, ctx);
      ReturnStep(ctx.code, GenPushUnspecified(ctx));
    } else {
      AllStep(t, e.es, reason, ctx);
    }
  }

  lemma {:induction false} AllStep(t: Table, es: seq<Expr>, reason: Reason, ctx: Context)
    requires es != [] && Good(ctx) && HasCons(t) && AllScoped(t, es, Vars(ctx.env))
    ensures Fits(reason, ctx.code, CompAll(t, es, reason, ctx).code)
    decreases Sizes(es), 5
  {
    hide Step, LastStep, CompNone, CompTail, CompPush, Comp, CompIf, CompSeq, CompPrc, CompArgs, CompPrimCall, CompCall;
    hide CompTest, Build, Vars, Scoped;
    if |es| == 1 {
      CompStep(t, es[0], reason, ctx);
    } else {
      NoneStep(t, es[0], ctx);
      AllStep(t, es[1..], reason, CompNone(t, es[0], ctx));
      StepTrans(ctx.code, CompNone(t, es[0], ctx).code, CompAll(t, es, reason, ctx).code);
    }
  }

  lemma {:induction false} BuildStep(t: Table, vars: seq<Var>, ctx: Context)
    requires Good(ctx) && HasCons(t) && Names(vars) <= Vars(ctx.env)
    ensures Step(ctx.code, Build(t, vars, ctx).code)
    decreases |vars|
  {
    hide Step, LastStep;
    if vars == [] {
      InstrStep(Op(PushConstant(NIL)), 0, 1, ctx);
    } else {
      assert vars[0] in Names(vars) && Names(vars[1..]) <= Names(vars);
      var ctx2 := GenPushLocalVar(vars[0], ctx);
      LocalVarEffect(vars[0], ctx);
      PushedVars(ctx.env);
      var ctx3 := Build(t, vars[1..], ctx2);
      LocalVarStep(vars[0], ctx);
      BuildStep(t, vars[1..], ctx2);
      StepTrans(ctx.code, ctx2.code, ctx3.code);
      InstrStep(Op(Prim(CONS)), 2, 1, ctx3);
      StepTrans(ctx.code, ctx3.code, Build(t, vars, ctx).code);
    }
  }

  lemma {:induction false} PrcStep(t: Table, e: Expr, ctx: Context)
    requires e.Lambda? && Good(ctx) && HasCons(t) && Scoped(t, e, Vars(ctx.env))
    ensures Step(ctx.code, CompPrc(t, e, ctx).code)
    decreases Size(e), 0
  {
    hide Step, LastStep, Way, Bag, Range, CompNone, CompTail, CompPush, Comp, CompIf, CompSeq, CompAll, CompArgs;
    hide CompPrimCall, CompCall, CompTest, Build, Vars, AllScoped;
    var c := ctx.code;
    WayStart(c);
    var (ctx2, labelEntry) := MakeLabel(ctx);
    WayLabel(c, ctx, multiset{});
    var (ctx3, labelContinue) := MakeLabel(ctx2);
    var due2 := multiset{} + multiset{labelEntry};
    WayLabel(c, ctx2, due2);
    var due := due2 + multiset{labelContinue};
    assert due == multiset{labelEntry, labelContinue};
    var list := Build(t, e.free, ctx3);
    BuildStep(t, e.free, ctx3);
    WayStep(c, ctx3.code, list.code, due);
    WayBounds(c, list.code, due, labelEntry);
    InstrStep(Instr.Closure(labelEntry), 1, 1, list);
    var ctx4 := GenInstruction(Instr.Closure(labelEntry), 1, 1, list);
    WayStep(c, list.code, ctx4.code, due);
    GotoStep(c, ctx4, labelContinue, due);
    var ctx5 := GenGoto(labelContinue, ctx4);
    WayBb(c, ctx5, labelEntry, due);
    PrcVars(e);
    var body := BodyContext(e, ctx5, labelEntry);
    var due3 := due - multiset{labelEntry};
    assert due3 == multiset{labelContinue};
    var start := AddBb(ctx5.(env := PrcEnv(e)), labelEntry);
    InstrStep(Op(Entry(|e.params|, false)), 0, 0, start);
    WayStep(c, start.code, body.code, due3);
    TailStep(t, e.body, body);
    var ctx7 := CompTail(t, e.body, body);
    WayStep(c, body.code, ctx7.code, due3);
    WayBb(c, ctx7, labelContinue, due3);
    assert due3 - multiset{labelContinue} == multiset{};
    WayDone(c, CompPrc(t, e, ctx).code);
  }

  lemma WayBounds(c: Code, d: Code, due: multiset<nat>, l: nat)
    requires Way(c, d, due, true) && l in due
    ensures l <= d.lastLabel
  {}

  lemma {:induction false} ArgsStep(t: Table, es: seq<Expr>, ctx: Context)
    requires Good(ctx) && HasCons(t) && AllScoped(t, es, Vars(ctx.env))
    ensures Step(ctx.code, CompArgs(t, es, ctx).code)
    decreases Sizes(es), 5
  {
    StepRefl(ctx.code);
    hide Step, LastStep, CompNone, CompTail, CompPush, Comp, CompIf, CompSeq, CompAll, CompPrc, CompPrimCall, CompCall;
    hide CompTest, Build, Vars, Scoped;
    if es != [] {
      PushedVars(ctx.env);
      PushStep(t, es[0], ctx);
      ArgsStep(t, es[1..], CompPush(t, es[0], ctx));
      StepTrans(ctx.code, CompPush(t, es[0], ctx).code, CompArgs(t, es, ctx).code);
    }
  }

  lemma {:induction false} PrimStep(t: Table, e: Expr, reason: Reason, ctx: Context)
    requires e.PrimCall? && Good(ctx) && HasCons(t) && Scoped(t, e, Vars(ctx.env))
    ensures Fits(reason, ctx.code, CompPrimCall(t, e, reason, ctx).code)
    decreases Size(e), 0
  {
    hide Step, LastStep, CompNone, CompTail, CompPush, Comp, CompIf, CompSeq, CompAll, CompPrc, CompArgs, CompCall;
    hide CompTest, Build, Vars, AllScoped;
    var c, args := ctx.code, CompArgs(t, e.args, ctx);
    ArgsStep(t, e.args, ctx);
    PopEffect(Op(Prim(e.id)), |e.args|, args, ctx.env);
    var result := GenPrim(t, e.id, args);
    InstrStep(Op(Prim(e.id)), |e.args|, if t.unspecified(e.id) then 0 else 1, args);
    StepTrans(c, args.code, result.code);
    if t.unspecified(e.id) {
      var pushed := GenPushUnspecified(result);
      InstrStep(Op(PushConstant(FALSE)), 0, 1, result);
      StepTrans(c, result.code, pushed.code);
      ReturnStep(c, pushed);
    } else {
      PushedByOne(0, ctx.env);
      InstrStep(Op(Pop), 1, 0, result);
      StepTrans(c, result.code, GenInstruction(Op(Pop), 1, 0, result).code);
      ReturnStep(c, result);
    }
  }

  lemma {:induction false} CallStep(t: Table, e: Expr, reason: Reason, ctx: Context)
    requires e.Call? && Good(ctx) && HasCons(t) && Scoped(t, e, Vars(ctx.env))
    ensures Fits(reason, ctx.code, CompCall(t, e, reason, ctx).code)
    decreases Size(e), 0
  {
    hide Step, LastStep, CompNone, CompTail, CompPush, Comp, CompIf, CompSeq, CompAll, CompPrc, CompArgs, CompPrimCall;
    hide CompTest, Build, Vars, AllScoped;
    var c, n := ctx.code, |e.args|;
    var args := CompArgs(t, e.args, ctx);
    ArgsStep(t, e.args, ctx);
    PushedByVars(n, ctx.env);
    var ctx2 := CompPush(t, e.op, args);
    PushStep(t, e.op, args);
    StepTrans(c, args.code, ctx2.code);
    PushedByOne(n, ctx.env);
    PopEffect(Instr.Call(n), n + 1, ctx2, ctx.env);
    if reason == ForTail {
      InstrStep(Instr.Jump(n), n + 1, 1, ctx2);
      StepTrans(c, ctx2.code, GenInstruction(Instr.Jump(n), n + 1, 1, ctx2).code);
    } else {
      var ctx3 := GenInstruction(Instr.Call(n), n + 1, 1, ctx2);
      InstrStep(Instr.Call(n), n + 1, 1, ctx2);
      StepTrans(c, ctx2.code, ctx3.code);
      PushedByOne(0, ctx.env);
      InstrStep(Op(Pop), 1, 0, ctx3);
      StepTrans(c, ctx3.code, GenInstruction(Op(Pop), 1, 0, ctx3).code);
    }
  }

  lemma StepLabels(c: Code, d: Code)
    requires Step(c, d)
    ensures c.lastLabel <= d.lastLabel
  {}

  lemma {:induction false} TestStep(t: Table, e: Expr, labelTrue: nat, labelFalse: nat, ctx: Context)
    requires Good(ctx) && HasCons(t) && Scoped(t, e, Vars(ctx.env))
    requires labelTrue <= ctx.code.lastLabel && labelFalse <= ctx.code.lastLabel
    ensures LastStep(ctx.code, CompTest(t, e, labelTrue, labelFalse, ctx).code)
    decreases Size(e), 3
  {
    hide Step, LastStep, CompNone, CompTail, CompPush, Comp, CompIf, CompSeq, CompAll, CompPrc, CompArgs, CompPrimCall;
    hide CompCall, Build, Vars, AllScoped;
    match e
    case Cst(c) =>
      InstrStep(Goto(if c != FALSE then labelTrue else labelFalse), 0, 0, ctx);
    case Lambda(_, _, _) =>
      InstrStep(Goto(labelTrue), 0, 0, ctx);
    case _ =>
      var ctx2 := CompPush(t, e, ctx);
      PushStep(t, e, ctx);
      StepLabels(ctx.code, ctx2.code);
      InstrStep(GotoIfFalse(labelFalse, labelTrue), 1, 0, ctx2);
      StepTrans(ctx.code, ctx2.code, CompTest(t, e, labelTrue, labelFalse, ctx).code);
  }

  // ---- code->vector

  lemma {:induction false} RangeOnce(a: nat, b: nat, l: nat)
    requires a <= b
    ensures Range(a, b)[l] == if a < l <= b then 1 else 0
    decreases b
  {
    if a < b {
      RangeOnce(a, b - 1, l);
    }
  }

  lemma {:induction false} BagAt(bbs: seq<Block>, i: nat)
    requires i < |bbs|
    ensures bbs[i].name in Bag(bbs)
    ensures forall j | 0 <= j < |bbs| && j != i && bbs[j].name == bbs[i].name :: Bag(bbs)[bbs[i].name] >= 2
  {
    var rest := bbs[1..];
    forall j | 0 <= j < |bbs| && j != i && bbs[j].name == bbs[i].name ensures Bag(bbs)[bbs[i].name] >= 2 {
      if i == 0 {
        BagAt(rest, j - 1);
      } else if j == 0 {
        BagAt(rest, i - 1);
      } else {
        BagAt(rest, i - 1);
        assert rest[j - 1] == bbs[j] && rest[i - 1] == bbs[i];
      }
    }
    if i > 0 {
      BagAt(rest, i - 1);
    }
  }

  lemma {:induction false} BagFind(bbs: seq<Block>, l: nat) returns (i: nat)
    requires l in Bag(bbs)
    ensures i < |bbs| && bbs[i].name == l
  {
    if bbs[0].name == l {
      i := 0;
    } else {
      i := BagFind(bbs[1..], l);
      i := i + 1;
    }
  }

  ghost predicate Named(c: Code, l: nat) {
    exists i :: 0 <= i < |c.revBbs| && c.revBbs[i].name == l
  }

  /** Each label up to the last one is the name of one block. */
  ghost predicate Complete(c: Code) {
    && (forall i | 0 <= i < |c.revBbs| :: c.revBbs[i].name <= c.lastLabel)
    && (forall i, j | 0 <= i < j < |c.revBbs| :: c.revBbs[i].name != c.revBbs[j].name)
    && (forall l: nat | l <= c.lastLabel :: Named(c, l))
  }

  lemma CompleteCode(c: Code)
    requires AddsAll(InitContext().code, c)
    ensures Complete(c)
  {
    var all := Range(0, c.lastLabel);
    assert Bag(InitContext().code.revBbs) == multiset{0} by {
      assert InitContext().code.revBbs[1..] == [];
    }
    forall l: nat ensures Bag(c.revBbs)[l] == if l <= c.lastLabel then 1 else 0 {
      RangeOnce(0, c.lastLabel, l);
    }
    forall i | 0 <= i < |c.revBbs| ensures c.revBbs[i].name <= c.lastLabel {
      BagAt(c.revBbs, i);
    }
    forall i, j | 0 <= i < j < |c.revBbs| ensures c.revBbs[i].name != c.revBbs[j].name {
      BagAt(c.revBbs, i);
    }
    forall l: nat | l <= c.lastLabel ensures Named(c, l) {
      assert l in Bag(c.revBbs);
      var i := BagFind(c.revBbs, l);
    }
  }

  /** code->vector */
  method CodeToVector(c: Code) returns (p: seq<Block>)
    requires c.revBbs != [] && Complete(c)
    ensures |p| == c.lastLabel + 1 && Installed(p, c)
    ensures forall l | 0 <= l < |p| :: p[l] in c.revBbs && p[l].name == l
  {
    var v := new Block[c.lastLabel + 1](_ => Block(0, []));
    for i := 0 to |c.revBbs|
      invariant forall k | 0 <= k < i :: v[c.revBbs[k].name] == c.revBbs[k]
    {
      var b := c.revBbs[i];
      v[b.name] := b;
    }
    p := v[..];
    forall l | 0 <= l < |p| ensures p[l] in c.revBbs && p[l].name == l {
      var x: nat := l;
      assert Named(c, x);
      var i :| 0 <= i < |c.revBbs| && c.revBbs[i].name == l;
    }
  }

  /** What comp-none makes of a program that ends in (#%halt), as the parser sees to, is what the back
      end expects. */
  lemma ProgramWellFormed(t: Table, es: seq<Expr>, halt: nat, ctx: Context, p: seq<Block>)
    requires HasCons(t) && AllScoped(t, es + [PrimCall(halt, [])], {}) && t.arity(halt) == 0
    requires Vars(InitContext().env) == {} && ctx == CompNone(t, Begin(es + [PrimCall(halt, [])]), InitContext())
    requires |p| == ctx.code.lastLabel + 1 && forall l | 0 <= l < |p| :: p[l] in ctx.code.revBbs && p[l].name == l
    ensures WellFormed(p)
  {
    var e := Begin(es + [PrimCall(halt, [])]);
    CompStep(t, e, ForNone, InitContext());
    assert Open(InitContext().code);
    EndsWith(t, es, halt, InitContext());
    forall l | 0 <= l < |p| ensures WellFormedBlock(p, p[l]) {
      var i :| 0 <= i < |ctx.code.revBbs| && ctx.code.revBbs[i] == p[l];
      EndedFits(ctx.code, i, p);
    }
  }

  lemma EndedFits(c: Code, i: nat, p: seq<Block>)
    requires Open(c) && i < |c.revBbs| && |p| == c.lastLabel + 1
    requires i == 0 ==> |c.revBbs[0].rev| > 0 && c.revBbs[0].rev[0].Op?
    ensures WellFormedBlock(p, c.revBbs[i])
  {
    var rev := c.revBbs[i].rev;
    if i > 0 {
      assert Ended(rev, c.lastLabel);
      assert forall k | 0 < k < |rev| :: rev[k] == rev[1..][k - 1];
    }
    forall k, l | 0 <= k < |rev| && l in rev[k].Refs() ensures l < |p| {}
  }

  lemma {:induction false} EndsWith(t: Table, es: seq<Expr>, halt: nat, ctx: Context)
    requires Good(ctx) && HasCons(t) && AllScoped(t, es + [PrimCall(halt, [])], Vars(ctx.env))
    requires t.arity(halt) == 0
    ensures CompAll(t, es + [PrimCall(halt, [])], ForNone, ctx).code.revBbs != []
    ensures var b := CompAll(t, es + [PrimCall(halt, [])], ForNone, ctx).code.revBbs[0];
      |b.rev| > 0 && b.rev[0].Op?
    decreases |es|
  {
    var all := es + [PrimCall(halt, [])];
    if es != [] {
      assert all[1..] == es[1..] + [PrimCall(halt, [])] && all[0] == es[0];
      EndsWith(t, es[1..], halt, CompNone(t, es[0], ctx));
    } else {
      var call := PrimCall(halt, []);
      assert all == [call];
      assert CompArgs(t, [], ctx) == ctx;
      assert CompAll(t, all, ForNone, ctx) == CompNone(t, call, ctx) == CompPrimCall(t, call, ForNone, ctx);
    }
  }
}
