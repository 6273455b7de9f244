/** Generated code computes what the expression means (compiler/comp.rkt). */
module Correctness {
  import opened Blocks
  import opened CodeGen
  import opened CodeShape
  import opened Execution
  import opened Source
  import opened Wrappers

  type Frame = seq<Point>

  /** The two sides agree where the code of an expression starts. */
  ghost predicate Ready(m: Setup, env: Env, rho: map<Var, Value>, g: Store, d: Data) {
    Faithful(m) && Matches(m, env, rho, d.stack) && RelStore(m, g, d.g)
  }

  /** Execution is about to return w to the caller it had at the start. */
  ghost predicate Returning(m: Setup, s: State<Point, Data>, ks: Frame, d: Data, w: TValue, h: TStore) {
    && s.at.block < |m.p| && s.at.index < |m.p[s.at.block].rev| && m.p[s.at.block].Nth(s.at.index) == Return
    && s.conts == ks && s.d.saved == d.saved && s.d.g == h && s.d.stack != [] && s.d.stack[0] == w
  }

  /** Where the code of an expression has led to: on the way out for a tail expression, else behind the
      code, with the value pushed or nothing changed but the globals. */
  ghost predicate Finished(m: Setup, reason: Reason, s: State<Point, Data>, end: Context, ks: Frame, d: Data, w: TValue,
                           h: TStore) {
    match reason
    case ForTail => Returning(m, s, ks, d, w, h)
    case ForPush => end.code.revBbs != [] && s == State(Cur(end), ks, Data([w] + d.stack, d.saved, h))
    case ForNone => end.code.revBbs != [] && s == State(Cur(end), ks, Data(d.stack, d.saved, h))
  }

  /** ... and that the result is the right one. */
  ghost predicate Gives(m: Setup, reason: Reason, start: Context, end: Context, ks: Frame, d: Data, out: Out,
                        w: TValue, h: TStore, s: State<Point, Data>)
    requires start.code.revBbs != []
  {
    && Steps(m, State(Cur(start), ks, d), s) && Finished(m, reason, s, end, ks, d, w, h)
    && RelStore(m, out.g, h) && (reason != ForNone ==> Rel(m, out.v, w))
  }

  lemma Back(m: Setup, c: Code, d: Code)
    requires (Step(c, d) || LastStep(c, d)) && Installed(m.p, d)
    ensures Installed(m.p, c)
  {}

  /** A pushed value becomes the result of a tail expression. */
  lemma ThenReturn(m: Setup, start: Context, mid: Context, ks: Frame, d: Data, out: Out, w: TValue, h: TStore,
                   s: State<Point, Data>)
    requires start.code.revBbs != [] && Good(mid) && Installed(m.p, GenReturn(mid).code)
    requires Gives(m, ForPush, start, mid, ks, d, out, w, h, s)
    ensures Gives(m, ForTail, start, GenReturn(mid), ks, d, out, w, h, s)
  {
    InstrAt(m, Return, mid.env.local.size, 0, mid);
  }

  /** A straight piece of code in front. */
  lemma After(m: Setup, reason: Reason, start: Context, mid: Context, end: Context, ks: Frame, d0: Data, d: Data,
              out: Out, w: TValue, h: TStore, s: State<Point, Data>)
    requires start.code.revBbs != [] && mid.code.revBbs != [] && d0.saved == d.saved && d0.stack == d.stack
    requires Steps(m, State(Cur(start), ks, d0), State(Cur(mid), ks, d))
    requires Gives(m, reason, mid, end, ks, d, out, w, h, s)
    ensures Gives(m, reason, start, end, ks, d0, out, w, h, s)
  {
    StepsJoin(m, State(Cur(start), ks, d0), State(Cur(mid), ks, d), s);
  }

  /** The main theorem, for every expression and every way of using its value. */
  lemma {:induction false} CompRuns(m: Setup, e: Expr, reason: Reason, ctx: Context, rho: map<Var, Value>, g: Store,
                                    fuel: nat, ks: Frame, d: Data, out: Out)
      returns (w: TValue, h: TStore, s: State<Point, Data>)
    requires Good(ctx) && HasCons(m.t) && Scoped(m.t, e, Vars(ctx.env)) && Ready(m, ctx.env, rho, g, d)
    requires Installed(m.p, Comp(m.t, e, reason, ctx).code) && Eval(m.t, m.s, e, rho, g, fuel) == Some(out)
    ensures Gives(m, reason, ctx, Comp(m.t, e, reason, ctx), ks, d, out, w, h, s)
    decreases fuel, Size(e), 4
  {
    hide Gives, Ready, Scoped, CompNone, CompPush, CompTail, Eval, Installed;
    match reason {
      case ForNone => w, h, s := NoneRuns(m, e, ctx, rho, g, fuel, ks, d, out);
      case ForPush => w, h, s := PushRuns(m, e, ctx, rho, g, fuel, ks, d, out);
      case ForTail => w, h, s := TailRuns(m, e, ctx, rho, g, fuel, ks, d, out);
    }
  }

  lemma {:induction false} NoneRuns(m: Setup, e: Expr, ctx: Context, rho: map<Var, Value>, g: Store, fuel: nat,
                                    ks: Frame, d: Data, out: Out)
      returns (w: TValue, h: TStore, s: State<Point, Data>)
    requires Good(ctx) && HasCons(m.t) && Scoped(m.t, e, Vars(ctx.env)) && Ready(m, ctx.env, rho, g, d)
    requires Installed(m.p, CompNone(m.t, e, ctx).code) && Eval(m.t, m.s, e, rho, g, fuel) == Some(out)
    ensures Gives(m, ForNone, ctx, CompNone(m.t, e, ctx), ks, d, out, w, h, s)
    decreases fuel, Size(e), 1
  {
    hide CompPush, CompIf, CompSeq, CompPrimCall, CompCall, Installed, Faithful, Matches;
    match e {
      case GlobalSet(k, rhs) => w, h, s := SetRuns(m, e, ctx, rho, g, fuel, ks, d, out);
      case If(_, _, _) => w, h, s := IfRuns(m, e, ForNone, ctx, rho, g, fuel, ks, d, out);
      case Begin(_) => w, h, s := SeqRuns(m, e, ForNone, ctx, rho, g, fuel, ks, d, out);
      case PrimCall(_, _) => w, h, s := PrimRuns(m, e, ForNone, ctx, rho, g, fuel, ks, d, out);
      case Call(_, _) => w, h, s := CallRuns(m, e, ForNone, ctx, rho, g, fuel, ks, d, out);
      case _ =>
        w, h, s := TAtom(NIL), d.g, State(Cur(ctx), ks, d);
        StepsNone(m, s);
    }
  }

  lemma {:induction false} SetRuns(m: Setup, e: Expr, ctx: Context, rho: map<Var, Value>, g: Store, fuel: nat,
                                   ks: Frame, d: Data, out: Out)
      returns (w: TValue, h: TStore, s: State<Point, Data>)
    requires e.GlobalSet? && Good(ctx) && HasCons(m.t) && Scoped(m.t, e, Vars(ctx.env)) && Ready(m, ctx.env, rho, g, d)
    requires Installed(m.p, CompNone(m.t, e, ctx).code) && Eval(m.t, m.s, e, rho, g, fuel) == Some(out)
    ensures Gives(m, ForNone, ctx, CompNone(m.t, e, ctx), ks, d, out, w, h, s)
    decreases fuel, Size(e), 0
  {
    hide CompPush, Installed, Faithful, Matches, Steps;
    var ctx2 := CompPush(m.t, e.rhs, ctx);
    var i := Op(SetGlobal(e.k));
    InstrAt(m, i, 1, 0, ctx2);
    var r := Eval(m.t, m.s, e.rhs, rho, g, fuel).value;
    var h0, s0;
    w, h0, s0 := PushRuns(m, e.rhs, ctx, rho, g, fuel, ks, d, r);
    InstrRuns(m, i, 1, 0, ctx2, ks, s0.d);
    s := State(Cur(CompNone(m.t, e, ctx)), ks, Exec(m.t, m.q, i, s0.d));
    StepsJoin(m, State(Cur(ctx), ks, d), s0, s);
    h := h0[e.k := w];
    assert s.d.stack == d.stack;
  }

  lemma {:induction false} TailRuns(m: Setup, e: Expr, ctx: Context, rho: map<Var, Value>, g: Store, fuel: nat,
                                    ks: Frame, d: Data, out: Out)
      returns (w: TValue, h: TStore, s: State<Point, Data>)
    requires Good(ctx) && HasCons(m.t) && Scoped(m.t, e, Vars(ctx.env)) && Ready(m, ctx.env, rho, g, d)
    requires Installed(m.p, CompTail(m.t, e, ctx).code) && Eval(m.t, m.s, e, rho, g, fuel) == Some(out)
    ensures Gives(m, ForTail, ctx, CompTail(m.t, e, ctx), ks, d, out, w, h, s)
    decreases fuel, Size(e), 3
  {
    hide CompPush, CompIf, CompSeq, CompPrimCall, CompCall, Installed, Faithful, Matches, Eval, Gives, Ready;
    match e {
      case If(_, _, _) => w, h, s := IfRuns(m, e, ForTail, ctx, rho, g, fuel, ks, d, out);
      case Begin(_) => w, h, s := SeqRuns(m, e, ForTail, ctx, rho, g, fuel, ks, d, out);
      case PrimCall(_, _) => w, h, s := PrimRuns(m, e, ForTail, ctx, rho, g, fuel, ks, d, out);
      case Call(_, _) => w, h, s := CallRuns(m, e, ForTail, ctx, rho, g, fuel, ks, d, out);
      case _ =>
        var mid := CompPush(m.t, e, ctx);
        InstrAt(m, Return, mid.env.local.size, 0, mid);
        w, h, s := PushRuns(m, e, ctx, rho, g, fuel, ks, d, out);
        ThenReturn(m, ctx, mid, ks, d, out, w, h, s);
    }
  }

  lemma {:induction false} PushRuns(m: Setup, e: Expr, ctx: Context, rho: map<Var, Value>, g: Store, fuel: nat,
                                    ks: Frame, d: Data, out: Out)
      returns (w: TValue, h: TStore, s: State<Point, Data>)
    requires Good(ctx) && HasCons(m.t) && Scoped(m.t, e, Vars(ctx.env)) && Ready(m, ctx.env, rho, g, d)
    requires Installed(m.p, CompPush(m.t, e, ctx).code) && Eval(m.t, m.s, e, rho, g, fuel) == Some(out)
    ensures Gives(m, ForPush, ctx, CompPush(m.t, e, ctx), ks, d, out, w, h, s)
    decreases fuel, Size(e), 2
  {
    hide CompNone, CompIf, CompSeq, CompPrimCall, CompCall, CompPrc, Installed, Faithful, Matches;
    match e {
      case If(_, _, _) => w, h, s := IfRuns(m, e, ForPush, ctx, rho, g, fuel, ks, d, out);
      case Begin(_) => w, h, s := SeqRuns(m, e, ForPush, ctx, rho, g, fuel, ks, d, out);
      case PrimCall(_, _) => w, h, s := PrimRuns(m, e, ForPush, ctx, rho, g, fuel, ks, d, out);
      case Call(_, _) => w, h, s := CallRuns(m, e, ForPush, ctx, rho, g, fuel, ks, d, out);
      case Lambda(_, _, _) => w, h, s := PrcRuns(m, e, ctx, rho, g, fuel, ks, d, out);
      case GlobalSet(_, _) => w, h, s := SetPushRuns(m, e, ctx, rho, g, fuel, ks, d, out);
      case _ => w, h, s := SimpleRuns(m, e, ctx, rho, g, fuel, ks, d, out);
    }
  }

  lemma {:induction false} SetPushRuns(m: Setup, e: Expr, ctx: Context, rho: map<Var, Value>, g: Store, fuel: nat,
                                       ks: Frame, d: Data, out: Out)
      returns (w: TValue, h: TStore, s: State<Point, Data>)
    requires e.GlobalSet? && Good(ctx) && HasCons(m.t) && Scoped(m.t, e, Vars(ctx.env)) && Ready(m, ctx.env, rho, g, d)
    requires Installed(m.p, CompPush(m.t, e, ctx).code) && Eval(m.t, m.s, e, rho, g, fuel) == Some(out)
    ensures Gives(m, ForPush, ctx, CompPush(m.t, e, ctx), ks, d, out, w, h, s)
    decreases fuel, Size(e), 2, 0
  {
    hide CompNone, Installed, Faithful, Matches, Steps;
    var ctx2 := CompNone(m.t, e, ctx);
    var i := Op(PushConstant(FALSE));
    InstrAt(m, i, 0, 1, ctx2);
    var w0, s0;
    w0, h, s0 := NoneRuns(m, e, ctx, rho, g, fuel, ks, d, out);
    InstrRuns(m, i, 0, 1, ctx2, ks, s0.d);
    w := TAtom(FALSE);
    s := State(Cur(CompPush(m.t, e, ctx)), ks, Exec(m.t, m.q, i, s0.d));
    StepsJoin(m, State(Cur(ctx), ks, d), s0, s);
  }

  /** Constants and variables: one instruction. */
  lemma SimpleRuns(m: Setup, e: Expr, ctx: Context, rho: map<Var, Value>, g: Store, fuel: nat, ks: Frame, d: Data,
                   out: Out)
      returns (w: TValue, h: TStore, s: State<Point, Data>)
    requires e.Cst? || e.Ref? || e.GlobalRef?
    requires Good(ctx) && HasCons(m.t) && Scoped(m.t, e, Vars(ctx.env)) && Ready(m, ctx.env, rho, g, d)
    requires Installed(m.p, CompPush(m.t, e, ctx).code) && Eval(m.t, m.s, e, rho, g, fuel) == Some(out)
    ensures Gives(m, ForPush, ctx, CompPush(m.t, e, ctx), ks, d, out, w, h, s)
  {
    hide Installed, Faithful, Steps;
    var i: Instr;
    match e {
      case Cst(c) => i := Op(PushConstant(c));
      case Ref(x) =>
        VariableAt(m, x, ctx, rho, d.stack);
        var k := FindLocalVar(x, ctx.env);
        i := Op(PushStack(if k >= 0 then k else -1 - k + |ctx.env.local.slots|));
      case GlobalRef(k) => i := Op(PushGlobal(k));
    }
    assert CompPush(m.t, e, ctx) == GenInstruction(i, 0, 1, ctx);
    InstrRuns(m, i, 0, 1, ctx, ks, d);
    s := State(Cur(CompPush(m.t, e, ctx)), ks, Exec(m.t, m.q, i, d));
    w, h := s.d.stack[0], d.g;
  }

  lemma {:induction false} TestRuns(m: Setup, e: Expr, labelTrue: nat, labelFalse: nat, ctx: Context,
                                    rho: map<Var, Value>, g: Store, fuel: nat, ks: Frame, d: Data, out: Out)
      returns (h: TStore)
    requires Good(ctx) && HasCons(m.t) && Scoped(m.t, e, Vars(ctx.env)) && Ready(m, ctx.env, rho, g, d)
    requires Installed(m.p, CompTest(m.t, e, labelTrue, labelFalse, ctx).code)
    requires Eval(m.t, m.s, e, rho, g, fuel) == Some(out)
    ensures RelStore(m, out.g, h)
    ensures Steps(m, State(Cur(ctx), ks, d),
                  State(Point(if out.v != Atom(FALSE) then labelTrue else labelFalse, 0), ks,
                        Data(d.stack, d.saved, h)))
    decreases fuel, Size(e), 3
  {
    hide CompPush, Installed, Faithful, Matches, Steps;
    if e.Cst? || e.Lambda? {
      var l := if out.v != Atom(FALSE) then labelTrue else labelFalse;
      assert CompTest(m.t, e, labelTrue, labelFalse, ctx).code == GenGoto(l, ctx).code;
      GotoRuns(m, l, ctx, ks, d);
      h := d.g;
    } else {
      var ctx2 := CompPush(m.t, e, ctx);
      var i := GotoIfFalse(labelFalse, labelTrue);
      InstrAt(m, i, 1, 0, ctx2);
      var w, s;
      w, h, s := PushRuns(m, e, ctx, rho, g, fuel, ks, d, out);
      var s1 := State(Point(if out.v != Atom(FALSE) then labelTrue else labelFalse, 0), ks, Data(d.stack, d.saved, h));
      assert s.d.stack[1..] == d.stack;
      assert out.v == Atom(FALSE) <==> w == TAtom(FALSE);
      StepsOne(m, s, s1);
      StepsJoin(m, State(Cur(ctx), ks, d), s, s1);
    }
  }

  lemma {:induction false} IfRuns(m: Setup, e: Expr, reason: Reason, ctx: Context, rho: map<Var, Value>, g: Store,
                                  fuel: nat, ks: Frame, d: Data, out: Out)
      returns (w: TValue, h: TStore, s: State<Point, Data>)
    requires e.If? && Good(ctx) && HasCons(m.t) && Scoped(m.t, e, Vars(ctx.env)) && Ready(m, ctx.env, rho, g, d)
    requires Installed(m.p, CompIf(m.t, e, reason, ctx).code) && Eval(m.t, m.s, e, rho, g, fuel) == Some(out)
    ensures Gives(m, reason, ctx, CompIf(m.t, e, reason, ctx), ks, d, out, w, h, s)
    decreases fuel, Size(e), 0
  {
    if reason == ForTail {
      w, h, s := IfTailRuns(m, e, ctx, rho, g, fuel, ks, d, out);
    } else {
      w, h, s := IfJoinRuns(m, e, reason, ctx, rho, g, fuel, ks, d, out);
    }
  }

  /** In the branch that is taken, the two sides agree again. */
  lemma ReadyAgain(m: Setup, env: Env, rho: map<Var, Value>, g: Store, d: Data, g': Store, h: TStore)
    requires Ready(m, env, rho, g, d) && RelStore(m, g', h)
    ensures Ready(m, env, rho, g', Data(d.stack, d.saved, h))
  {}

  lemma {:induction false} IfTailRuns(m: Setup, e: Expr, ctx: Context, rho: map<Var, Value>, g: Store, fuel: nat,
                                      ks: Frame, d: Data, out: Out)
      returns (w: TValue, h: TStore, s: State<Point, Data>)
    requires e.If? && Good(ctx) && HasCons(m.t) && Scoped(m.t, e, Vars(ctx.env)) && Ready(m, ctx.env, rho, g, d)
    requires Installed(m.p, CompIf(m.t, e, ForTail, ctx).code) && Eval(m.t, m.s, e, rho, g, fuel) == Some(out)
    ensures Gives(m, ForTail, ctx, CompIf(m.t, e, ForTail, ctx), ks, d, out, w, h, s)
    decreases fuel, Size(e), 0, 0
  {
    hide CompPush, CompTail, CompTest, Installed, Ready, Step, LastStep, Vars, Rel;
    var (ctx2, labelThen) := MakeLabel(ctx);
    var (ctx3, labelElse) := MakeLabel(ctx2);
    var ctx4 := CompTest(m.t, e.tst, labelThen, labelElse, ctx3);
    var els := AddBb(ctx4, labelElse).(env2 := None);
    var ctx5 := CompTail(m.t, e.els, els);
    var thn := AddBb(ctx5, labelThen).(env := ctx4.env2.value);
    TailStep(m.t, e.thn, thn);
    Back(m, thn.code, CompTail(m.t, e.thn, thn).code);
    BbStarts(m, ctx5, labelThen);
    TailStep(m.t, e.els, els);
    Back(m, els.code, ctx5.code);
    BbStarts(m, ctx4, labelElse);
    var r := Eval(m.t, m.s, e.tst, rho, g, fuel).value;
    var h0 := TestRuns(m, e.tst, labelThen, labelElse, ctx3, rho, g, fuel, ks, d, r);
    var d0 := Data(d.stack, d.saved, h0);
    ReadyAgain(m, ctx.env, rho, g, d, r.g, h0);
    if r.v == Atom(FALSE) {
      w, h, s := TailRuns(m, e.els, els, rho, r.g, fuel, ks, d0, out);
      After(m, ForTail, ctx, els, ctx5, ks, d, d0, out, w, h, s);
    } else {
      w, h, s := TailRuns(m, e.thn, thn, rho, r.g, fuel, ks, d0, out);
      After(m, ForTail, ctx, thn, CompTail(m.t, e.thn, thn), ks, d, d0, out, w, h, s);
    }
  }

  /** The pieces of a two-armed conditional that comes together again. */
  datatype Arms = Arms(test: Context, els0: Context, els: Context, thn0: Context, thn: Context, ctx9: Context,
    ctx10: Context)

  function ArmsOf(t: Table, e: Expr, reason: Reason, ctx: Context): (a: Arms)
    requires e.If? && Good(ctx) && HasCons(t) && Scoped(t, e, Vars(ctx.env)) && reason != ForTail
    ensures Good(a.els0) && Good(a.els) && Good(a.thn0) && Good(a.thn) && a.els0.env == a.thn0.env == ctx.env
  {
    var l := ctx.code.lastLabel;
    var ctx6 := ctx.(code := ctx.code.(lastLabel := l + 5));
    var ctx7 := CompTest(t, e.tst, l + 1, l + 2, ctx6);
    var els0 := AddBb(ctx7, l + 2).(env2 := None);
    var els := Comp(t, e.els, reason, els0);
    PushEffect(Goto(l + 4), els);
    var ctx8 := GenGoto(l + 4, els);
    var thn0 := AddBb(ctx8, l + 1).(env := ctx7.env2.value);
    var thn := Comp(t, e.thn, reason, thn0);
    PushEffect(Goto(l + 3), thn);
    var ctx9 := GenGoto(l + 3, thn);
    Arms(ctx7, els0, els, thn0, thn, ctx9, GenGoto(l + 5, AddBb(ctx9, l + 4)))
  }

  lemma ArmsInstalled(m: Setup, e: Expr, reason: Reason, ctx: Context)
    requires e.If? && Good(ctx) && HasCons(m.t) && Scoped(m.t, e, Vars(ctx.env)) && reason != ForTail
    requires Installed(m.p, CompIf(m.t, e, reason, ctx).code)
    ensures var a, l := ArmsOf(m.t, e, reason, ctx), ctx.code.lastLabel;
      && Installed(m.p, GenGoto(l + 5, AddBb(a.ctx10, l + 3)).code) && Installed(m.p, a.ctx10.code)
      && Installed(m.p, a.ctx9.code) && Installed(m.p, a.thn.code)
      && Installed(m.p, GenGoto(l + 4, a.els).code) && Installed(m.p, a.els.code) && Installed(m.p, a.test.code)
      && Cur(CompIf(m.t, e, reason, ctx)) == Point(l + 5, 0)
      && Cur(a.els0) == Point(l + 2, 0) && Cur(a.thn0) == Point(l + 1, 0)
  {
    hide Installed, CompTest, Comp, Step, LastStep, Vars, Scoped;
    var a, l := ArmsOf(m.t, e, reason, ctx), ctx.code.lastLabel;
    IfAsArms(m.t, e, reason, ctx);
    var ctx11 := GenGoto(l + 5, AddBb(a.ctx10, l + 3));
    BbStarts(m, ctx11, l + 5);
    InstrAt(m, Goto(l + 5), 0, 0, AddBb(a.ctx10, l + 3));
    BbStarts(m, a.ctx10, l + 3);
    InstrAt(m, Goto(l + 5), 0, 0, AddBb(a.ctx9, l + 4));
    BbStarts(m, a.ctx9, l + 4);
    InstrAt(m, Goto(l + 3), 0, 0, a.thn);
    ArmStep(m, e.thn, reason, a.thn0, e, ctx);
    var ctx8 := GenGoto(l + 4, a.els);
    BbStarts(m, ctx8, l + 1);
    InstrAt(m, Goto(l + 4), 0, 0, a.els);
    ArmStep(m, e.els, reason, a.els0, e, ctx);
    BbStarts(m, a.test, l + 2);
  }

  lemma ArmStep(m: Setup, arm: Expr, reason: Reason, start: Context, e: Expr, ctx: Context)
    requires e.If? && HasCons(m.t) && Scoped(m.t, e, Vars(ctx.env)) && Good(start) && start.env == ctx.env
    requires (arm == e.thn || arm == e.els) && Installed(m.p, Comp(m.t, arm, reason, start).code)
    ensures Installed(m.p, start.code)
  {
    CompStep(m.t, arm, reason, start);
    hide Step, LastStep, Installed;
    Back(m, start.code, Comp(m.t, arm, reason, start).code);
  }

  lemma IfAsArms(t: Table, e: Expr, reason: Reason, ctx: Context)
    requires e.If? && Good(ctx) && HasCons(t) && Scoped(t, e, Vars(ctx.env)) && reason != ForTail
    ensures var a, l := ArmsOf(t, e, reason, ctx), ctx.code.lastLabel;
      && CompIf(t, e, reason, ctx) == AddBb(GenGoto(l + 5, AddBb(a.ctx10, l + 3)), l + 5)
  {
    hide CompTest, Comp, Vars, Scoped, GenGoto;
    var (ctx2, _) := MakeLabel(ctx);
    var (ctx3, _) := MakeLabel(ctx2);
    var (ctx4, _) := MakeLabel(ctx3);
    var (ctx5, _) := MakeLabel(ctx4);
    var (ctx6, _) := MakeLabel(ctx5);
    assert ctx6 == ctx.(code := ctx.code.(lastLabel := ctx.code.lastLabel + 5));
  }

  lemma {:induction false} IfJoinRuns(m: Setup, e: Expr, reason: Reason, ctx: Context, rho: map<Var, Value>, g: Store,
                                      fuel: nat, ks: Frame, d: Data, out: Out)
      returns (w: TValue, h: TStore, s: State<Point, Data>)
    requires e.If? && Good(ctx) && HasCons(m.t) && Scoped(m.t, e, Vars(ctx.env)) && Ready(m, ctx.env, rho, g, d)
    requires reason != ForTail
    requires Installed(m.p, CompIf(m.t, e, reason, ctx).code) && Eval(m.t, m.s, e, rho, g, fuel) == Some(out)
    ensures Gives(m, reason, ctx, CompIf(m.t, e, reason, ctx), ks, d, out, w, h, s)
    decreases fuel, Size(e), 0, 0
  {
    hide CompIf, CompTest, Comp, Installed, Ready, Vars, Rel, Steps, RelStore;
    var a, l := ArmsOf(m.t, e, reason, ctx), ctx.code.lastLabel;
    ArmsInstalled(m, e, reason, ctx);
    var ctx6 := ctx.(code := ctx.code.(lastLabel := l + 5));
    var r := Eval(m.t, m.s, e.tst, rho, g, fuel).value;
    var h0 := TestRuns(m, e.tst, l + 1, l + 2, ctx6, rho, g, fuel, ks, d, r);
    var d0 := Data(d.stack, d.saved, h0);
    ReadyAgain(m, ctx.env, rho, g, d, r.g, h0);
    var s0;
    if r.v == Atom(FALSE) {
      w, h, s0 := CompRuns(m, e.els, reason, a.els0, rho, r.g, fuel, ks, d0, out);
      After(m, reason, ctx, a.els0, a.els, ks, d, d0, out, w, h, s0);
      GotoRuns(m, l + 4, a.els, ks, s0.d);
      GotoRuns(m, l + 5, AddBb(a.ctx9, l + 4), ks, s0.d);
      StepsJoin(m, s0, State(Point(l + 4, 0), ks, s0.d), State(Point(l + 5, 0), ks, s0.d));
    } else {
      w, h, s0 := CompRuns(m, e.thn, reason, a.thn0, rho, r.g, fuel, ks, d0, out);
      After(m, reason, ctx, a.thn0, a.thn, ks, d, d0, out, w, h, s0);
      GotoRuns(m, l + 3, a.thn, ks, s0.d);
      GotoRuns(m, l + 5, AddBb(a.ctx10, l + 3), ks, s0.d);
      StepsJoin(m, s0, State(Point(l + 3, 0), ks, s0.d), State(Point(l + 5, 0), ks, s0.d));
    }
    s := State(Point(l + 5, 0), ks, s0.d);
    StepsJoin(m, State(Cur(ctx), ks, d), s0, s);
    CompIfGood(m.t, e, reason, ctx);
  }

  lemma CompIfGood(t: Table, e: Expr, reason: Reason, ctx: Context)
    requires e.If? && Good(ctx) && HasCons(t) && Scoped(t, e, Vars(ctx.env))
    ensures CompIf(t, e, reason, ctx).code.revBbs != []
  {}

  lemma {:induction false} SeqRuns(m: Setup, e: Expr, reason: Reason, ctx: Context, rho: map<Var, Value>, g: Store,
                                   fuel: nat, ks: Frame, d: Data, out: Out)
      returns (w: TValue, h: TStore, s: State<Point, Data>)
    requires e.Begin? && Good(ctx) && HasCons(m.t) && Scoped(m.t, e, Vars(ctx.env)) && Ready(m, ctx.env, rho, g, d)
    requires Installed(m.p, CompSeq(m.t, e, reason, ctx).code) && Eval(m.t, m.s, e, rho, g, fuel) == Some(out)
    ensures Gives(m, reason, ctx, CompSeq(m.t, e, reason, ctx), ks, d, out, w, h, s)
    decreases fuel, Size(e), 0
  {
    hide CompAll, Installed, Faithful, Matches, Steps, Vars;
    if e.es != [] {
      w, h, s := AllRuns(m, e.es, reason, ctx, rho, g, fuel, ks, d, out);
    } else {
      w, h, s := TAtom(FALSE), d.g, State(Cur(ctx), ks, d);
      StepsNone(m, s);
      if reason != ForNone {
        w, h, s := UnspecifiedRuns(m, reason, ctx, ctx, ks, d, d, out, s);
      }
    }
  }

  ghost function Unspecified(reason: Reason, ctx: Context): (r: Context)
    requires Good(ctx)
    ensures Good(r)
  {
    if reason == ForTail then GenReturn(GenPushUnspecified(ctx)) else GenPushUnspecified(ctx)
  }

  /** The value of what has none: #f is pushed. */
  lemma UnspecifiedRuns(m: Setup, reason: Reason, start: Context, mid: Context, ks: Frame, d0: Data, d: Data, out: Out,
                        s0: State<Point, Data>)
      returns (w: TValue, h: TStore, s: State<Point, Data>)
    requires start.code.revBbs != [] && Good(mid) && reason != ForNone && out.v == Atom(FALSE)
    requires RelStore(m, out.g, d.g)
    requires Installed(m.p, Unspecified(reason, mid).code)
    requires d0.stack == d.stack && d0.saved == d.saved && s0 == State(Cur(mid), ks, d)
    requires Steps(m, State(Cur(start), ks, d0), s0)
    ensures Gives(m, reason, start, Unspecified(reason, mid), ks, d0, out, w, h, s)
  {
    hide Installed, Steps, RelStore;
    var pushed := GenPushUnspecified(mid);
    if reason == ForTail {
      InstrAt(m, Return, pushed.env.local.size, 0, pushed);
    }
    InstrRuns(m, Op(PushConstant(FALSE)), 0, 1, mid, ks, d);
    w, h := TAtom(FALSE), d.g;
    s := State(Cur(pushed), ks, Data([w] + d.stack, d.saved, h));
    StepsJoin(m, State(Cur(start), ks, d0), s0, s);
    assert Gives(m, ForPush, start, pushed, ks, d0, out, w, h, s);
    if reason == ForTail {
      ThenReturn(m, start, pushed, ks, d0, out, w, h, s);
    }
  }

  lemma {:induction false} AllRuns(m: Setup, es: seq<Expr>, reason: Reason, ctx: Context, rho: map<Var, Value>,
                                   g: Store, fuel: nat,
                                   ks: Frame, d: Data, out: Out)
      returns (w: TValue, h: TStore, s: State<Point, Data>)
    requires es != [] && Good(ctx) && HasCons(m.t) && AllScoped(m.t, es, Vars(ctx.env)) && Ready(m, ctx.env, rho, g, d)
    requires Installed(m.p, CompAll(m.t, es, reason, ctx).code) && EvalBegin(m.t, m.s, es, rho, g, fuel) == Some(out)
    ensures Gives(m, reason, ctx, CompAll(m.t, es, reason, ctx), ks, d, out, w, h, s)
    decreases fuel, Sizes(es), 5
  {
    hide Comp, CompNone, Installed, Ready, Steps, Vars, Scoped, RelStore, Eval, Step, LastStep;
    if |es| == 1 {
      w, h, s := CompRuns(m, es[0], reason, ctx, rho, g, fuel, ks, d, out);
    } else {
      var mid := CompNone(m.t, es[0], ctx);
      AllStep(m.t, es[1..], reason, mid);
      Back(m, mid.code, CompAll(m.t, es[1..], reason, mid).code);
      var first := Eval(m.t, m.s, es[0], rho, g, fuel).value;
      var w0, h0, s0 := NoneRuns(m, es[0], ctx, rho, g, fuel, ks, d, first);
      var d0 := Data(d.stack, d.saved, h0);
      ReadyAgain(m, ctx.env, rho, g, d, first.g, h0);
      w, h, s := AllRuns(m, es[1..], reason, mid, rho, first.g, fuel, ks, d0, out);
      After(m, reason, ctx, mid, CompAll(m.t, es, reason, ctx), ks, d, d0, out, w, h, s);
    }
  }

  /** The arguments end up on the stack, the last one on top. */
  lemma {:induction false} ArgsRuns(m: Setup, es: seq<Expr>, ctx: Context, rho: map<Var, Value>, g: Store, fuel: nat,
                                    ks: Frame, d: Data, outs: Outs)
      returns (ws: seq<TValue>, h: TStore)
    requires Good(ctx) && HasCons(m.t) && AllScoped(m.t, es, Vars(ctx.env)) && Ready(m, ctx.env, rho, g, d)
    requires Installed(m.p, CompArgs(m.t, es, ctx).code) && EvalArgs(m.t, m.s, es, rho, g, fuel) == Some(outs)
    ensures RelAll(m, outs.vs, ws) && RelStore(m, outs.g, h) && |ws| == |es|
    ensures Steps(m, State(Cur(ctx), ks, d),
      State(Cur(CompArgs(m.t, es, ctx)), ks, Data(Rev(ws) + d.stack, d.saved, h)))
    decreases fuel, Sizes(es), 5
  {
    hide CompPush, Installed, Steps, Vars, Scoped, RelStore, Eval, Step, LastStep, Faithful, Matches;
    if es == [] {
      ws, h := [], d.g;
      assert Rev<TValue>([]) + d.stack == d.stack;
      StepsNone(m, State(Cur(ctx), ks, d));
    } else {
      PushedVars(ctx.env);
      var mid := CompPush(m.t, es[0], ctx);
      ArgsStep(m.t, es[1..], mid);
      Back(m, mid.code, CompArgs(m.t, es[1..], mid).code);
      var first := Eval(m.t, m.s, es[0], rho, g, fuel).value;
      var rest := EvalArgs(m.t, m.s, es[1..], rho, first.g, fuel).value;
      var w, h0, s0 := PushRuns(m, es[0], ctx, rho, g, fuel, ks, d, first);
      MatchesPushed(m, ctx.env, rho, d.stack, w);
      var ws';
      ws', h := ArgsRuns(m, es[1..], mid, rho, first.g, fuel, ks, s0.d, rest);
      ws := [w] + ws';
      assert outs.vs == [first.v] + rest.vs;
      assert Rev(ws) + d.stack == Rev(ws') + ([w] + d.stack) by { assert ws[1..] == ws'; }
      StepsJoin(m, State(Cur(ctx), ks, d), s0,
        State(Cur(CompArgs(m.t, es, ctx)), ks, Data(Rev(ws) + d.stack, d.saved, h)));
    }
  }

  lemma {:induction false} RevSnoc<T>(s: seq<T>, x: T)
    ensures Rev(s + [x]) == [x] + Rev(s)
  {
    if s != [] {
      assert (s + [x])[1..] == s[1..] + [x];
      RevSnoc(s[1..], x);
    } else {
      assert s + [x] == [x];
      assert [x][1..] == [];
    }
  }

  lemma {:induction false} RevTwice<T>(s: seq<T>)
    ensures Rev(Rev(s)) == s
  {
    if s != [] {
      RevTwice(s[1..]);
      RevSnoc(Rev(s[1..]), s[0]);
    }
  }

  lemma {:induction false} PrimRuns(m: Setup, e: Expr, reason: Reason, ctx: Context, rho: map<Var, Value>, g: Store,
                                    fuel: nat, ks: Frame, d: Data, out: Out)
      returns (w: TValue, h: TStore, s: State<Point, Data>)
    requires e.PrimCall? && Good(ctx) && HasCons(m.t) && Scoped(m.t, e, Vars(ctx.env)) && Ready(m, ctx.env, rho, g, d)
    requires Installed(m.p, CompPrimCall(m.t, e, reason, ctx).code) && Eval(m.t, m.s, e, rho, g, fuel) == Some(out)
    ensures Gives(m, reason, ctx, CompPrimCall(m.t, e, reason, ctx), ks, d, out, w, h, s)
    decreases fuel, Size(e), 0
  {
    hide CompArgs, Installed, Steps, Vars, RelStore, RelAll, Matches, Gives;
    var args := CompArgs(m.t, e.args, ctx);
    PopEffect(Op(Prim(e.id)), |e.args|, args, ctx.env);
    var result := GenPrim(m.t, e.id, args);
    PrimInstalled(m, e, reason, ctx);
    var outs := EvalArgs(m.t, m.s, e.args, rho, g, fuel).value;
    var ws, h0 := ArgsRuns(m, e.args, ctx, rho, g, fuel, ks, d, outs);
    var d1 := Data(Rev(ws) + d.stack, d.saved, h0);
    assert PrimAlike(m, e.id, outs.vs, outs.g, ws, h0);
    var a, b := m.s(e.id, outs.vs, outs.g).value, m.q(e.id, ws, h0).value;
    var d2 := Exec(m.t, m.q, Op(Prim(e.id)), d1);
    PrimExec(m, e.id, ws, d, h0);
    InstrRuns(m, Op(Prim(e.id)), |e.args|, if m.t.unspecified(e.id) then 0 else 1, args, ks, d1);
    var s2 := State(Cur(result), ks, d2);
    StepsJoin(m, State(Cur(ctx), ks, d), State(Cur(args), ks, d1), s2);
    w, h, s := PrimEnds(m, e, reason, ctx, ks, d, out, b, s2);
  }

  lemma PrimExec(m: Setup, id: nat, ws: seq<TValue>, d: Data, h: TStore)
    requires |ws| == m.t.arity(id) && m.q(id, ws, h).Some? && id != m.t.halt
    ensures var b := m.q(id, ws, h).value;
      Exec(m.t, m.q, Op(Prim(id)), Data(Rev(ws) + d.stack, d.saved, h)) ==
      Data((if m.t.unspecified(id) then [] else [b.v]) + d.stack, d.saved, b.g)
  {
    RevTwice(ws);
    var stack := Rev(ws) + d.stack;
    assert stack[..|ws|] == Rev(ws) && stack[|ws|..] == d.stack;
  }

  lemma PrimInstalled(m: Setup, e: Expr, reason: Reason, ctx: Context)
    requires e.PrimCall? && Good(ctx) && HasCons(m.t) && Scoped(m.t, e, Vars(ctx.env))
    requires Installed(m.p, CompPrimCall(m.t, e, reason, ctx).code)
    ensures var args := CompArgs(m.t, e.args, ctx);
      && |e.args| <= args.env.local.size && Installed(m.p, args.code) && Installed(m.p, GenPrim(m.t, e.id, args).code)
  {
    hide CompArgs, Installed, Vars;
    var args := CompArgs(m.t, e.args, ctx);
    PopEffect(Op(Prim(e.id)), |e.args|, args, ctx.env);
    var result := GenPrim(m.t, e.id, args);
    if m.t.unspecified(e.id) {
      if reason == ForTail {
        InstrAt(m, Return, GenPushUnspecified(result).env.local.size, 0, GenPushUnspecified(result));
      }
      if reason != ForNone {
        InstrAt(m, Op(PushConstant(FALSE)), 0, 1, result);
      }
    } else {
      PushedByOne(0, ctx.env);
      PopEffect(Op(Pop), 1, result, ctx.env);
      if reason == ForTail {
        InstrAt(m, Return, result.env.local.size, 0, result);
      } else if reason == ForNone {
        InstrAt(m, Op(Pop), 1, 0, result);
      }
    }
    InstrAt(m, Op(Prim(e.id)), |e.args|, if m.t.unspecified(e.id) then 0 else 1, args);
  }

  /** What follows a primitive, as the use of its value requires. */
  lemma PrimEnds(m: Setup, e: Expr, reason: Reason, ctx: Context, ks: Frame, d: Data, out: Out, b: TOut,
                 s2: State<Point, Data>)
      returns (w: TValue, h: TStore, s: State<Point, Data>)
    requires e.PrimCall? && Good(ctx) && HasCons(m.t) && Scoped(m.t, e, Vars(ctx.env))
    requires Installed(m.p, CompPrimCall(m.t, e, reason, ctx).code)
    requires |e.args| <= CompArgs(m.t, e.args, ctx).env.local.size
    requires var result := GenPrim(m.t, e.id, CompArgs(m.t, e.args, ctx));
      s2 == State(Cur(result), ks, Data((if m.t.unspecified(e.id) then [] else [b.v]) + d.stack, d.saved, b.g))
    requires Steps(m, State(Cur(ctx), ks, d), s2) && RelStore(m, out.g, b.g)
    requires if m.t.unspecified(e.id) then out.v == Atom(FALSE) else Rel(m, out.v, b.v)
    ensures Gives(m, reason, ctx, CompPrimCall(m.t, e, reason, ctx), ks, d, out, w, h, s)
  {
    hide CompArgs, Installed, Steps, Vars, RelStore;
    var args := CompArgs(m.t, e.args, ctx);
    PopEffect(Op(Prim(e.id)), |e.args|, args, ctx.env);
    var result := GenPrim(m.t, e.id, args);
    if m.t.unspecified(e.id) {
      assert s2.d.stack == d.stack;
      if reason == ForNone {
        w, h, s := TAtom(FALSE), b.g, s2;
      } else {
        w, h, s := UnspecifiedRuns(m, reason, ctx, result, ks, d, s2.d, out, s2);
      }
    } else {
      w, h := b.v, b.g;
      assert Gives(m, ForPush, ctx, result, ks, d, out, w, h, s2);
      w, h, s := ValueEnds(m, reason, ctx, result, ks, d, out, w, h, s2);
    }
  }

  /** A pushed value is left, returned or dropped. */
  lemma ValueEnds(m: Setup, reason: Reason, start: Context, mid: Context, ks: Frame, d: Data, out: Out, w0: TValue,
                  h0: TStore, s0: State<Point, Data>)
      returns (w: TValue, h: TStore, s: State<Point, Data>)
    requires start.code.revBbs != [] && Good(mid) && mid.env.local.size > 0
    requires Gives(m, ForPush, start, mid, ks, d, out, w0, h0, s0)
    requires Installed(m.p, (match reason
                             case ForTail => GenReturn(mid)
                             case ForPush => mid
                             case ForNone => GenInstruction(Op(Pop), 1, 0, mid)).code)
    ensures Gives(m, reason, start,
                  match reason
                  case ForTail => GenReturn(mid)
                  case ForPush => mid
                  case ForNone => GenInstruction(Op(Pop), 1, 0, mid), ks, d, out, w, h, s)
  {
    hide Installed, Steps, RelStore;
    w, h, s := w0, h0, s0;
    match reason {
      case ForTail => ThenReturn(m, start, mid, ks, d, out, w, h, s);
      case ForPush =>
      case ForNone =>
        InstrRuns(m, Op(Pop), 1, 0, mid, ks, s0.d);
        s := State(Cur(GenInstruction(Op(Pop), 1, 0, mid)), ks, Data(d.stack, d.saved, h));
        assert Exec(m.t, m.q, Op(Pop), s0.d) == s.d;
        StepsJoin(m, State(Cur(start), ks, d), s0, s);
    }
  }

  // ---- closures and calls

  /** build: the values of the variables in a list. */
  lemma {:induction false} BuildRuns(m: Setup, vars: seq<Var>, ctx: Context, rho: map<Var, Value>, ks: Frame, d: Data)
      returns (w: TValue)
    requires Good(ctx) && HasCons(m.t) && Faithful(m) && Matches(m, ctx.env, rho, d.stack)
    requires Names(vars) <= Vars(ctx.env) && Names(vars) <= rho.Keys && Installed(m.p, Build(m.t, vars, ctx).code)
    ensures RelAll(m, Lookup(vars, rho), ListValues(w))
    ensures Steps(m, State(Cur(ctx), ks, d), State(Cur(Build(m.t, vars, ctx)), ks, Data([w] + d.stack, d.saved, d.g)))
    decreases |vars|
  {
    hide Installed, Steps, Vars, Rel, Matches, Step, LastStep, Exec, ListValues, Faithful;
    if vars == [] {
      InstrRuns(m, Op(PushConstant(NIL)), 0, 1, ctx, ks, d);
      w := TAtom(NIL);
      NilExec(m, d);
    } else {
      var x, rest := vars[0], vars[1..];
      LookupCons(vars, rho);
      assert rest == vars[1..];
      NamesIn(vars, Vars(ctx.env));
      var ctx2 := GenPushLocalVar(x, ctx);
      LocalVarEffect(x, ctx);
      PushedVars(ctx.env);
      var ctx3 := Build(m.t, rest, ctx2);
      BuildInstalled(m, vars, ctx);
      var v := FirstVar(m, x, ctx, rho, ks, d);
      var d2 := Data([v] + d.stack, d.saved, d.g);
      MatchesPushed(m, ctx.env, rho, d.stack, v);
      var l := BuildRuns(m, rest, ctx2, rho, ks, d2);
      var d3 := Data([l] + d2.stack, d.saved, d.g);
      StepsJoin(m, State(Cur(ctx), ks, d), State(Cur(ctx2), ks, d2), State(Cur(ctx3), ks, d3));
      InstrRuns(m, Op(Prim(CONS)), 2, 1, ctx3, ks, d3);
      ConsExec(m, v, l, d);
      w := TPair(v, l);
      StepsJoin(m, State(Cur(ctx), ks, d), State(Cur(ctx3), ks, d3),
                State(Cur(Build(m.t, vars, ctx)), ks, Data([w] + d.stack, d.saved, d.g)));
      ListCons(m, rho[x], v, Lookup(rest, rho), l);
    }
  }

  lemma NilExec(m: Setup, d: Data)
    ensures Exec(m.t, m.q, Op(PushConstant(NIL)), d) == Data([TAtom(NIL)] + d.stack, d.saved, d.g)
    ensures ListValues(TAtom(NIL)) == []
  {}

  lemma ListCons(m: Setup, x: Value, v: TValue, xs: seq<Value>, l: TValue)
    requires Rel(m, x, v) && RelAll(m, xs, ListValues(l))
    ensures RelAll(m, [x] + xs, ListValues(TPair(v, l)))
  {}

  lemma NamesIn(vars: seq<Var>, vs: set<Var>)
    requires vars != [] && Names(vars) <= vs
    ensures vars[0] in vs && Names(vars[1..]) <= vs
  {
    assert vars[0] in Names(vars) && Names(vars[1..]) <= Names(vars);
  }

  lemma LookupCons(vars: seq<Var>, rho: map<Var, Value>)
    requires vars != [] && Names(vars) <= rho.Keys
    ensures vars[0] in rho && Names(vars[1..]) <= rho.Keys
    ensures Lookup(vars, rho) == [rho[vars[0]]] + Lookup(vars[1..], rho)
  {
    NamesIn(vars, rho.Keys);
  }

  lemma BuildInstalled(m: Setup, vars: seq<Var>, ctx: Context)
    requires vars != [] && Good(ctx) && HasCons(m.t) && Names(vars) <= Vars(ctx.env)
    requires Installed(m.p, Build(m.t, vars, ctx).code)
    ensures vars[0] in Vars(ctx.env) && Names(vars[1..]) <= Vars(ctx.env)
    ensures var ctx2 := GenPushLocalVar(vars[0], ctx);
      && Vars(ctx2.env) == Vars(ctx.env) && Installed(m.p, ctx2.code)
      && var ctx3 := Build(m.t, vars[1..], ctx2);
         && 2 <= ctx3.env.local.size && Installed(m.p, ctx3.code)
         && Build(m.t, vars, ctx) == GenInstruction(Op(Prim(CONS)), 2, 1, ctx3)
  {
    hide Installed, Vars, Step, LastStep;
    NamesIn(vars, Vars(ctx.env));
    var ctx2 := GenPushLocalVar(vars[0], ctx);
    LocalVarEffect(vars[0], ctx);
    PushedVars(ctx.env);
    var ctx3 := Build(m.t, vars[1..], ctx2);
    PushedByOne(0, ctx.env);
    PushedByOne(1, ctx.env);
    PopEffect(Op(Prim(CONS)), 2, ctx3, ctx.env);
    InstrAt(m, Op(Prim(CONS)), 2, 1, ctx3);
    BuildStep(m.t, vars[1..], ctx2);
    Back(m, ctx2.code, ctx3.code);
  }

  lemma FirstVar(m: Setup, x: Var, ctx: Context, rho: map<Var, Value>, ks: Frame, d: Data) returns (v: TValue)
    requires Good(ctx) && x in Vars(ctx.env) && x in rho && Matches(m, ctx.env, rho, d.stack)
    requires Installed(m.p, GenPushLocalVar(x, ctx).code)
    ensures Rel(m, rho[x], v)
    ensures Steps(m, State(Cur(ctx), ks, d), State(Cur(GenPushLocalVar(x, ctx)), ks, Data([v] + d.stack, d.saved, d.g)))
  {
    hide Installed, Steps, Rel;
    VariableAt(m, x, ctx, rho, d.stack);
    var k := FindLocalVar(x, ctx.env);
    var pos := if k >= 0 then k else -1 - k + |ctx.env.local.slots|;
    InstrRuns(m, Op(PushStack(pos)), 0, 1, ctx, ks, d);
    v := d.stack[pos];
  }

  lemma ConsExec(m: Setup, v: TValue, l: TValue, d: Data)
    requires Faithful(m)
    ensures Exec(m.t, m.q, Op(Prim(CONS)), Data([l] + ([v] + d.stack), d.saved, d.g)) ==
      Data([TPair(v, l)] + d.stack, d.saved, d.g)
  {
    var ws := [v, l];
    assert Rev(ws) == [l, v] by {
      assert ws[1..] == [l] && [l][1..] == [];
    }
    assert Rev(ws) + d.stack == [l] + ([v] + d.stack);
    PrimExec(m, CONS, ws, d, d.g);
  }

  lemma PrcRuns(m: Setup, e: Expr, ctx: Context, rho: map<Var, Value>, g: Store, fuel: nat, ks: Frame, d: Data,
                out: Out)
      returns (w: TValue, h: TStore, s: State<Point, Data>)
    requires e.Lambda? && Good(ctx) && HasCons(m.t) && Scoped(m.t, e, Vars(ctx.env)) && Ready(m, ctx.env, rho, g, d)
    requires Installed(m.p, CompPrc(m.t, e, ctx).code) && Eval(m.t, m.s, e, rho, g, fuel) == Some(out)
    ensures Gives(m, ForPush, ctx, CompPrc(m.t, e, ctx), ks, d, out, w, h, s)
  {
    hide Installed, Steps, Vars, Matches, Step, LastStep, Build, CompTail, RelStore, Faithful;
    var (ctx2, labelEntry) := MakeLabel(ctx);
    var (ctx3, labelContinue) := MakeLabel(ctx2);
    var list := Build(m.t, e.free, ctx3);
    PushedByOne(0, ctx.env);
    var i := Instr.Closure(labelEntry);
    PopEffect(i, 1, list, ctx.env);
    var ctx4 := GenInstruction(i, 1, 1, list);
    PushEffect(Goto(labelContinue), ctx4);
    var ctx5 := GenGoto(labelContinue, ctx4);
    PrcVars(e);
    var body := BodyContext(e, ctx5, labelEntry);
    var ctx7 := CompTail(m.t, e.body, body);
    BbStarts(m, ctx7, labelContinue);
    TailStep(m.t, e.body, body);
    Back(m, body.code, ctx7.code);
    var start := AddBb(ctx5.(env := PrcEnv(e)), labelEntry);
    InstrAt(m, Op(Entry(|e.params|, false)), 0, 0, start);
    BbStarts(m, ctx5, labelEntry);
    InstrAt(m, Goto(labelContinue), 0, 0, ctx4);
    InstrAt(m, i, 1, 1, list);
    var l := BuildRuns(m, e.free, ctx3, rho, ks, d);
    var d1 := Data([l] + d.stack, d.saved, d.g);
    InstrRuns(m, i, 1, 1, list, ks, d1);
    w, h := TClosure(labelEntry, ListValues(l)), d.g;
    var d2 := Data([w] + d.stack, d.saved, d.g);
    assert Exec(m.t, m.q, i, d1) == d2 by { assert d1.stack[1..] == d.stack; }
    StepsJoin(m, State(Cur(ctx), ks, d), State(Cur(list), ks, d1), State(Cur(ctx4), ks, d2));
    GotoRuns(m, labelContinue, ctx4, ks, d2);
    s := State(Point(labelContinue, 0), ks, d2);
    StepsJoin(m, State(Cur(ctx), ks, d), State(Cur(ctx4), ks, d2), s);
    assert BodyAt(m, e, labelEntry, body);
    ClosureRel(m, e, labelEntry, body, rho, l);
  }

  lemma ClosureRel(m: Setup, e: Expr, code: nat, body: Context, rho: map<Var, Value>, l: TValue)
    requires e.Lambda? && Names(e.free) <= rho.Keys && BodyAt(m, e, code, body)
    requires RelAll(m, Lookup(e.free, rho), ListValues(l))
    ensures Rel(m, Value.Closure(e.params, e.free, e.body, Lookup(e.free, rho)), TClosure(code, ListValues(l)))
  {
    hide BodyAt;
    assert e == Lambda(e.params, e.free, e.body);
    assert Compiled(m, e.params, e.free, e.body, code);
  }

  lemma {:induction false} BindAt(xs: seq<Var>, vs: seq<Value>, i: nat)
    requires |xs| == |vs| && NoneTwice(xs) && i < |xs|
    ensures xs[i] in Bind(xs, vs) && Bind(xs, vs)[xs[i]] == vs[i]
  {
    if i > 0 {
      BindAt(xs[1..], vs[1..], i - 1);
    }
  }

  /** A callee finds its arguments and its closed-over values where its code expects them. */
  lemma CalleeMatches(m: Setup, e: Expr, vs: seq<Value>, env: seq<Value>, ws: seq<TValue>, wenv: seq<TValue>)
    requires e.Lambda? && NoneTwice(e.params + e.free) && |vs| == |e.params| && |env| == |e.free|
    requires RelAll(m, vs, ws) && RelAll(m, env, wenv)
    ensures Matches(m, PrcEnv(e), Bind(e.params + e.free, vs + env), ws + wenv)
  {
    hide Rel;
    var xs, all, n := e.params + e.free, vs + env, |vs|;
    forall i | 0 <= i < |e.params|
      ensures e.params[i] in Bind(xs, all) && Rel(m, Bind(xs, all)[e.params[i]], (ws + wenv)[i])
    {
      BindAt(xs, all, i);
      assert xs[i] == e.params[i] && all[i] == vs[i];
    }
    forall j | 0 <= j < |e.free|
      ensures e.free[j] in Bind(xs, all) && Rel(m, Bind(xs, all)[e.free[j]], (ws + wenv)[n + j])
    {
      BindAt(xs, all, n + j);
      assert xs[n + j] == e.free[j] && all[n + j] == env[j] && (ws + wenv)[n + j] == wenv[j];
    }
  }

  /** The body of a called closure, from its entry point to its return. */
  lemma {:induction false} BodyRuns(m: Setup, f: Value, fw: TValue, vs: seq<Value>, ws: seq<TValue>, g: Store,
                                    h0: TStore, fuel: nat, ks: Frame, saved: seq<seq<TValue>>, out: Out)
      returns (w: TValue, h: TStore, s: State<Point, Data>)
    requires Faithful(m) && f.Closure? && Rel(m, f, fw) && RelAll(m, vs, ws) && RelStore(m, g, h0)
    requires Apply(m.t, m.s, f, vs, g, fuel) == Some(out)
    ensures Rel(m, out.v, w) && RelStore(m, out.g, h)
    ensures Steps(m, State(Point(fw.code, 0), ks, Data(ws + fw.env, saved, h0)), s)
    ensures Returning(m, s, ks, Data(ws + fw.env, saved, h0), w, h)
    decreases fuel, 0, 0
  {
    hide Installed, Steps, Matches, CompTail, Step, LastStep, RelStore;
    var e := Lambda(f.params, f.free, f.body);
    var ctx :| BodyAt(m, e, fw.code, ctx);
    var d := Data(ws + fw.env, saved, h0);
    CalleeMatches(m, e, vs, f.env, ws, fw.env);
    TailStep(m.t, f.body, ctx);
    Back(m, ctx.code, CompTail(m.t, f.body, ctx).code);
    EntryRuns(m, e, fw.code, ctx, ks, d);
    w, h, s := TailRuns(m, f.body, ctx, Bind(f.params + f.free, vs + f.env), g, fuel - 1, ks, d, out);
    StepsJoin(m, State(Point(fw.code, 0), ks, d), State(Cur(ctx), ks, d), s);
  }

  lemma EntryRuns(m: Setup, e: Expr, code: nat, ctx: Context, ks: Frame, d: Data)
    requires e.Lambda? && BodyAt(m, e, code, ctx) && Installed(m.p, ctx.code)
    ensures Steps(m, State(Point(code, 0), ks, d), State(Cur(ctx), ks, d))
  {
    var b := ctx.code.revBbs[0];
    assert HoldsStart(m.p, b);
    var rev := m.p[code].rev;
    assert rev[|rev| - 1..] == [Op(Entry(|e.params|, false))];
    assert rev[|rev| - 1] == Op(Entry(|e.params|, false));
    StepsOne(m, State(Point(code, 0), ks, d), State(Point(code, 1), ks, d));
  }

  function CallInstr(reason: Reason, n: nat): Instr {
    if reason == ForTail then Instr.Jump(n) else Instr.Call(n)
  }

  /** The environments between the parts of a call. */
  lemma CallEnvs(t: Table, e: Expr, ctx: Context)
    requires e.Call? && Good(ctx) && HasCons(t) && Scoped(t, e, Vars(ctx.env))
    ensures var n, args := |e.args|, CompArgs(t, e.args, ctx);
      && Vars(args.env) == Vars(ctx.env) && args.env == PushedBy(n, ctx.env) && Scoped(t, e.op, Vars(args.env))
      && var ctx2 := CompPush(t, e.op, args);
         n + 1 <= ctx2.env.local.size && GenInstruction(Instr.Call(n), n + 1, 1, ctx2).env == Pushed(ctx.env)
  {
    hide Vars, CompArgs, CompPush;
    var n, args := |e.args|, CompArgs(t, e.args, ctx);
    PushedByVars(n, ctx.env);
    PushedByOne(n, ctx.env);
    PopEffect(Instr.Call(n), n + 1, CompPush(t, e.op, args), ctx.env);
  }

  lemma CallInstalled(m: Setup, e: Expr, reason: Reason, ctx: Context)
    requires e.Call? && Good(ctx) && HasCons(m.t) && Scoped(m.t, e, Vars(ctx.env))
    requires Installed(m.p, CompCall(m.t, e, reason, ctx).code)
    ensures var n, args := |e.args|, CompArgs(m.t, e.args, ctx);
      && Vars(args.env) == Vars(ctx.env) && args.env == PushedBy(n, ctx.env)
      && var ctx2 := CompPush(m.t, e.op, args);
         && n + 1 <= ctx2.env.local.size && Installed(m.p, args.code) && Installed(m.p, ctx2.code)
         && Installed(m.p, GenInstruction(CallInstr(reason, n), n + 1, 1, ctx2).code)
         && GenInstruction(Instr.Call(n), n + 1, 1, ctx2).env == Pushed(ctx.env)
  {
    hide Installed, Vars, Step, LastStep, CompArgs, CompPush, PushedBy;
    CallEnvs(m.t, e, ctx);
    var n, args := |e.args|, CompArgs(m.t, e.args, ctx);
    var ctx2 := CompPush(m.t, e.op, args);
    if reason == ForNone {
      var ctx3 := GenInstruction(Instr.Call(n), n + 1, 1, ctx2);
      PushedByOne(0, ctx.env);
      PopEffect(Op(Pop), 1, ctx3, ctx.env);
      InstrAt(m, Op(Pop), 1, 0, ctx3);
    }
    InstrAt(m, CallInstr(reason, n), n + 1, 1, ctx2);
    PushStep(m.t, e.op, args);
    Back(m, args.code, ctx2.code);
  }

  /** What a call does with the stack. */
  lemma CallExec(m: Setup, n: nat, ws: seq<TValue>, fw: TValue, d: Data, h: TStore)
    requires |ws| == n && fw.TClosure?
    ensures var d1 := Data([fw] + (Rev(ws) + d.stack), d.saved, h);
      && Exec(m.t, m.q, Instr.Call(n), d1) == Data(ws + fw.env, [d.stack] + d.saved, h)
      && Exec(m.t, m.q, Instr.Jump(n), d1) == Data(ws + fw.env, d.saved, h)
      && d1.stack != [] && d1.stack[0] == fw && fw.code in DataCodes(d1)
  {
    hide Rev, DataCodes, Codes, AllCodes, ExecOp;
    RevTwice(ws);
    var d1 := Data([fw] + (Rev(ws) + d.stack), d.saved, h);
    CallSlices(fw, Rev(ws), d.stack);
    assert CalleeStack(n, d1) == ws + fw.env;
    TopCode(d1);
  }

  lemma CallSlices(fw: TValue, r: seq<TValue>, s: seq<TValue>)
    ensures var all := [fw] + (r + s);
      |all| == 1 + |r| + |s| && all[0] == fw && all[1..|r| + 1] == r && all[|r| + 1..] == s
  {}

  lemma TopCode(d: Data)
    requires d.stack != [] && d.stack[0].TClosure?
    ensures d.stack[0].code in DataCodes(d)
  {
    assert d.stack[0].code in Codes(d.stack[0]);
    assert d.stack[0].code in AllCodes(d.stack);
  }

  /** The callee and the arguments of a call, as evaluation has them. */
  ghost function CalleeOf(m: Setup, e: Expr, rho: map<Var, Value>, g: Store, fuel: nat): Option<(Out, seq<Value>)>
    requires e.Call?
  {
    var r :- EvalArgs(m.t, m.s, e.args, rho, g, fuel);
    var f :- Eval(m.t, m.s, e.op, rho, r.g, fuel);
    Some((f, r.vs))
  }

  /** Up to the call instruction: arguments and operator pushed. */
  lemma {:induction false} CallPrepares(m: Setup, e: Expr, reason: Reason, ctx: Context, rho: map<Var, Value>,
                                        g: Store, fuel: nat, ks: Frame, d: Data)
      returns (ws: seq<TValue>, fw: TValue, h1: TStore)
    requires e.Call? && Good(ctx) && HasCons(m.t) && Scoped(m.t, e, Vars(ctx.env)) && Ready(m, ctx.env, rho, g, d)
    requires Installed(m.p, CompCall(m.t, e, reason, ctx).code) && CalleeOf(m, e, rho, g, fuel).Some?
    ensures var (f, vs) := CalleeOf(m, e, rho, g, fuel).value;
      var args := CompArgs(m.t, e.args, ctx);
      && Scoped(m.t, e.op, Vars(args.env))
      && var ctx2 := CompPush(m.t, e.op, args);
      && ctx2.code.revBbs != [] && |ws| == |e.args| && Rel(m, f.v, fw) && RelAll(m, vs, ws) && RelStore(m, f.g, h1)
      && Steps(m, State(Cur(ctx), ks, d), State(Cur(ctx2), ks, Data([fw] + (Rev(ws) + d.stack), d.saved, h1)))
    decreases fuel, Size(e), 0, 0
  {
    hide CompArgs, CompPush, Installed, Steps, Vars, RelStore, RelAll, Matches, Rel, Gives, Faithful;
    var args := CompArgs(m.t, e.args, ctx);
    CallInstalled(m, e, reason, ctx);
    var ctx2 := CompPush(m.t, e.op, args);
    var outs := EvalArgs(m.t, m.s, e.args, rho, g, fuel).value;
    var f := Eval(m.t, m.s, e.op, rho, outs.g, fuel).value;
    var h0, s1;
    ws, h0 := ArgsRuns(m, e.args, ctx, rho, g, fuel, ks, d, outs);
    var d0 := Data(Rev(ws) + d.stack, d.saved, h0);
    MatchesMore(m, ctx.env, rho, d.stack, Rev(ws));
    fw, h1, s1 := PushRuns(m, e.op, args, rho, outs.g, fuel, ks, d0, f);
    OpGives(m, ctx, args, ctx2, ks, d, d0, f, fw, h1, s1);
  }

  lemma {:induction false} CallRuns(m: Setup, e: Expr, reason: Reason, ctx: Context, rho: map<Var, Value>, g: Store,
                                    fuel: nat, ks: Frame, d: Data, out: Out)
      returns (w: TValue, h: TStore, s: State<Point, Data>)
    requires e.Call? && Good(ctx) && HasCons(m.t) && Scoped(m.t, e, Vars(ctx.env)) && Ready(m, ctx.env, rho, g, d)
    requires Installed(m.p, CompCall(m.t, e, reason, ctx).code) && Eval(m.t, m.s, e, rho, g, fuel) == Some(out)
    ensures Gives(m, reason, ctx, CompCall(m.t, e, reason, ctx), ks, d, out, w, h, s)
    decreases fuel, Size(e), 0
  {
    hide CompArgs, CompPush, Installed, Steps, Vars, RelStore, RelAll, Matches, Rel, Gives, Faithful, Exec;
    var n, args := |e.args|, CompArgs(m.t, e.args, ctx);
    CallInstalled(m, e, reason, ctx);
    var ctx2 := CompPush(m.t, e.op, args);
    var (f, vs) := CalleeOf(m, e, rho, g, fuel).value;
    assert f.v.Closure?;
    var ws, fw, h1 := CallPrepares(m, e, reason, ctx, rho, g, fuel, ks, d);
    if reason == ForTail {
      w, h, s := JumpRuns(m, n, ctx, ctx2, ks, d, f, fw, vs, ws, h1, fuel, out);
    } else {
      var w2, h2, s2 := ReturnRuns(m, n, ctx, ctx2, ks, d, f, fw, vs, ws, h1, fuel, out);
      var ctx3 := GenInstruction(Instr.Call(n), n + 1, 1, ctx2);
      w, h, s := ValueEnds(m, reason, ctx, ctx3, ks, d, out, w2, h2, s2);
    }
  }

  /** The callee of a tail call starts with the continuations and the saved stacks that its caller started
      with: a loop of tail calls takes no space. */
  lemma TailCallEnters(m: Setup, e: Expr, ctx: Context, rho: map<Var, Value>, g: Store, fuel: nat, ks: Frame, d: Data)
      returns (ws: seq<TValue>, fw: TValue, h1: TStore)
    requires e.Call? && Good(ctx) && HasCons(m.t) && Scoped(m.t, e, Vars(ctx.env)) && Ready(m, ctx.env, rho, g, d)
    requires Installed(m.p, CompTail(m.t, e, ctx).code)
    requires CalleeOf(m, e, rho, g, fuel).Some? && CalleeOf(m, e, rho, g, fuel).value.0.v.Closure?
    ensures var (f, vs) := CalleeOf(m, e, rho, g, fuel).value;
      && fw.TClosure? && Rel(m, f.v, fw) && RelAll(m, vs, ws) && RelStore(m, f.g, h1)
      && Steps(m, State(Cur(ctx), ks, d), State(Point(fw.code, 0), ks, Data(ws + fw.env, d.saved, h1)))
  {
    hide CompArgs, CompPush, Installed, Steps, Vars, RelStore, RelAll, Matches, Gives, Faithful, Exec, Eval, EvalArgs;
    var n, args := |e.args|, CompArgs(m.t, e.args, ctx);
    CallInstalled(m, e, ForTail, ctx);
    var ctx2 := CompPush(m.t, e.op, args);
    ws, fw, h1 := CallPrepares(m, e, ForTail, ctx, rho, g, fuel, ks, d);
    JumpEnters(m, n, ctx, ctx2, ks, d, fw, ws, h1);
  }

  lemma JumpEnters(m: Setup, n: nat, ctx: Context, ctx2: Context, ks: Frame, d: Data, fw: TValue, ws: seq<TValue>,
                   h1: TStore)
    requires ctx.code.revBbs != [] && ctx2.code.revBbs != [] && Good(ctx2) && n + 1 <= ctx2.env.local.size
    requires fw.TClosure? && |ws| == n && Installed(m.p, GenInstruction(Instr.Jump(n), n + 1, 1, ctx2).code)
    requires Steps(m, State(Cur(ctx), ks, d), State(Cur(ctx2), ks, Data([fw] + (Rev(ws) + d.stack), d.saved, h1)))
    ensures Steps(m, State(Cur(ctx), ks, d), State(Point(fw.code, 0), ks, Data(ws + fw.env, d.saved, h1)))
  {
    hide Installed, Steps, Exec, Rev, Codes, AllCodes, DataCodes;
    var d1 := Data([fw] + (Rev(ws) + d.stack), d.saved, h1);
    InstrAt(m, Instr.Jump(n), n + 1, 1, ctx2);
    CallExec(m, n, ws, fw, d, h1);
    var d2 := Data(ws + fw.env, d.saved, h1);
    JumpSteps(m, n, Cur(ctx2), ks, d1, d2);
    StepsJoin(m, State(Cur(ctx), ks, d), State(Cur(ctx2), ks, d1), State(Point(fw.code, 0), ks, d2));
  }

  lemma JumpSteps(m: Setup, n: nat, at: Point, ks: Frame, d1: Data, d2: Data)
    requires at.block < |m.p| && at.index < |m.p[at.block].rev| && m.p[at.block].Nth(at.index) == Instr.Jump(n)
    requires d1.stack != [] && d1.stack[0].TClosure? && d1.stack[0].code in DataCodes(d1)
    requires Exec(m.t, m.q, Instr.Jump(n), d1) == d2
    ensures Steps(m, State(at, ks, d1), State(Point(d1.stack[0].code, 0), ks, d2))
  {
    hide DataCodes, Exec, Steps;
    StepsOne(m, State(at, ks, d1), State(Point(d1.stack[0].code, 0), ks, d2));
  }

  /** Arguments and operator pushed. */
  lemma OpGives(m: Setup, ctx: Context, args: Context, ctx2: Context, ks: Frame, d: Data, d0: Data, f: Out, fw: TValue,
                h1: TStore, s1: State<Point, Data>)
    requires ctx.code.revBbs != [] && args.code.revBbs != [] && d0.saved == d.saved
    requires Steps(m, State(Cur(ctx), ks, d), State(Cur(args), ks, d0))
    requires Gives(m, ForPush, args, ctx2, ks, d0, f, fw, h1, s1)
    ensures ctx2.code.revBbs != [] && Rel(m, f.v, fw) && RelStore(m, f.g, h1)
    ensures Steps(m, State(Cur(ctx), ks, d), State(Cur(ctx2), ks, Data([fw] + d0.stack, d.saved, h1)))
  {
    StepsJoin(m, State(Cur(ctx), ks, d), State(Cur(args), ks, d0), s1);
  }

  lemma {:induction false} JumpRuns(m: Setup, n: nat, ctx: Context, ctx2: Context, ks: Frame, d: Data, f: Out,
                                    fw: TValue, vs: seq<Value>, ws: seq<TValue>, h1: TStore, fuel: nat, out: Out)
      returns (w: TValue, h: TStore, s: State<Point, Data>)
    requires Faithful(m) && ctx.code.revBbs != [] && Good(ctx2) && n + 1 <= ctx2.env.local.size && |ws| == n
    requires Installed(m.p, GenInstruction(Instr.Jump(n), n + 1, 1, ctx2).code)
    requires f.v.Closure? && Rel(m, f.v, fw) && RelAll(m, vs, ws) && RelStore(m, f.g, h1)
    requires Steps(m, State(Cur(ctx), ks, d), State(Cur(ctx2), ks, Data([fw] + (Rev(ws) + d.stack), d.saved, h1)))
    requires Apply(m.t, m.s, f.v, vs, f.g, fuel) == Some(out)
    ensures Gives(m, ForTail, ctx, GenInstruction(Instr.Jump(n), n + 1, 1, ctx2), ks, d, out, w, h, s)
    decreases fuel, 0, 1
  {
    hide Installed, Steps, RelStore, RelAll, Faithful, Apply, Exec;
    JumpEnters(m, n, ctx, ctx2, ks, d, fw, ws, h1);
    var entry := State(Point(fw.code, 0), ks, Data(ws + fw.env, d.saved, h1));
    w, h, s := BodyRuns(m, f.v, fw, vs, ws, f.g, h1, fuel, ks, d.saved, out);
    StepsJoin(m, State(Cur(ctx), ks, d), entry, s);
  }

  lemma {:induction false} ReturnRuns(m: Setup, n: nat, ctx: Context, ctx2: Context, ks: Frame, d: Data, f: Out,
                                      fw: TValue, vs: seq<Value>, ws: seq<TValue>, h1: TStore, fuel: nat, out: Out)
      returns (w: TValue, h: TStore, s: State<Point, Data>)
    requires Faithful(m) && ctx.code.revBbs != [] && Good(ctx2) && n + 1 <= ctx2.env.local.size && |ws| == n
    requires Installed(m.p, GenInstruction(Instr.Call(n), n + 1, 1, ctx2).code)
    requires f.v.Closure? && Rel(m, f.v, fw) && RelAll(m, vs, ws) && RelStore(m, f.g, h1)
    requires Steps(m, State(Cur(ctx), ks, d), State(Cur(ctx2), ks, Data([fw] + (Rev(ws) + d.stack), d.saved, h1)))
    requires Apply(m.t, m.s, f.v, vs, f.g, fuel) == Some(out)
    ensures Gives(m, ForPush, ctx, GenInstruction(Instr.Call(n), n + 1, 1, ctx2), ks, d, out, w, h, s)
    decreases fuel, 0, 1
  {
    hide Installed, Steps, RelStore, RelAll, Faithful, Apply, Exec;
    var d1 := Data([fw] + (Rev(ws) + d.stack), d.saved, h1);
    InstrAt(m, Instr.Call(n), n + 1, 1, ctx2);
    CallExec(m, n, ws, fw, d, h1);
    var back := Cur(GenInstruction(Instr.Call(n), n + 1, 1, ctx2));
    var d2 := Data(ws + fw.env, [d.stack] + d.saved, h1);
    var entry := State(Point(fw.code, 0), [back] + ks, d2);
    StepsOne(m, State(Cur(ctx2), ks, d1), entry);
    StepsJoin(m, State(Cur(ctx), ks, d), State(Cur(ctx2), ks, d1), entry);
    var s1;
    w, h, s1 := BodyRuns(m, f.v, fw, vs, ws, f.g, h1, fuel, [back] + ks, [d.stack] + d.saved, out);
    StepsJoin(m, State(Cur(ctx), ks, d), entry, s1);
    s := State(back, ks, Data([w] + d.stack, d.saved, h));
    ReturnStepsBack(m, s1, back, ks, d, d2, w, h);
    StepsJoin(m, State(Cur(ctx), ks, d), s1, s);
  }

  lemma ReturnStepsBack(m: Setup, s1: State<Point, Data>, back: Point, ks: Frame, d: Data, d2: Data, w: TValue,
                        h: TStore)
    requires Returning(m, s1, [back] + ks, d2, w, h) && d2.saved == [d.stack] + d.saved
    ensures Steps(m, s1, State(back, ks, Data([w] + d.stack, d.saved, h)))
  {
    assert ([back] + ks)[1..] == ks && ([d.stack] + d.saved)[1..] == d.saved;
    StepsOne(m, s1, State(back, ks, Data([w] + d.stack, d.saved, h)));
  }

  // ---- whole programs

  lemma {:induction false} ScopedSplit(t: Table, es: seq<Expr>, e: Expr, vs: set<Var>)
    requires AllScoped(t, es + [e], vs)
    ensures AllScoped(t, es, vs) && Scoped(t, e, vs)
  {
    if es != [] {
      assert (es + [e])[1..] == es[1..] + [e];
      ScopedSplit(t, es[1..], e, vs);
    }
  }

  lemma BeginStep(t: Table, es: seq<Expr>, ctx: Context)
    requires es != [] && Good(ctx) && HasCons(t) && AllScoped(t, es, Vars(ctx.env))
    ensures CompNone(t, Begin(es), ctx) == CompNone(t, Begin(es[1..]), CompNone(t, es[0], ctx))
  {
    var first := CompNone(t, es[0], ctx);
    assert CompNone(t, Begin(es), ctx) == CompAll(t, es, ForNone, ctx);
    if |es| == 1 {
      assert CompAll(t, es, ForNone, ctx) == Comp(t, es[0], ForNone, ctx) == first;
      assert CompSeq(t, Begin(es[1..]), ForNone, first) == first;
    } else {
      assert CompNone(t, Begin(es[1..]), first) == CompAll(t, es[1..], ForNone, first);
    }
  }

  /** The code of a program is the code of its expressions and then that of (#%halt). */
  lemma {:induction false} CodeSplit(t: Table, es: seq<Expr>, e: Expr, ctx: Context)
    requires Good(ctx) && HasCons(t) && AllScoped(t, es + [e], Vars(ctx.env))
    ensures AllScoped(t, es, Vars(ctx.env)) && Scoped(t, e, Vars(ctx.env))
    ensures CompAll(t, es + [e], ForNone, ctx) == CompNone(t, e, CompNone(t, Begin(es), ctx))
    decreases |es|
  {
    ScopedSplit(t, es, e, Vars(ctx.env));
    if es == [] {
      assert es + [e] == [e];
    } else {
      var first := CompNone(t, es[0], ctx);
      assert (es + [e])[1..] == es[1..] + [e] && (es + [e])[0] == es[0];
      CodeSplit(t, es[1..], e, first);
      assert CompAll(t, es + [e], ForNone, ctx) == CompAll(t, es[1..] + [e], ForNone, first);
      BeginStep(t, es, ctx);
    }
  }

  /** If evaluation gives a result, the program gets to its (#%halt), with an empty stack, no caller, and
      the globals that its meaning has. */
  lemma ProgramRuns(m: Setup, es: seq<Expr>, fuel: nat, out: Out) returns (h: TStore, s: State<Point, Data>)
    requires Faithful(m) && Scoped(m.t, Whole(m.t, es), {}) && m.t.arity(m.t.halt) == 0
    requires Vars(InitContext().env) == {} && Installed(m.p, CompNone(m.t, Whole(m.t, es), InitContext()).code)
    requires Eval(m.t, m.s, Begin(es), map[], map[], fuel) == Some(out)
    ensures Steps(m, State(Point(0, 0), [], Data([], [], map[])), s)
    ensures s.at.block < |m.p| && s.at.index < |m.p[s.at.block].rev|
    ensures m.p[s.at.block].Nth(s.at.index) == Op(Prim(m.t.halt))
    ensures s.conts == [] && s.d == Data([], [], h) && RelStore(m, out.g, h)
  {
    hide CompPrimCall, CompAll, Installed, Vars, AllScoped, Eval, Steps;
    var ctx, d, halt := InitContext(), Data([], [], map[]), PrimCall(m.t.halt, []);
    CodeSplit(m.t, es, halt, ctx);
    assert CompNone(m.t, Whole(m.t, es), ctx) == CompAll(m.t, es + [halt], ForNone, ctx);
    var mid := CompNone(m.t, Begin(es), ctx);
    PrimInstalled(m, halt, ForNone, mid);
    assert CompArgs(m.t, [], mid) == mid;
    InstrAt(m, Op(Prim(m.t.halt)), 0, if m.t.unspecified(m.t.halt) then 0 else 1, mid);
    assert Matches(m, ctx.env, map[], d.stack);
    var w;
    w, h, s := NoneRuns(m, Begin(es), ctx, map[], map[], fuel, [], d, out);
  }
}
