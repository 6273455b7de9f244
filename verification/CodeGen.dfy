/** Contexts, the compile-time stack and the code generator
    (compiler/ir.rkt, compiler/code-gen.rkt, compiler/comp.rkt). */
module CodeGen {
  import opened Blocks
  import opened Source
  import opened Wrappers

  // ---- compiler/ir.rkt

  /** The slots of the stack from the top, with the variable in each or nothing. */
  datatype Stack = Stack(size: nat, slots: seq<Option<Var>>)

  datatype Env = Env(local: Stack, closed: seq<Var>)

  /** Blocks in reverse; the first one is being filled. */
  datatype Code = Code(lastLabel: nat, revBbs: seq<Block>)

  datatype Context = Context(code: Code, env: Env, env2: Option<Env>)

  function StackExtend(x: Option<Var>, n: nat, s: Stack): Stack {
    Stack(s.size + n, seq(n, _ => x) + s.slots)
  }

  function StackDiscard(n: nat, s: Stack): Stack
    requires n <= s.size && n <= |s.slots|
  {
    Stack(s.size - n, s.slots[n..])
  }

  function InitContext(): Context {
    Context(Code(0, [Block(0, [])]), Env(Stack(0, []), []), None)
  }

  /** A block to fill, and slots to match the stack's size. */
  ghost predicate Good(ctx: Context) {
    ctx.code.revBbs != [] && ctx.env.local.size == |ctx.env.local.slots|
  }

  function MakeLabel(ctx: Context): (r: (Context, nat)) {
    var l := ctx.code.lastLabel + 1;
    (ctx.(code := ctx.code.(lastLabel := l)), l)
  }

  function AddBb(ctx: Context, l: nat): Context {
    ctx.(code := ctx.code.(revBbs := [Block(l, [])] + ctx.code.revBbs))
  }

  function AddInstr(ctx: Context, i: Instr): Context
    requires ctx.code.revBbs != []
  {
    var bbs := ctx.code.revBbs;
    ctx.(code := ctx.code.(revBbs := [Block(bbs[0].name, [i] + bbs[0].rev)] + bbs[1..]))
  }

  function IndexOf(x: Var, slots: seq<Option<Var>>): (r: Option<nat>)
    ensures r.Some? ==> r.value < |slots| && slots[r.value] == Some(x)
    ensures r.None? ==> Some(x) !in slots
  {
    if slots == [] then None
    else if slots[0] == Some(x) then Some(0)
    else match IndexOf(x, slots[1..]) case Some(i) => Some(i + 1) case None => None
  }

  function ClosedIndex(x: Var, closed: seq<Var>): (r: nat)
    requires x in closed
    ensures r < |closed| && closed[r] == x
  {
    if closed[0] == x then 0 else 1 + ClosedIndex(x, closed[1..])
  }

  ghost function Vars(env: Env): set<Var> {
    (set s | s in env.local.slots && s.Some? :: s.value) + Names(env.closed)
  }

  /** find-local-var: an index on the stack, or below zero one among the closed variables. */
  function FindLocalVar(x: Var, env: Env): int
    requires x in Vars(env)
  {
    match IndexOf(x, env.local.slots)
    case Some(i) => i
    case None => -(ClosedIndex(x, env.closed) + 1)
  }

  // ---- compiler/code-gen.rkt

  function GenInstruction(i: Instr, pops: nat, pushes: nat, ctx: Context): (r: Context)
    requires Good(ctx) && pops <= ctx.env.local.size
    ensures Good(r)
  {
    var stk := StackExtend(None, pushes, StackDiscard(pops, ctx.env.local));
    AddInstr(ctx.(env := ctx.env.(local := stk)), i)
  }

  function GenPushConstant(c: int, ctx: Context): Context
    requires Good(ctx)
  {
    GenInstruction(Op(PushConstant(c)), 0, 1, ctx)
  }

  function GenPushUnspecified(ctx: Context): Context
    requires Good(ctx)
  {
    GenPushConstant(FALSE, ctx)
  }

  function GenPushStack(pos: nat, ctx: Context): Context
    requires Good(ctx)
  {
    GenInstruction(Op(PushStack(pos)), 0, 1, ctx)
  }

  function GenPushLocalVar(x: Var, ctx: Context): Context
    requires Good(ctx) && x in Vars(ctx.env)
  {
    var i := FindLocalVar(x, ctx.env);
    if i >= 0 then GenPushStack(i, ctx) else GenPushStack(-1 - i + |ctx.env.local.slots|, ctx)
  }

  function GenReturn(ctx: Context): Context
    requires Good(ctx)
  {
    GenInstruction(Return, ctx.env.local.size, 0, ctx)
  }

  function GenGoto(l: nat, ctx: Context): Context
    requires Good(ctx)
  {
    GenInstruction(Goto(l), 0, 0, ctx)
  }

  function GenPrim(t: Table, id: nat, ctx: Context): Context
    requires Good(ctx) && t.arity(id) <= ctx.env.local.size
  {
    GenInstruction(Op(Prim(id)), t.arity(id), if t.unspecified(id) then 0 else 1, ctx)
  }

  // ---- compiler/comp.rkt

  /** The environment with one more value on the stack. */
  function Pushed(env: Env): Env {
    env.(local := StackExtend(None, 1, env.local))
  }

  const CONS: nat := 0

  ghost predicate HasCons(t: Table) {
    t.arity(CONS) == 2 && !t.unspecified(CONS) && t.halt != CONS
  }

  lemma PushedVars(env: Env)
    ensures Vars(Pushed(env)) == Vars(env)
  {
    var slots := Pushed(env).local.slots;
    assert slots == [None] + env.local.slots;
    assert forall i | 0 <= i < |env.local.slots| :: slots[i + 1] == env.local.slots[i];
    forall s ensures s in slots && s.Some? <==> s in env.local.slots && s.Some? {}
  }

  /** A value pushed by one instruction that takes none. */
  lemma PushEffect(i: Instr, ctx: Context)
    requires Good(ctx)
    ensures GenInstruction(i, 0, 1, ctx).env == Pushed(ctx.env)
    ensures GenInstruction(i, 0, 0, ctx).env == ctx.env
  {
    assert ctx.env.local.slots[0..] == ctx.env.local.slots;
    assert seq(0, _ => None) + ctx.env.local.slots == ctx.env.local.slots;
  }

  /** n values replaced by one, or by none. */
  lemma PopEffect(i: Instr, n: nat, ctx: Context, env: Env)
    requires Good(ctx) && ctx.env == PushedBy(n, env)
    ensures n <= ctx.env.local.size
    ensures GenInstruction(i, n, 1, ctx).env == Pushed(env) && GenInstruction(i, n, 0, ctx).env == env
  {
    assert ctx.env.local.slots[n..] == env.local.slots;
    assert seq(0, _ => None) + env.local.slots == env.local.slots;
  }

  function PushedBy(n: nat, env: Env): Env {
    env.(local := StackExtend(None, n, env.local))
  }

  lemma PushedByOne(n: nat, env: Env)
    ensures Pushed(PushedBy(n, env)) == PushedBy(n + 1, env) && PushedBy(0, env) == env
    ensures PushedBy(1, env) == Pushed(env)
  {
    assert seq(1, _ => None) + (seq(n, _ => None) + env.local.slots) == seq(n + 1, _ => None) + env.local.slots;
    assert seq(0, _ => None) + env.local.slots == env.local.slots;
  }

  lemma PushedByVars(n: nat, env: Env)
    ensures Vars(PushedBy(n, env)) == Vars(env)
  {
    var slots := PushedBy(n, env).local.slots;
    assert forall i | 0 <= i < |env.local.slots| :: slots[i + n] == env.local.slots[i];
    forall s ensures s in slots && s.Some? <==> s in env.local.slots && s.Some? {}
  }

  datatype Reason = ForNone | ForTail | ForPush

  /** What an expression leaves on the compile-time stack, but for the tail form. */
  predicate Leaves(reason: Reason, env: Env, ctx: Context) {
    match reason
    case ForNone => ctx.env == env
    case ForPush => ctx.env == Pushed(env)
    case ForTail => true
  }

  function CompNone(t: Table, e: Expr, ctx: Context): (r: Context)
    requires Good(ctx) && HasCons(t) && Scoped(t, e, Vars(ctx.env))
    ensures Good(r) && Leaves(ForNone, ctx.env, r)
    decreases Size(e), 1
  {
    match e
    case Cst(_) => ctx
    case Ref(_) => ctx
    case GlobalRef(_) => ctx
    case Lambda(_, _, _) => ctx
    case GlobalSet(k, rhs) =>
      var ctx2 := CompPush(t, rhs, ctx);
      PushedByOne(0, ctx.env);
      PopEffect(Op(SetGlobal(k)), 1, ctx2, ctx.env);
      GenInstruction(Op(SetGlobal(k)), 1, 0, ctx2)
    case If(_, _, _) => CompIf(t, e, ForNone, ctx)
    case Begin(_) => CompSeq(t, e, ForNone, ctx)
    case PrimCall(_, _) => CompPrimCall(t, e, ForNone, ctx)
    case Call(_, _) => CompCall(t, e, ForNone, ctx)
  }

  function CompTail(t: Table, e: Expr, ctx: Context): (r: Context)
    requires Good(ctx) && HasCons(t) && Scoped(t, e, Vars(ctx.env))
    ensures Good(r)
    decreases Size(e), 3
  {
    match e
    case If(_, _, _) => CompIf(t, e, ForTail, ctx)
    case Begin(_) => CompSeq(t, e, ForTail, ctx)
    case PrimCall(_, _) => CompPrimCall(t, e, ForTail, ctx)
    case Call(_, _) => CompCall(t, e, ForTail, ctx)
    case _ => GenReturn(CompPush(t, e, ctx))
  }

  function CompPush(t: Table, e: Expr, ctx: Context): (r: Context)
    requires Good(ctx) && HasCons(t) && Scoped(t, e, Vars(ctx.env))
    ensures Good(r) && Leaves(ForPush, ctx.env, r)
    decreases Size(e), 2
  {
    match e
    case Cst(c) =>
      PushEffect(Op(PushConstant(c)), ctx);
      GenPushConstant(c, ctx)
    case Ref(x) =>
      LocalVarEffect(x, ctx);
      GenPushLocalVar(x, ctx)
    case GlobalRef(k) =>
      PushEffect(Op(PushGlobal(k)), ctx);
      GenInstruction(Op(PushGlobal(k)), 0, 1, ctx)
    case GlobalSet(_, _) =>
      var ctx2 := CompNone(t, e, ctx);
      PushEffect(Op(PushConstant(FALSE)), ctx2);
      GenPushUnspecified(ctx2)
    case If(_, _, _) => CompIf(t, e, ForPush, ctx)
    case Lambda(_, _, _) => CompPrc(t, e, ctx)
    case Begin(_) => CompSeq(t, e, ForPush, ctx)
    case PrimCall(_, _) => CompPrimCall(t, e, ForPush, ctx)
    case Call(_, _) => CompCall(t, e, ForPush, ctx)
  }

  function Comp(t: Table, e: Expr, reason: Reason, ctx: Context): (r: Context)
    requires Good(ctx) && HasCons(t) && Scoped(t, e, Vars(ctx.env))
    ensures Good(r) && Leaves(reason, ctx.env, r)
    decreases Size(e), 4
  {
    match reason
    case ForNone => CompNone(t, e, ctx)
    case ForTail => CompTail(t, e, ctx)
    case ForPush => CompPush(t, e, ctx)
  }

  function CompIf(t: Table, e: Expr, reason: Reason, ctx: Context): (r: Context)
    requires e.If? && Good(ctx) && HasCons(t) && Scoped(t, e, Vars(ctx.env))
    ensures Good(r) && Leaves(reason, ctx.env, r)
    decreases Size(e), 0
  {
    if reason == ForTail then
      var (ctx2, labelThen) := MakeLabel(ctx);
      var (ctx3, labelElse) := MakeLabel(ctx2);
      var ctx4 := CompTest(t, e.tst, labelThen, labelElse, ctx3);
      var ctx5 := CompTail(t, e.els, AddBb(ctx4, labelElse).(env2 := None));
      CompTail(t, e.thn, AddBb(ctx5, labelThen).(env := ctx4.env2.value))
    else
      var (ctx2, labelThen) := MakeLabel(ctx);
      var (ctx3, labelElse) := MakeLabel(ctx2);
      var (ctx4, labelThenJoin) := MakeLabel(ctx3);
      var (ctx5, labelElseJoin) := MakeLabel(ctx4);
      var (ctx6, labelJoin) := MakeLabel(ctx5);
      var ctx7 := CompTest(t, e.tst, labelThen, labelElse, ctx6);
      var els := Comp(t, e.els, reason, AddBb(ctx7, labelElse).(env2 := None));
      PushEffect(Goto(labelElseJoin), els);
      var ctx8 := GenGoto(labelElseJoin, els);
      var thn := Comp(t, e.thn, reason, AddBb(ctx8, labelThen).(env := ctx7.env2.value));
      PushEffect(Goto(labelThenJoin), thn);
      var ctx9 := GenGoto(labelThenJoin, thn);
      PushEffect(Goto(labelJoin), AddBb(ctx9, labelElseJoin));
      var ctx10 := GenGoto(labelJoin, AddBb(ctx9, labelElseJoin));
      PushEffect(Goto(labelJoin), AddBb(ctx10, labelThenJoin));
      var ctx11 := GenGoto(labelJoin, AddBb(ctx10, labelThenJoin));
      AddBb(ctx11, labelJoin)
  }

  function CompSeq(t: Table, e: Expr, reason: Reason, ctx: Context): (r: Context)
    requires e.Begin? && Good(ctx) && HasCons(t) && Scoped(t, e, Vars(ctx.env))
    ensures Good(r) && Leaves(reason, ctx.env, r)
    decreases Size(e), 0
  {
    if e.es == [] then
      PushEffect(Op(PushConstant(FALSE)), ctx);
      match reason
      case ForNone => ctx
      case ForTail => GenReturn(GenPushUnspecified(ctx))
      case ForPush => GenPushUnspecified(ctx)
    else
      CompAll(t, e.es, reason, ctx)
  }

  /** All but the last expression for effect. */
  function CompAll(t: Table, es: seq<Expr>, reason: Reason, ctx: Context): (r: Context)
    requires es != [] && Good(ctx) && HasCons(t) && AllScoped(t, es, Vars(ctx.env))
    ensures Good(r) && Leaves(reason, ctx.env, r)
    decreases Sizes(es), 5
  {
    if |es| == 1 then Comp(t, es[0], reason, ctx) else CompAll(t, es[1..], reason, CompNone(t, es[0], ctx))
  }

  /** build: the closed-over values in a list. */
  function Build(t: Table, vars: seq<Var>, ctx: Context): (r: Context)
    requires Good(ctx) && HasCons(t) && Names(vars) <= Vars(ctx.env)
    ensures Good(r) && r.env == Pushed(ctx.env)
    decreases |vars|
  {
    if vars == [] then
      PushEffect(Op(PushConstant(NIL)), ctx);
      GenPushConstant(NIL, ctx)
    else
      assert vars[0] in Names(vars) && Names(vars[1..]) <= Names(vars);
      var ctx2 := GenPushLocalVar(vars[0], ctx);
      LocalVarEffect(vars[0], ctx);
      PushedVars(ctx.env);
      var ctx3 := Build(t, vars[1..], ctx2);
      PushedByOne(0, ctx.env);
      PushedByOne(1, ctx.env);
      PopEffect(Op(Prim(CONS)), 2, ctx3, ctx.env);
      GenPrim(t, CONS, ctx3)
  }

  lemma LocalVarEffect(x: Var, ctx: Context)
    requires Good(ctx) && x in Vars(ctx.env)
    ensures GenPushLocalVar(x, ctx).env == Pushed(ctx.env)
  {
    var i := FindLocalVar(x, ctx.env);
    PushEffect(Op(PushStack(if i >= 0 then i else -1 - i + |ctx.env.local.slots|)), ctx);
  }

  /** prc->env */
  function PrcEnv(e: Expr): Env
    requires e.Lambda?
  {
    Env(Stack(|e.params|, seq(|e.params|, i requires 0 <= i < |e.params| => Some(e.params[i]))), e.free)
  }

  lemma PrcVars(e: Expr)
    requires e.Lambda?
    ensures Vars(PrcEnv(e)) == Names(e.params) + Names(e.free)
  {
    var slots := PrcEnv(e).local.slots;
    forall x ensures x in Vars(PrcEnv(e)) <==> x in Names(e.params) + Names(e.free) {
      if x in e.params {
        var i :| 0 <= i < |e.params| && e.params[i] == x;
        assert slots[i] == Some(x);
      }
    }
  }

  /** The context in which the body of a procedure is compiled. */
  function BodyContext(e: Expr, ctx: Context, labelEntry: nat): (r: Context)
    requires e.Lambda?
    ensures Good(r) && r.env == PrcEnv(e)
  {
    var start := AddBb(ctx.(env := PrcEnv(e)), labelEntry);
    PushEffect(Op(Entry(|e.params|, false)), start);
    GenInstruction(Op(Entry(|e.params|, false)), 0, 0, start)
  }

  /** comp-prc, for a procedure that needs a closure. */
  function CompPrc(t: Table, e: Expr, ctx: Context): (r: Context)
    requires e.Lambda? && Good(ctx) && HasCons(t) && Scoped(t, e, Vars(ctx.env))
    ensures Good(r) && r.env == Pushed(ctx.env)
    decreases Size(e), 0
  {
    var (ctx2, labelEntry) := MakeLabel(ctx);
    var (ctx3, labelContinue) := MakeLabel(ctx2);
    var list := Build(t, e.free, ctx3);
    PushedByOne(0, ctx.env);
    PopEffect(Instr.Closure(labelEntry), 1, list, ctx.env);
    var ctx4 := GenInstruction(Instr.Closure(labelEntry), 1, 1, list);
    PushEffect(Goto(labelContinue), ctx4);
    var ctx5 := GenGoto(labelContinue, ctx4);
    PrcVars(e);
    var ctx7 := CompTail(t, e.body, BodyContext(e, ctx5, labelEntry));
    AddBb(ctx7.(env := ctx5.env), labelContinue)
  }

  /** The arguments, first one first. */
  function CompArgs(t: Table, es: seq<Expr>, ctx: Context): (r: Context)
    requires Good(ctx) && HasCons(t) && AllScoped(t, es, Vars(ctx.env))
    ensures Good(r) && r.env == PushedBy(|es|, ctx.env)
    decreases Sizes(es), 5
  {
    PushedByOne(0, ctx.env);
    if es == [] then ctx else
      PushedVars(ctx.env);
      var r := CompArgs(t, es[1..], CompPush(t, es[0], ctx));
      PushedMore(|es| - 1, ctx.env);
      r
  }

  lemma PushedMore(n: nat, env: Env)
    ensures PushedBy(n, Pushed(env)) == PushedBy(n + 1, env)
  {
    assert seq(n, _ => None) + (seq(1, _ => None) + env.local.slots) == seq(n + 1, _ => None) + env.local.slots;
  }

  function CompPrimCall(t: Table, e: Expr, reason: Reason, ctx: Context): (r: Context)
    requires e.PrimCall? && Good(ctx) && HasCons(t) && Scoped(t, e, Vars(ctx.env))
    ensures Good(r) && Leaves(reason, ctx.env, r)
    decreases Size(e), 0
  {
    var args := CompArgs(t, e.args, ctx);
    PopEffect(Op(Prim(e.id)), |e.args|, args, ctx.env);
    var result := GenPrim(t, e.id, args);
    if t.unspecified(e.id) then
      PushEffect(Op(PushConstant(FALSE)), result);
      match reason
      case ForTail => GenReturn(GenPushUnspecified(result))
      case ForPush => GenPushUnspecified(result)
      case ForNone => result
    else
      PushedByOne(0, ctx.env);
      PopEffect(Op(Pop), 1, result, ctx.env);
      match reason
      case ForTail => GenReturn(result)
      case ForPush => result
      case ForNone => GenInstruction(Op(Pop), 1, 0, result)
  }

  function CompCall(t: Table, e: Expr, reason: Reason, ctx: Context): (r: Context)
    requires e.Call? && Good(ctx) && HasCons(t) && Scoped(t, e, Vars(ctx.env))
    ensures Good(r) && Leaves(reason, ctx.env, r)
    decreases Size(e), 0
  {
    var n := |e.args|;
    var args := CompArgs(t, e.args, ctx);
    PushedByVars(n, ctx.env);
    var ctx2 := CompPush(t, e.op, args);
    PushedByOne(n, ctx.env);
    PopEffect(Instr.Call(n), n + 1, ctx2, ctx.env);
    match reason
    case ForTail => GenInstruction(Jump(n), n + 1, 1, ctx2)
    case ForPush => GenInstruction(Instr.Call(n), n + 1, 1, ctx2)
    case ForNone =>
      var ctx3 := GenInstruction(Instr.Call(n), n + 1, 1, ctx2);
      PushedByOne(0, ctx.env);
      PopEffect(Op(Pop), 1, ctx3, ctx.env);
      GenInstruction(Op(Pop), 1, 0, ctx3)
  }

  function CompTest(t: Table, e: Expr, labelTrue: nat, labelFalse: nat, ctx: Context): (r: Context)
    requires Good(ctx) && HasCons(t) && Scoped(t, e, Vars(ctx.env))
    ensures Good(r) && r.env == ctx.env && r.env2 == Some(ctx.env)
    decreases Size(e), 3
  {
    match e
    case Cst(c) =>
      var l := if c != FALSE then labelTrue else labelFalse;
      PushEffect(Goto(l), ctx);
      var ctx2 := GenGoto(l, ctx);
      ctx2.(env2 := Some(ctx2.env))
    case Lambda(_, _, _) =>
      PushEffect(Goto(labelTrue), ctx);
      var ctx2 := GenGoto(labelTrue, ctx);
      ctx2.(env2 := Some(ctx2.env))
    case _ =>
      var ctx2 := CompPush(t, e, ctx);
      PushedByOne(0, ctx.env);
      PopEffect(GotoIfFalse(labelFalse, labelTrue), 1, ctx2, ctx.env);
      var ctx3 := GenInstruction(GotoIfFalse(labelFalse, labelTrue), 1, 0, ctx2);
      ctx3.(env2 := Some(ctx3.env))
  }
}
