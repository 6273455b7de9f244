/** The machine that runs generated blocks: a stack of values, the stacks of callers, and the globals;
    and when its values stand for source values. */
module Execution {
  import opened Blocks
  import opened CodeGen
  import opened CodeShape
  import opened Source
  import opened Wrappers

  datatype TValue =
    | TAtom(c: int)
    | TPair(a: TValue, d: TValue)
    | TClosure(code: nat, env: seq<TValue>)

  type TStore = map<nat, TValue>

  datatype TOut = TOut(v: TValue, g: TStore)

  datatype Data = Data(stack: seq<TValue>, saved: seq<seq<TValue>>, g: TStore)

  type TPrimitives = (nat, seq<TValue>, TStore) -> Option<TOut>

  function ListValues(v: TValue): seq<TValue> {
    match v
    case TPair(a, d) => [a] + ListValues(d)
    case _ => []
  }

  function Push(v: TValue, d: Data): Data {
    d.(stack := [v] + d.stack)
  }

  function Drop(d: Data): Data {
    if d.stack == [] then d else d.(stack := d.stack[1..])
  }

  function Top(d: Data): TValue {
    if d.stack == [] then TAtom(NIL) else d.stack[0]
  }

  const CRASH := Data([], [], map[])

  /** What an instruction does to the data. */
  function Exec(t: Table, q: TPrimitives, i: Instr, d: Data): Data {
    match i
    case Op(op) => ExecOp(t, q, op, d)
    case Not => Push(TAtom(if d.stack != [] && d.stack[0] != TAtom(FALSE) then FALSE else 1), Drop(d))
    case Closure(l) => Push(TClosure(l, ListValues(Top(d))), Drop(d))
    case Call(n) =>
      if |d.stack| > n && d.stack[0].TClosure? then Data(CalleeStack(n, d), [d.stack[n + 1..]] + d.saved, d.g)
      else CRASH
    case Jump(n) =>
      if |d.stack| > n && d.stack[0].TClosure? then Data(CalleeStack(n, d), d.saved, d.g)
      else CRASH
    case Return =>
      if d.stack != [] && d.saved != [] then Data([d.stack[0]] + d.saved[0], d.saved[1..], d.g)
      else CRASH
    case _ => d
  }

  /** The arguments, first one on top, in front of the closure's environment. */
  function CalleeStack(n: nat, d: Data): seq<TValue>
    requires |d.stack| > n && d.stack[0].TClosure?
  {
    Rev(d.stack[1..n + 1]) + d.stack[0].env
  }

  function ExecOp(t: Table, q: TPrimitives, op: Operation, d: Data): Data {
    match op
    case Entry(_, _) => d
    case PushConstant(c) => Push(TAtom(c), d)
    case PushStack(pos) => Push(if pos < |d.stack| then d.stack[pos] else TAtom(NIL), d)
    case PushGlobal(k) => Push(if k in d.g then d.g[k] else TAtom(NIL), d)
    case SetGlobal(k) => Drop(d).(g := d.g[k := Top(d)])
    case Prim(id) => if id == t.halt then d else ExecPrim(t, q, id, d)
    case Pop => Drop(d)
  }

  function ExecPrim(t: Table, q: TPrimitives, id: nat, d: Data): Data {
    var n := t.arity(id);
    if |d.stack| < n then CRASH else
      match q(id, Rev(d.stack[..n]), d.g)
      case None => CRASH
      case Some(out) => Data((if t.unspecified(id) then [] else [out.v]) + d.stack[n..], d.saved, out.g)
  }

  ghost function Codes(v: TValue): set<nat> {
    match v
    case TAtom(_) => {}
    case TPair(a, d) => Codes(a) + Codes(d)
    case TClosure(code, env) => {code} + set i, c | 0 <= i < |env| && c in Codes(env[i]) :: c
  }

  ghost function AllCodes(vs: seq<TValue>): set<nat> {
    set i, c | 0 <= i < |vs| && c in Codes(vs[i]) :: c
  }

  ghost function DataCodes(d: Data): set<nat> {
    AllCodes(d.stack) + (set i, c | 0 <= i < |d.saved| && c in AllCodes(d.saved[i]) :: c)
    + (set k, c | k in d.g && c in Codes(d.g[k]) :: c)
  }

  ghost function StackMachine(t: Table, q: TPrimitives): World<Data> {
    World((i: Instr, d: Data) => Exec(t, q, i, d),
          (op: Operation) => op == Prim(t.halt),
          (d: Data) => d.stack != [] && d.stack[0] != TAtom(FALSE),
          (d: Data) => Drop(d),
          (d: Data) => if d.stack != [] && d.stack[0].TClosure? then d.stack[0].code else 0,
          (d: Data) => DataCodes(d))
  }

  // ---- a program, its machine, and what they have to do with the source

  datatype Setup = Setup(t: Table, s: Primitives, q: TPrimitives, p: seq<Block>)

  /** Block code is the code of this procedure's body. */
  ghost predicate Compiled(m: Setup, params: seq<Var>, free: seq<Var>, body: Expr, code: nat) {
    exists ctx :: BodyAt(m, Lambda(params, free, body), code, ctx)
  }

  ghost predicate BodyAt(m: Setup, e: Expr, code: nat, ctx: Context)
    requires e.Lambda?
  {
    && Good(ctx) && HasCons(m.t) && ctx.env == PrcEnv(e) && NoneTwice(e.params + e.free)
    && Scoped(m.t, e.body, Vars(ctx.env))
    && ctx.code.revBbs[0] == Block(code, [Op(Entry(|e.params|, false))])
    && Installed(m.p, CompTail(m.t, e.body, ctx).code)
  }

  ghost predicate Rel(m: Setup, v: Value, w: TValue)
    decreases v
  {
    match v
    case Atom(c) => w == TAtom(c)
    case Pair(a, d) => w.TPair? && Rel(m, a, w.a) && Rel(m, d, w.d)
    case Closure(params, free, body, env) =>
      && w.TClosure? && Compiled(m, params, free, body, w.code)
      && |env| == |free| == |w.env| && forall i | 0 <= i < |env| :: Rel(m, env[i], w.env[i])
  }

  ghost predicate RelAll(m: Setup, vs: seq<Value>, ws: seq<TValue>) {
    |vs| == |ws| && forall i | 0 <= i < |vs| :: Rel(m, vs[i], ws[i])
  }

  ghost predicate RelStore(m: Setup, g: Store, h: TStore) {
    forall k | k in g :: k in h && Rel(m, g[k], h[k])
  }

  /** The primitives treat related values alike, and cons makes pairs. */
  ghost predicate Faithful(m: Setup) {
    && HasCons(m.t)
    && (forall a, b, h :: m.q(CONS, [a, b], h) == Some(TOut(TPair(a, b), h)))
    && (forall id, vs, g, ws, h | RelAll(m, vs, ws) && RelStore(m, g, h) && m.s(id, vs, g).Some? ::
          PrimAlike(m, id, vs, g, ws, h))
  }

  ghost predicate PrimAlike(m: Setup, id: nat, vs: seq<Value>, g: Store, ws: seq<TValue>, h: TStore) {
    var a, b := m.s(id, vs, g), m.q(id, ws, h);
    a.Some? ==> b.Some? && Rel(m, a.value.v, b.value.v) && RelStore(m, a.value.g, b.value.g)
  }

  /** The run-time stack is as the compile-time environment says. */
  ghost predicate Matches(m: Setup, env: Env, rho: map<Var, Value>, stack: seq<TValue>) {
    && |stack| == |env.local.slots| + |env.closed|
    && (forall i | 0 <= i < |env.local.slots| && env.local.slots[i].Some? ::
          env.local.slots[i].value in rho && Rel(m, rho[env.local.slots[i].value], stack[i]))
    && (forall j | 0 <= j < |env.closed| ::
          env.closed[j] in rho && Rel(m, rho[env.closed[j]], stack[|env.local.slots| + j]))
  }

  lemma MatchesPushed(m: Setup, env: Env, rho: map<Var, Value>, stack: seq<TValue>, w: TValue)
    requires Matches(m, env, rho, stack)
    ensures Matches(m, Pushed(env), rho, [w] + stack)
  {
    var slots := Pushed(env).local.slots;
    assert slots == [None] + env.local.slots;
    forall j | 0 <= j < |env.closed|
      ensures env.closed[j] in rho && Rel(m, rho[env.closed[j]], ([w] + stack)[|slots| + j])
    {
      assert ([w] + stack)[|slots| + j] == stack[|env.local.slots| + j];
    }
  }

  lemma MatchesMore(m: Setup, env: Env, rho: map<Var, Value>, stack: seq<TValue>, ws: seq<TValue>)
    requires Matches(m, env, rho, stack)
    ensures Matches(m, PushedBy(|ws|, env), rho, ws + stack)
  {
    var slots := PushedBy(|ws|, env).local.slots;
    forall j | 0 <= j < |env.closed|
      ensures env.closed[j] in rho && Rel(m, rho[env.closed[j]], (ws + stack)[|slots| + j])
    {
      assert (ws + stack)[|slots| + j] == stack[|env.local.slots| + j];
    }
  }

  /** The compile-time position of a variable is where its value is at run time. */
  lemma VariableAt(m: Setup, x: Var, ctx: Context, rho: map<Var, Value>, stack: seq<TValue>)
    requires Good(ctx) && x in Vars(ctx.env) && Matches(m, ctx.env, rho, stack)
    ensures var i := FindLocalVar(x, ctx.env);
      var pos := if i >= 0 then i else -1 - i + |ctx.env.local.slots|;
      && 0 <= pos < |stack| && x in rho && Rel(m, rho[x], stack[pos])
      && GenPushLocalVar(x, ctx) == GenPushStack(pos, ctx)
  {}

  // ---- runs

  ghost predicate Steps(m: Setup, a: State<Point, Data>, b: State<Point, Data>) {
    exists n: nat :: BlockRun(StackMachine(m.t, m.q), m.p, a, n) == Running(b)
  }

  lemma StepsNone(m: Setup, a: State<Point, Data>)
    ensures Steps(m, a, a)
  {
    assert BlockRun(StackMachine(m.t, m.q), m.p, a, 0) == Running(a);
  }

  lemma StepsOne(m: Setup, a: State<Point, Data>, b: State<Point, Data>)
    requires BlockStep(StackMachine(m.t, m.q), m.p, a) == Running(b)
    ensures Steps(m, a, b)
  {
    assert BlockRun(StackMachine(m.t, m.q), m.p, b, 0) == Running(b);
    assert BlockRun(StackMachine(m.t, m.q), m.p, a, 1) == Running(b);
  }

  lemma {:induction false} RunJoin(w: World<Data>, p: seq<Block>, a: State<Point, Data>, i: nat, b: State<Point, Data>,
                                   j: nat)
    requires BlockRun(w, p, a, i) == Running(b)
    ensures BlockRun(w, p, a, i + j) == BlockRun(w, p, b, j)
    decreases i
  {
    if i > 0 {
      RunJoin(w, p, BlockStep(w, p, a).s, i - 1, b, j);
    }
  }

  lemma StepsJoin(m: Setup, a: State<Point, Data>, b: State<Point, Data>, c: State<Point, Data>)
    requires Steps(m, a, b) && Steps(m, b, c)
    ensures Steps(m, a, c)
  {
    var w := StackMachine(m.t, m.q);
    var i: nat :| BlockRun(w, m.p, a, i) == Running(b);
    var j: nat :| BlockRun(w, m.p, b, j) == Running(c);
    RunJoin(w, m.p, a, i, b, j);
  }

  /** Where the code so far ends. */
  function Cur(ctx: Context): Point
    requires ctx.code.revBbs != []
  {
    Point(ctx.code.revBbs[0].name, |ctx.code.revBbs[0].rev|)
  }

  /** The instruction generated next is the one executed next. */
  lemma InstrAt(m: Setup, i: Instr, pops: nat, pushes: nat, ctx: Context)
    requires Good(ctx) && pops <= ctx.env.local.size && Installed(m.p, GenInstruction(i, pops, pushes, ctx).code)
    ensures Installed(m.p, ctx.code)
    ensures var at := Cur(ctx); at.block < |m.p| && at.index < |m.p[at.block].rev| && m.p[at.block].Nth(at.index) == i
    ensures var r := GenInstruction(i, pops, pushes, ctx);
      Good(r) && Cur(r) == Point(Cur(ctx).block, Cur(ctx).index + 1)
  {
    assert GenInstruction(i, pops, pushes, ctx).code == AddInstr(ctx, i).code;
    InstrBack(m.p, i, ctx);
  }

  lemma InstrRuns(m: Setup, i: Instr, pops: nat, pushes: nat, ctx: Context, ks: seq<Point>, d: Data)
    requires Good(ctx) && pops <= ctx.env.local.size && Installed(m.p, GenInstruction(i, pops, pushes, ctx).code)
    requires (i.Op? && i.op != Prim(m.t.halt)) || i.Closure?
    ensures Installed(m.p, ctx.code)
    ensures Steps(m, State(Cur(ctx), ks, d), State(Cur(GenInstruction(i, pops, pushes, ctx)), ks, Exec(m.t, m.q, i, d)))
  {
    InstrAt(m, i, pops, pushes, ctx);
    StepsOne(m, State(Cur(ctx), ks, d), State(Cur(GenInstruction(i, pops, pushes, ctx)), ks, Exec(m.t, m.q, i, d)));
  }

  lemma GotoRuns(m: Setup, l: nat, ctx: Context, ks: seq<Point>, d: Data)
    requires Good(ctx) && Installed(m.p, GenGoto(l, ctx).code)
    ensures Installed(m.p, ctx.code) && Steps(m, State(Cur(ctx), ks, d), State(Point(l, 0), ks, d))
  {
    InstrAt(m, Goto(l), 0, 0, ctx);
    StepsOne(m, State(Cur(ctx), ks, d), State(Point(l, 0), ks, d));
  }

  lemma BbStarts(m: Setup, ctx: Context, l: nat)
    requires ctx.code.revBbs != [] && Installed(m.p, AddBb(ctx, l).code)
    ensures Installed(m.p, ctx.code) && Cur(AddBb(ctx, l)) == Point(l, 0)
  {
    BbBack(m.p, ctx, l);
  }
}
