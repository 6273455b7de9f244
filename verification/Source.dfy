/** The expressions that reach the code generator, and what they mean (compiler/ast.rkt).  Names are
    distinct, and mutable variables are global. */
module Source {
  import opened Wrappers

  type Var = nat

  const FALSE := 0
  const NIL := 2

  datatype Expr =
    | Cst(c: int)
    | Ref(x: Var)
    | GlobalRef(k: nat)
    | GlobalSet(k: nat, rhs: Expr)                                // def and set
    | If(tst: Expr, thn: Expr, els: Expr)
    | Begin(es: seq<Expr>)
    | Lambda(params: seq<Var>, free: seq<Var>, body: Expr)        // free: its non-global free variables
    | PrimCall(id: nat, args: seq<Expr>)
    | Call(op: Expr, args: seq<Expr>)

  function Size(e: Expr): (n: nat)
    ensures n > 0
  {
    match e
    case GlobalSet(_, rhs) => 1 + Size(rhs)
    case If(t, a, b) => 1 + Size(t) + Size(a) + Size(b)
    case Begin(es) => 1 + Sizes(es)
    case Lambda(_, _, body) => 1 + Size(body)
    case PrimCall(_, args) => 1 + Sizes(args)
    case Call(op, args) => 1 + Size(op) + Sizes(args)
    case _ => 1
  }

  function Sizes(es: seq<Expr>): nat {
    if es == [] then 0 else Size(es[0]) + Sizes(es[1..])
  }

  /** How many arguments a primitive takes, whether it has no result, and which one is #%halt. */
  datatype Table = Table(arity: nat -> nat, unspecified: nat -> bool, halt: nat)

  ghost predicate NoneTwice(xs: seq<Var>) {
    forall i, j | 0 <= i < j < |xs| :: xs[i] != xs[j]
  }

  ghost function Names(xs: seq<Var>): set<Var> {
    set x | x in xs
  }

  /** Variables are bound, names distinct, primitives called with the right number of arguments. */
  ghost predicate Scoped(t: Table, e: Expr, vs: set<Var>)
    decreases Size(e), 0
  {
    match e
    case Ref(x) => x in vs
    case GlobalSet(_, rhs) => Scoped(t, rhs, vs)
    case If(c, a, b) => Scoped(t, c, vs) && Scoped(t, a, vs) && Scoped(t, b, vs)
    case Begin(es) => AllScoped(t, es, vs)
    case Lambda(params, free, body) =>
      && Names(free) <= vs && NoneTwice(params + free) && Scoped(t, body, Names(params) + Names(free))
    case PrimCall(id, args) => |args| == t.arity(id) && AllScoped(t, args, vs)
    case Call(op, args) => Scoped(t, op, vs) && AllScoped(t, args, vs)
    case _ => true
  }

  ghost predicate AllScoped(t: Table, es: seq<Expr>, vs: set<Var>)
    decreases Sizes(es), 1
  {
    es == [] || (Scoped(t, es[0], vs) && AllScoped(t, es[1..], vs))
  }

  /** A program as the parser leaves it: its expressions, and (#%halt). */
  function Whole(t: Table, es: seq<Expr>): Expr {
    Begin(es + [PrimCall(t.halt, [])])
  }

  // ---- meaning

  datatype Value =
    | Atom(c: int)
    | Pair(a: Value, d: Value)
    | Closure(params: seq<Var>, free: seq<Var>, body: Expr, env: seq<Value>)

  type Store = map<nat, Value>

  datatype Out = Out(v: Value, g: Store)

  /** What the primitives do; they may change the store. */
  type Primitives = (nat, seq<Value>, Store) -> Option<Out>

  ghost function Bind(xs: seq<Var>, vs: seq<Value>): map<Var, Value>
    requires |xs| == |vs|
  {
    if xs == [] then map[] else Bind(xs[1..], vs[1..])[xs[0] := vs[0]]
  }

  ghost function Lookup(xs: seq<Var>, rho: map<Var, Value>): seq<Value>
    requires Names(xs) <= rho.Keys
  {
    seq(|xs|, i requires 0 <= i < |xs| => assert xs[i] in Names(xs); rho[xs[i]])
  }

  datatype Outs = Outs(vs: seq<Value>, g: Store)

  /** None: no result within this many nested calls, an error, or #%halt, after which there is no value. */
  ghost function Eval(t: Table, p: Primitives, e: Expr, rho: map<Var, Value>, g: Store, fuel: nat): Option<Out>
    decreases fuel, Size(e), 0
  {
    match e
    case Cst(c) => Some(Out(Atom(c), g))
    case Ref(x) => if x in rho then Some(Out(rho[x], g)) else None
    case GlobalRef(k) => if k in g then Some(Out(g[k], g)) else None
    case GlobalSet(k, rhs) =>
      var r :- Eval(t, p, rhs, rho, g, fuel);
      Some(Out(Atom(FALSE), r.g[k := r.v]))
    case If(c, a, b) =>
      var r :- Eval(t, p, c, rho, g, fuel);
      if r.v == Atom(FALSE) then Eval(t, p, b, rho, r.g, fuel) else Eval(t, p, a, rho, r.g, fuel)
    case Begin(es) => EvalBegin(t, p, es, rho, g, fuel)
    case Lambda(params, free, body) =>
      if Names(free) <= rho.Keys then Some(Out(Closure(params, free, body, Lookup(free, rho)), g)) else None
    case PrimCall(id, args) =>
      var r :- EvalArgs(t, p, args, rho, g, fuel);
      var out :- if id == t.halt then None else p(id, r.vs, r.g);
      if t.unspecified(id) then Some(Out(Atom(FALSE), out.g)) else Some(out)
    case Call(op, args) =>
      var r :- EvalArgs(t, p, args, rho, g, fuel);
      var f :- Eval(t, p, op, rho, r.g, fuel);
      Apply(t, p, f.v, r.vs, f.g, fuel)
  }

  /** A call of a closure, which takes fuel. */
  ghost function Apply(t: Table, p: Primitives, f: Value, vs: seq<Value>, g: Store, fuel: nat): Option<Out>
    decreases fuel, 0, 0
  {
    if fuel > 0 && f.Closure? && |vs| == |f.params| && |f.env| == |f.free| then
      Eval(t, p, f.body, Bind(f.params + f.free, vs + f.env), g, fuel - 1)
    else None
  }

  ghost function EvalArgs(t: Table, p: Primitives, es: seq<Expr>, rho: map<Var, Value>, g: Store,
                          fuel: nat): (r: Option<Outs>)
    ensures r.Some? ==> |r.value.vs| == |es|
    decreases fuel, Sizes(es), 1
  {
    if es == [] then Some(Outs([], g)) else
      var first :- Eval(t, p, es[0], rho, g, fuel);
      var rest :- EvalArgs(t, p, es[1..], rho, first.g, fuel);
      Some(Outs([first.v] + rest.vs, rest.g))
  }

  ghost function EvalBegin(t: Table, p: Primitives, es: seq<Expr>, rho: map<Var, Value>, g: Store,
                           fuel: nat): Option<Out>
    decreases fuel, Sizes(es), 1
  {
    if es == [] then Some(Out(Atom(FALSE), g))
    else if |es| == 1 then Eval(t, p, es[0], rho, g, fuel)
    else
      var first :- Eval(t, p, es[0], rho, g, fuel);
      EvalBegin(t, p, es[1..], rho, first.g, fuel)
  }
}
