/** From expressions to linear code (compiler/picobit.rkt). */
module Pipeline {
  import opened Blocks
  import opened CodeGen
  import opened CodeShape
  import opened Correctness
  import opened Execution
  import opened Lawfulness
  import opened Renaming
  import opened Renumbering
  import opened Scheduling
  import opened Source
  import opened Wrappers
  import Backend

  /** What the stages have made of a program: the vector p of its blocks, their final names in c, the
      blocks r that are left, in their final order, and the code that lays them out. */
  datatype Stages = Stages(p: seq<Block>, c: seq<Block>, order: seq<nat>, r: seq<Block>, code: seq<Item>,
    start: map<nat, nat>)

  ghost predicate Made(t: Table, es: seq<Expr>, x: Stages) {
    && HasCons(t) && t.arity(t.halt) == 0 && Scoped(t, Whole(t, es), {}) && Vars(InitContext().env) == {}
    && Installed(x.p, CompNone(t, Whole(t, es), InitContext()).code) && WellFormed(x.p)
    && Backend.Shaken(x.p, x.c, x.order, x.r) && WellFormed(x.r)
    && Layout(x.r, x.code, x.start) && Has(x.code, 0, At(0)) && 0 in x.start && ClosedLabels(x.r, x.start.Keys)
  }

  /** Code generation, the vector of blocks, tree shaking, reordering and linearizing. */
  method Compile(t: Table, es: seq<Expr>) returns (code: seq<Item>, ghost x: Stages)
    requires HasCons(t) && Scoped(t, Whole(t, es), {}) && t.arity(t.halt) == 0
    ensures Made(t, es, x) && code == x.code
  {
    hide Layout, Installed, Scoped, Backend.Shaken, WellFormed;
    NoVars();
    var ctx := CompNone(t, Whole(t, es), InitContext());
    CompStep(t, Whole(t, es), ForNone, InitContext());
    StepAdds(InitContext().code, ctx.code);
    CompleteCode(ctx.code);
    var p := CodeToVector(ctx.code);
    VectorWellFormed(t, es, ctx, p);
    ghost var c, order, r, start;
    code, c, order, r, start := Backend.Compile(p);
    EntryLaidOut(r, code, start);
    x := Stages(p, c, order, r, code, start);
  }

  lemma StepAdds(c: Code, d: Code)
    requires Fits(ForNone, c, d)
    ensures AddsAll(c, d)
  {}

  lemma VectorWellFormed(t: Table, es: seq<Expr>, ctx: Context, p: seq<Block>)
    requires HasCons(t) && Scoped(t, Whole(t, es), {}) && t.arity(t.halt) == 0 && Vars(InitContext().env) == {}
    requires ctx == CompNone(t, Whole(t, es), InitContext())
    requires |p| == ctx.code.lastLabel + 1 && forall l | 0 <= l < |p| :: p[l] in ctx.code.revBbs && p[l].name == l
    ensures WellFormed(p)
  {
    ProgramWellFormed(t, es, t.halt, ctx, p);
  }

  lemma EntryLaidOut(r: seq<Block>, code: seq<Item>, start: map<nat, nat>)
    requires Layout(r, code, start) && Has(code, 0, At(0))
    ensures 0 in start
  {}

  lemma NoVars()
    ensures Vars(InitContext().env) == {}
  {}

  const EMPTY := Data([], [], map[])

  /** The linear code of a program does what the program means.  If evaluation of its expressions gives a
      result, the code gets to its (#%halt) with an empty stack and no caller, it ends there and nowhere
      else, and every global has the value that evaluation gives it, in closures with the final names. */
  lemma SourceToLinear(m: Setup, es: seq<Expr>, fuel: nat, out: Out, x: Stages)
      returns (h: TStore, k: nat, t: State<nat, Data>)
    requires Faithful(m) && Honest(m.q) && Blind(m.q) && Made(m.t, es, x) && x.p == m.p
    requires Eval(m.t, m.s, Begin(es), map[], map[], fuel) == Some(out)
    ensures RelStore(m, out.g, h)
    ensures LinearRun(StackMachine(m.t, m.q), x.code, State(0, [], EMPTY), k) == Running(t)
    ensures Has(x.code, t.at, Do(Op(Prim(m.t.halt)))) && t.conts == []
    ensures t.d == Data([], [], RenameStore(NewName(x.c), h))
    ensures forall y :: LinearEnds(StackMachine(m.t, m.q), x.code, State(0, [], EMPTY), y) <==> y == t.d
  {
    hide Scoped, Eval, Faithful, Honest, Blind, Installed, RelStore, DataCodes, Lawful, Exec, Layout, WellFormed;
    hide Backend.Shaken;
    var w := StackMachine(m.t, m.q);
    var s;
    h, s := ProgramRuns(m, es, fuel, out);
    var n: nat :| BlockRun(w, m.p, State(Point(0, 0), [], EMPTY), n) == Running(s);
    k, t := HaltReached(m.t, m.q, x, n, s);
    AtHalt(w, x.code, k, t);
  }

  /** In the blocks, too: such a program is one that Backend.EndToEnd speaks about, and it ends. */
  lemma ProgramEnds(m: Setup, es: seq<Expr>, fuel: nat, out: Out, x: Stages) returns (h: TStore)
    requires Faithful(m) && Made(m.t, es, x) && x.p == m.p && Eval(m.t, m.s, Begin(es), map[], map[], fuel) == Some(out)
    ensures RelStore(m, out.g, h)
    ensures var w, s := StackMachine(m.t, m.q), State(Point(0, 0), [], EMPTY);
      NeverStuck(w, m.p, s) && forall d :: BlocksEnd(w, m.p, s, d) <==> d == Data([], [], h)
  {
    hide Scoped, Eval, Faithful, Installed, RelStore, Exec, Layout, WellFormed, Backend.Shaken;
    var w, s0 := StackMachine(m.t, m.q), State(Point(0, 0), [], EMPTY);
    var s;
    h, s := ProgramRuns(m, es, fuel, out);
    var n: nat :| BlockRun(w, m.p, s0, n) == Running(s);
    HaltExec(m.t, m.q, s.d);
    assert BlockStep(w, m.p, s) == Halted(s.d);
    RunJoin(w, m.p, s0, n, s, 1);
    assert BlockRun(w, m.p, s, 1) == Halted(s.d);
    assert BlocksEnd(w, m.p, s0, s.d);
    EndsOnce(w, m.p, s0, s.d);
  }

  /** Whether evaluation gives a result or not, the back end keeps what the blocks of a program do. */
  lemma BlocksToLinear(t: Table, q: TPrimitives, es: seq<Expr>, x: Stages, d: Data)
    requires Honest(q) && Blind(q) && Made(t, es, x)
    ensures var w, s, u := StackMachine(t, q), State(Point(0, 0), [], EMPTY), State(0, [], EMPTY);
      && (BlocksEnd(w, x.p, s, d) ==> LinearEnds(w, x.code, u, RenameData(NewName(x.c), d)))
      && (NeverStuck(w, x.p, s) && LinearEnds(w, x.code, u, d) ==>
            exists b :: BlocksEnd(w, x.p, s, b) && d == RenameData(NewName(x.c), b))
  {
    hide DataCodes, Exec, Lawful, Alike, WellFormed, Layout, Scoped, Installed, BlocksEnd, LinearEnds, NeverStuck;
    var rel := Renames(x.c, Backend.Retained(x.order));
    MachineLawful(t, q);
    MachineAlike(t, q, x.c, x.order);
    NoCodes(t, q, x.c, x.order);
    Backend.EndToEnd(StackMachine(t, q), x.p, x.c, x.order, x.r, x.code, x.start, rel, EMPTY, EMPTY);
  }

  /** The stack machine halts in the state it is in. */
  lemma AtHalt(w: World<Data>, code: seq<Item>, k: nat, t: State<nat, Data>)
    requires LinearRun(w, code, State(0, [], EMPTY), k) == Running(t) && LinearStep(w, code, t) == Halted(t.d)
    ensures forall y :: LinearEnds(w, code, State(0, [], EMPTY), y) <==> y == t.d
  {
    var s := State(0, [], EMPTY);
    LinearSplit(w, code, s, k, 1);
    assert LinearRun(w, code, t, 1) == Halted(t.d);
    assert LinearRun(w, code, s, k + 1) == Halted(t.d);
    forall n: nat, y | LinearRun(w, code, s, n) == Halted(y) ensures y == t.d {
      LinearSplit(w, code, s, n, k + 1);
      LinearSplit(w, code, s, k + 1, n);
    }
  }

  /** Wherever the blocks get to, the linear code gets to, with the same data under the final names. */
  lemma HaltReached(t: Table, q: TPrimitives, x: Stages, n: nat, s: State<Point, Data>)
      returns (k: nat, u: State<nat, Data>)
    requires Honest(q) && Blind(q) && WellFormed(x.p) && Backend.Shaken(x.p, x.c, x.order, x.r) && WellFormed(x.r)
    requires Layout(x.r, x.code, x.start) && Has(x.code, 0, At(0)) && 0 in x.start && ClosedLabels(x.r, x.start.Keys)
    requires BlockRun(StackMachine(t, q), x.p, State(Point(0, 0), [], EMPTY), n) == Running(s) && s.conts == []
    requires s.at.block < |x.p| && s.at.index < |x.p[s.at.block].rev|
    requires x.p[s.at.block].Nth(s.at.index) == Op(Prim(t.halt))
    ensures LinearRun(StackMachine(t, q), x.code, State(0, [], EMPTY), k) == Running(u)
    ensures LinearStep(StackMachine(t, q), x.code, u) == Halted(u.d)
    ensures Has(x.code, u.at, Do(Op(Prim(t.halt)))) && u.conts == [] && u.d == RenameData(NewName(x.c), s.d)
  {
    hide DataCodes, Lawful, Exec, WellFormed, Alike, Layout, ClosedLabels, Corresponds, Agree;
    var w, rel := StackMachine(t, q), Renames(x.c, Backend.Retained(x.order));
    MachineLawful(t, q);
    MachineAlike(t, q, x.c, x.order);
    NoCodes(t, q, x.c, x.order);
    Backend.SameOutcome(w, x.p, x.c, x.order, x.r, rel, EMPTY, EMPTY, n);
    var s' := BlockRun(w, x.r, State(Point(0, 0), [], EMPTY), n).s;
    SameOp(x.p, x.c, x.order, x.r, rel, s, s');
    k, u := LinearFollows(w, x.r, x.code, x.start, n, s');
    OpThere(x.r, x.code, x.start, s'.at);
    HaltExec(t, q, u.d);
  }

  lemma HaltExec(t: Table, q: TPrimitives, d: Data)
    ensures Exec(t, q, Op(Prim(t.halt)), d) == d
  {}

  lemma NoCodes(t: Table, q: TPrimitives, c: seq<Block>, order: seq<nat>)
    ensures StackMachine(t, q).labels(EMPTY) == {} && Renames(c, Backend.Retained(order))(EMPTY, EMPTY)
  {
    RenameCrash(NewName(c));
  }

  /** Renaming leaves operations alone. */
  lemma SameOp(p: seq<Block>, c: seq<Block>, order: seq<nat>, r: seq<Block>, rel: (Data, Data) -> bool,
               s: State<Point, Data>, t: State<Point, Data>)
    requires Backend.Shaken(p, c, order, r) && Corresponds(c, Backend.Retained(order), rel, s, t)
    requires s.at.block < |p| && s.at.index < |p[s.at.block].rev| && p[s.at.block].Nth(s.at.index).Op?
    ensures t.at.block < |r| && t.at.index < |r[t.at.block].rev|
    ensures r[t.at.block].Nth(t.at.index) == p[s.at.block].Nth(s.at.index)
    ensures rel(s.d, t.d) && |t.conts| == |s.conts|
  {
    var l, k := s.at.block, s.at.index;
    var i :| 0 <= i < |order| && order[i] == l;
    assert c[order[i]].name == i && r[i] == Block(i, FixAll(c, c[l].rev));
    assert r[i].Nth(k) == Fix(c, p[l].Nth(k));
  }

  /** Where the blocks get, from the entry block on, the linear code gets with the same data. */
  lemma LinearFollows(w: World<Data>, r: seq<Block>, code: seq<Item>, start: map<nat, nat>, n: nat, 
                      s: State<Point, Data>)
      returns (k: nat, t: State<nat, Data>)
    requires Lawful(w) && w.labels(EMPTY) == {} && WellFormed(r)
    requires Layout(r, code, start) && Has(code, 0, At(0)) && 0 in start && ClosedLabels(r, start.Keys)
    requires BlockRun(w, r, State(Point(0, 0), [], EMPTY), n) == Running(s)
    ensures LinearRun(w, code, State(0, [], EMPTY), k) == Running(t)
    ensures t.d == s.d && |t.conts| == |s.conts| && s.at.block in start && t.at == Spot(start, s.at)
  {
    hide Lawful, WellFormed;
    assert start[0] == 0;
    hide Layout;
    var a, b, first := State(Point(0, 0), [], EMPTY), State(0, [], EMPTY), State(1, [], EMPTY);
    assert Agree(w, start, a, first);
    assert LinearStep(w, code, b) == Running(first);
    hide Agree;
    var k0;
    k0, t := SimulatesRun(w, r, code, start, a, first, n);
    AgreeMeans(w, start, s, t);
    assert LinearRun(w, code, b, k0 + 1) == LinearRun(w, code, first, k0);
    k := k0 + 1;
  }

  lemma AgreeMeans(w: World<Data>, start: map<nat, nat>, s: State<Point, Data>, t: State<nat, Data>)
    requires Agree(w, start, s, t)
    ensures t.d == s.d && |t.conts| == |s.conts| && s.at.block in start && t.at == Spot(start, s.at)
  {}
}
