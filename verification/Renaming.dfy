/** The machine of generated code does not care what its code labels are called. */
module Renaming {
  import opened Backend
  import opened Blocks
  import opened CodeGen
  import opened Execution
  import opened Lawfulness
  import opened Renumbering
  import opened Source
  import opened Wrappers

  /** A value with the labels in its closures renamed. */
  function RenameValue(f: nat -> nat, v: TValue): TValue {
    match v
    case TAtom(_) => v
    case TPair(a, d) => TPair(RenameValue(f, a), RenameValue(f, d))
    case TClosure(code, env) => TClosure(f(code), seq(|env|, i requires 0 <= i < |env| => RenameValue(f, env[i])))
  }

  function RenameAll(f: nat -> nat, vs: seq<TValue>): (r: seq<TValue>)
    ensures |r| == |vs| && forall i | 0 <= i < |vs| :: r[i] == RenameValue(f, vs[i])
  {
    seq(|vs|, i requires 0 <= i < |vs| => RenameValue(f, vs[i]))
  }

  function RenameSaved(f: nat -> nat, saved: seq<seq<TValue>>): (r: seq<seq<TValue>>)
    ensures |r| == |saved| && forall i | 0 <= i < |saved| :: r[i] == RenameAll(f, saved[i])
  {
    seq(|saved|, i requires 0 <= i < |saved| => RenameAll(f, saved[i]))
  }

  function RenameStore(f: nat -> nat, g: TStore): (r: TStore)
    ensures r.Keys == g.Keys && forall k | k in g :: r[k] == RenameValue(f, g[k])
  {
    map k | k in g :: RenameValue(f, g[k])
  }

  function RenameData(f: nat -> nat, d: Data): Data {
    Data(RenameAll(f, d.stack), RenameSaved(f, d.saved), RenameStore(f, d.g))
  }

  function RenameOut(f: nat -> nat, out: Option<TOut>): Option<TOut> {
    match out
    case None => None
    case Some(o) => Some(TOut(RenameValue(f, o.v), RenameStore(f, o.g)))
  }

  ghost predicate OneToOne(f: nat -> nat, s: set<nat>) {
    forall a, b | a in s && b in s && f(a) == f(b) :: a == b
  }

  /** Primitives do not look at the labels in closures; they may tell them apart. */
  ghost predicate Blind(q: TPrimitives) {
    forall f: nat -> nat, id, vs, g | OneToOne(f, AllCodes(vs) + StoreCodes(g)) ::
      q(id, RenameAll(f, vs), RenameStore(f, g)) == RenameOut(f, q(id, vs, g))
  }

  // ---- renaming and the parts of data

  lemma RenameJoin(f: nat -> nat, a: seq<TValue>, b: seq<TValue>)
    ensures RenameAll(f, a + b) == RenameAll(f, a) + RenameAll(f, b)
  {}

  lemma RenamePart(f: nat -> nat, vs: seq<TValue>, i: nat, j: nat)
    requires i <= j <= |vs|
    ensures RenameAll(f, vs[i..j]) == RenameAll(f, vs)[i..j]
  {}

  lemma RenameTail(f: nat -> nat, vs: seq<TValue>, i: nat)
    requires i <= |vs|
    ensures RenameAll(f, vs[i..]) == RenameAll(f, vs)[i..]
  {}

  lemma {:induction false} RenameRev(f: nat -> nat, vs: seq<TValue>)
    ensures RenameAll(f, Rev(vs)) == Rev(RenameAll(f, vs))
  {
    if vs != [] {
      RenameRev(f, vs[1..]);
      RenameJoin(f, Rev(vs[1..]), [vs[0]]);
      assert RenameAll(f, vs)[1..] == RenameAll(f, vs[1..]);
      assert RenameAll(f, [vs[0]]) == [RenameValue(f, vs[0])];
    }
  }

  lemma {:induction false} RenameList(f: nat -> nat, v: TValue)
    ensures RenameAll(f, ListValues(v)) == ListValues(RenameValue(f, v))
  {
    if v.TPair? {
      RenameList(f, v.d);
      RenameJoin(f, [v.a], ListValues(v.d));
      assert RenameAll(f, [v.a]) == [RenameValue(f, v.a)];
    }
  }

  /** The labels of renamed data are the renamed labels. */
  lemma {:induction false} RenamedCodes(f: nat -> nat, v: TValue)
    ensures Codes(RenameValue(f, v)) == set c | c in Codes(v) :: f(c)
  {
    match v
    case TAtom(_) =>
    case TPair(a, d) => RenamedCodes(f, a); RenamedCodes(f, d);
    case TClosure(code, env) =>
      var w := RenameValue(f, v);
      forall i | 0 <= i < |env| ensures Codes(w.env[i]) == set c | c in Codes(env[i]) :: f(c) {
        RenamedCodes(f, env[i]);
      }
      forall x ensures x in Codes(w) <==> x in set c | c in Codes(v) :: f(c) {
        if x in Codes(w) && x != f(code) {
          var i :| 0 <= i < |w.env| && x in Codes(w.env[i]);
          var c :| c in Codes(env[i]) && f(c) == x;
          assert c in Codes(v);
        }
        if c :| c in Codes(v) && f(c) == x && c != code {
          var i :| 0 <= i < |env| && c in Codes(env[i]);
          assert f(c) in Codes(w.env[i]);
        }
      }
  }

  lemma RenamedAll(f: nat -> nat, vs: seq<TValue>)
    ensures AllCodes(RenameAll(f, vs)) == set c | c in AllCodes(vs) :: f(c)
  {
    forall i | 0 <= i < |vs| ensures Codes(RenameAll(f, vs)[i]) == set c | c in Codes(vs[i]) :: f(c) {
      RenamedCodes(f, vs[i]);
    }
    forall x | x in set c | c in AllCodes(vs) :: f(c) ensures x in AllCodes(RenameAll(f, vs)) {
      var c :| c in AllCodes(vs) && f(c) == x;
      var i :| 0 <= i < |vs| && c in Codes(vs[i]);
      assert f(c) in Codes(RenameAll(f, vs)[i]);
    }
    forall x | x in AllCodes(RenameAll(f, vs)) ensures x in set c | c in AllCodes(vs) :: f(c) {
      var i :| 0 <= i < |vs| && x in Codes(RenameAll(f, vs)[i]);
      var c :| c in Codes(vs[i]) && f(c) == x;
      assert c in AllCodes(vs);
    }
  }

  lemma RenamedSaved(f: nat -> nat, saved: seq<seq<TValue>>)
    ensures SavedCodes(RenameSaved(f, saved)) == set c | c in SavedCodes(saved) :: f(c)
  {
    forall i | 0 <= i < |saved| ensures AllCodes(RenameSaved(f, saved)[i]) == set c | c in AllCodes(saved[i]) :: f(c) {
      RenamedAll(f, saved[i]);
    }
    hide AllCodes;
    forall x | x in SavedCodes(RenameSaved(f, saved)) ensures x in set c | c in SavedCodes(saved) :: f(c) {
      var i :| 0 <= i < |saved| && x in AllCodes(RenameSaved(f, saved)[i]);
      var c :| c in AllCodes(saved[i]) && f(c) == x;
      assert c in SavedCodes(saved);
    }
    forall x | x in set c | c in SavedCodes(saved) :: f(c) ensures x in SavedCodes(RenameSaved(f, saved)) {
      var c :| c in SavedCodes(saved) && f(c) == x;
      var i :| 0 <= i < |saved| && c in AllCodes(saved[i]);
      assert f(c) in AllCodes(RenameSaved(f, saved)[i]);
    }
  }

  lemma RenamedStore(f: nat -> nat, g: TStore)
    ensures StoreCodes(RenameStore(f, g)) == set c | c in StoreCodes(g) :: f(c)
  {
    forall k | k in g ensures Codes(RenameStore(f, g)[k]) == set c | c in Codes(g[k]) :: f(c) {
      RenamedCodes(f, g[k]);
    }
    hide Codes;
    forall x | x in StoreCodes(RenameStore(f, g)) ensures x in set c | c in StoreCodes(g) :: f(c) {
      var k :| k in g && x in Codes(RenameStore(f, g)[k]);
      var c :| c in Codes(g[k]) && f(c) == x;
      assert c in StoreCodes(g);
    }
    forall x | x in set c | c in StoreCodes(g) :: f(c) ensures x in StoreCodes(RenameStore(f, g)) {
      var c :| c in StoreCodes(g) && f(c) == x;
      var k :| k in g && c in Codes(g[k]);
      assert f(c) in Codes(RenameStore(f, g)[k]);
    }
  }

  lemma RenamedData(f: nat -> nat, d: Data)
    ensures DataCodes(RenameData(f, d)) == set c | c in DataCodes(d) :: f(c)
  {
    hide AllCodes, SavedCodes, StoreCodes, DataCodes, RenameAll, RenameSaved, RenameStore;
    RenamedAll(f, d.stack);
    RenamedSaved(f, d.saved);
    RenamedStore(f, d.g);
    DataCodesAre(d);
    DataCodesAre(RenameData(f, d));
    ImageJoin(f, AllCodes(d.stack), SavedCodes(d.saved), StoreCodes(d.g));
  }

  lemma ImageJoin(f: nat -> nat, a: set<nat>, b: set<nat>, c: set<nat>)
    ensures (set x | x in a + b + c :: f(x)) ==
      (set x | x in a :: f(x)) + (set x | x in b :: f(x)) + (set x | x in c :: f(x))
  {}

  // ---- instructions

  lemma RenamePush(f: nat -> nat, v: TValue, d: Data)
    ensures RenameData(f, Push(v, d)) == Push(RenameValue(f, v), RenameData(f, d))
    ensures RenameData(f, Drop(d)) == Drop(RenameData(f, d)) && RenameValue(f, Top(d)) == Top(RenameData(f, d))
  {
    assert RenameAll(f, [v] + d.stack) == [RenameValue(f, v)] + RenameAll(f, d.stack);
    if d.stack != [] {
      assert RenameAll(f, d.stack[1..]) == RenameAll(f, d.stack)[1..];
    }
  }

  lemma RenameCrash(f: nat -> nat)
    ensures RenameData(f, CRASH) == CRASH
  {}

  /** The operands of a primitive and what is under them. */
  lemma RenameOperands(f: nat -> nat, stack: seq<TValue>, n: nat)
    requires n <= |stack|
    ensures Rev(RenameAll(f, stack)[..n]) == RenameAll(f, Rev(stack[..n]))
    ensures RenameAll(f, stack)[n..] == RenameAll(f, stack[n..])
    ensures AllCodes(Rev(stack[..n])) <= AllCodes(stack)
  {
    RenamePart(f, stack, 0, n);
    RenameTail(f, stack, n);
    RenameRev(f, stack[..n]);
    CodesPart(stack, 0, n);
    CodesRev(stack[..n]);
    var r := RenameAll(f, stack);
    assert stack[0..n] == stack[..n] && r[0..n] == r[..n];
  }

  lemma RenamePrim(t: Table, q: TPrimitives, f: nat -> nat, id: nat, d: Data)
    requires Blind(q) && OneToOne(f, DataCodes(d))
    ensures ExecPrim(t, q, id, RenameData(f, d)) == RenameData(f, ExecPrim(t, q, id, d))
  {
    hide AllCodes, DataCodes, Codes, StoreCodes, SavedCodes;
    RenameCrash(f);
    var n := t.arity(id);
    if |d.stack| >= n {
      var vs := Rev(d.stack[..n]);
      RenameOperands(f, d.stack, n);
      DataCodesAre(d);
      assert OneToOne(f, AllCodes(vs) + StoreCodes(d.g));
      assert q(id, RenameAll(f, vs), RenameStore(f, d.g)) == RenameOut(f, q(id, vs, d.g));
      var out := q(id, vs, d.g);
      if out.Some? {
        RenameJoin(f, if t.unspecified(id) then [] else [out.value.v], d.stack[n..]);
      }
    }
  }

  lemma RenameOp(t: Table, q: TPrimitives, f: nat -> nat, op: Operation, d: Data)
    requires Blind(q) && OneToOne(f, DataCodes(d))
    ensures ExecOp(t, q, op, RenameData(f, d)) == RenameData(f, ExecOp(t, q, op, d))
  {
    hide Blind, OneToOne, DataCodes;
    match op
    case PushConstant(c) => RenamePush(f, TAtom(c), d);
    case PushStack(pos) => RenamePush(f, if pos < |d.stack| then d.stack[pos] else TAtom(NIL), d);
    case PushGlobal(k) => RenamePush(f, if k in d.g then d.g[k] else TAtom(NIL), d);
    case SetGlobal(k) => RenamePush(f, Top(d), d);
    case Prim(id) => RenamePrim(t, q, f, id, d);
    case Pop => RenamePush(f, TAtom(NIL), d);
    case Entry(_, _) =>
  }

  lemma RenameCall(f: nat -> nat, n: nat, d: Data)
    requires |d.stack| > n && d.stack[0].TClosure?
    ensures var e := RenameData(f, d);
      CalleeStack(n, e) == RenameAll(f, CalleeStack(n, d)) && e.stack[n + 1..] == RenameAll(f, d.stack[n + 1..])
  {
    RenamePart(f, d.stack, 1, n + 1);
    RenameTail(f, d.stack, n + 1);
    RenameRev(f, d.stack[1..n + 1]);
    RenameJoin(f, Rev(d.stack[1..n + 1]), d.stack[0].env);
    var e := RenameData(f, d);
    assert e.stack[0].env == RenameAll(f, d.stack[0].env);
  }

  lemma SavedFront(f: nat -> nat, s: seq<TValue>, saved: seq<seq<TValue>>)
    ensures RenameSaved(f, [s] + saved) == [RenameAll(f, s)] + RenameSaved(f, saved)
    ensures saved != [] ==> RenameSaved(f, saved[1..]) == RenameSaved(f, saved)[1..]
  {}

  lemma RenameNot(t: Table, q: TPrimitives, f: nat -> nat, d: Data)
    ensures Exec(t, q, Not, RenameData(f, d)) == RenameData(f, Exec(t, q, Not, d))
  {
    RenamePush(f, TAtom(1), d);
    RenamePush(f, TAtom(1), Drop(d));
    RenamePush(f, TAtom(FALSE), Drop(d));
  }

  lemma RenameMake(t: Table, q: TPrimitives, f: nat -> nat, l: nat, d: Data)
    ensures Exec(t, q, Instr.Closure(f(l)), RenameData(f, d)) == RenameData(f, Exec(t, q, Instr.Closure(l), d))
  {
    RenamePush(f, TAtom(NIL), d);
    RenameList(f, Top(d));
    RenameClosure(f, l, ListValues(Top(d)));
    RenamePush(f, TClosure(l, ListValues(Top(d))), Drop(d));
  }

  lemma RenameCalls(t: Table, q: TPrimitives, f: nat -> nat, n: nat, d: Data)
    ensures Exec(t, q, Instr.Call(n), RenameData(f, d)) == RenameData(f, Exec(t, q, Instr.Call(n), d))
    ensures Exec(t, q, Jump(n), RenameData(f, d)) == RenameData(f, Exec(t, q, Jump(n), d))
  {
    RenameCrash(f);
    if |d.stack| > n && d.stack[0].TClosure? {
      RenameCall(f, n, d);
      SavedFront(f, d.stack[n + 1..], d.saved);
    }
  }

  lemma RenameReturn(t: Table, q: TPrimitives, f: nat -> nat, d: Data)
    ensures Exec(t, q, Return, RenameData(f, d)) == RenameData(f, Exec(t, q, Return, d))
  {
    RenameCrash(f);
    if d.stack != [] && d.saved != [] {
      RenameJoin(f, [d.stack[0]], d.saved[0]);
      SavedFront(f, [], d.saved);
      assert RenameAll(f, [d.stack[0]]) == [RenameValue(f, d.stack[0])];
    }
  }

  /** A renamed instruction does to renamed data what the instruction does to data. */
  lemma RenameExec(t: Table, q: TPrimitives, f: nat -> nat, bbs: seq<Block>, i: Instr, d: Data)
    requires Blind(q) && OneToOne(f, DataCodes(d))
    requires forall l | l in i.Refs() :: l < |bbs| && f(l) == bbs[l].name
    ensures Exec(t, q, Fix(bbs, i), RenameData(f, d)) == RenameData(f, Exec(t, q, i, d))
  {
    hide Blind, OneToOne, DataCodes, ExecOp, RenameData, CalleeStack, ListValues;
    match i
    case Op(op) => RenameOp(t, q, f, op, d);
    case Not => RenameNot(t, q, f, d);
    case Closure(l) => assert l in i.Refs(); RenameMake(t, q, f, l, d);
    case Call(n) => RenameCalls(t, q, f, n, d);
    case Jump(n) => RenameCalls(t, q, f, n, d);
    case Return => RenameReturn(t, q, f, d);
    case CallToplevel(l) => assert l in i.Refs();
    case JumpToplevel(l) => assert l in i.Refs();
    case Goto(l) => assert l in i.Refs();
    case GotoIfFalse(a, b) => assert a in i.Refs() && b in i.Refs();
    case BranchIfFalse(l) => assert l in i.Refs();
  }

  lemma RenameClosure(f: nat -> nat, l: nat, env: seq<TValue>)
    ensures RenameValue(f, TClosure(l, env)) == TClosure(f(l), RenameAll(f, env))
  {}

  // ---- the back end's renaming

  /** The new name of each label. */
  function NewName(bbs: seq<Block>): nat -> nat {
    (l: nat) => if l < |bbs| then bbs[l].name else 0
  }

  /** Data of the program before and after. */
  ghost function Renames(bbs: seq<Block>, live: set<nat>): (Data, Data) -> bool {
    (d: Data, e: Data) => DataCodes(d) <= live && e == RenameData(NewName(bbs), d)
  }

  lemma NamesDistinct(bbs: seq<Block>, order: seq<nat>)
    requires Ordered(bbs, order)
    ensures OneToOne(NewName(bbs), Retained(order))
  {
    var f := NewName(bbs);
    forall a, b | a in Retained(order) && b in Retained(order) && f(a) == f(b) ensures a == b {
      var i :| 0 <= i < |order| && order[i] == a;
      var j :| 0 <= j < |order| && order[j] == b;
      assert bbs[order[i]].name == i && bbs[order[j]].name == j;
    }
  }

  lemma AlikeExec(t: Table, q: TPrimitives, bbs: seq<Block>, order: seq<nat>, i: Instr, d: Data)
    requires Honest(q) && Blind(q) && Ordered(bbs, order)
    requires DataCodes(d) <= Retained(order) && i.Refs() <= Retained(order)
    ensures forall l | l in i.Refs() :: l < |bbs|
    ensures DataCodes(Exec(t, q, i, d)) <= Retained(order)
    ensures Exec(t, q, Fix(bbs, i), RenameData(NewName(bbs), d)) == RenameData(NewName(bbs), Exec(t, q, i, d))
  {
    hide DataCodes, Exec, Honest, Blind, RenameData;
    forall l | l in i.Refs() ensures l < |bbs| {
      var k :| 0 <= k < |order| && order[k] == l;
    }
    NamesDistinct(bbs, order);
    ExecCodes(t, q, i, d);
    assert i.Closure? ==> i.dest in i.Refs();
    RenameExec(t, q, NewName(bbs), bbs, i, d);
  }

  lemma AlikeTests(t: Table, q: TPrimitives, bbs: seq<Block>, order: seq<nat>, d: Data)
    requires Ordered(bbs, order) && |order| > 0 && order[0] == 0 && DataCodes(d) <= Retained(order)
    ensures var w, e := StackMachine(t, q), RenameData(NewName(bbs), d);
      && w.truth(d) == w.truth(e) && RenameData(NewName(bbs), w.drop(d)) == w.drop(e)
        && DataCodes(w.drop(d)) <= DataCodes(d)
      && (w.callee(d) in w.labels(d) <==> w.callee(e) in w.labels(e))
      && (w.callee(d) in w.labels(d) ==> w.callee(d) < |bbs| && w.callee(e) == bbs[w.callee(d)].name)
  {
    var f := NewName(bbs);
    var e := RenameData(f, d);
    RenamePush(f, TAtom(NIL), d);
    PushDrop(TAtom(NIL), d);
    RenamedData(f, d);
    NamesDistinct(bbs, order);
    assert bbs[order[0]].name == 0 && 0 in Retained(order);
    if d.stack != [] && d.stack[0].TClosure? {
      TopLabel(d);
      var k :| 0 <= k < |order| && order[k] == d.stack[0].code;
    }
    hide DataCodes, Codes;
    assert f(0) == 0;
    if 0 in DataCodes(e) {
      var c :| c in DataCodes(d) && f(c) == 0;
      assert c == 0;
    }
  }

  lemma TopLabel(d: Data)
    requires d.stack != [] && d.stack[0].TClosure?
    ensures d.stack[0].code in DataCodes(d)
  {
    assert d.stack[0].code in Codes(d.stack[0]);
    assert d.stack[0].code in AllCodes(d.stack);
  }

  /** So the back end's renaming makes no difference to the machine of generated code. */
  lemma MachineAlike(t: Table, q: TPrimitives, bbs: seq<Block>, order: seq<nat>)
    requires Honest(q) && Blind(q) && Ordered(bbs, order) && |order| > 0 && order[0] == 0
    ensures Alike(StackMachine(t, q), bbs, Retained(order), Renames(bbs, Retained(order)))
  {
    hide DataCodes, Exec, Honest, Blind, RenameData, Drop;
    var w, live := StackMachine(t, q), Retained(order);
    var rel := Renames(bbs, live);
    forall i: Instr, d, e | rel(d, e) && i.Refs() <= live
      ensures (forall l | l in i.Refs() :: l < |bbs|) && rel(w.exec(i, d), w.exec(Fix(bbs, i), e))
    {
      AlikeExec(t, q, bbs, order, i, d);
    }
    forall d, e | rel(d, e)
      ensures w.truth(d) == w.truth(e) && rel(w.drop(d), w.drop(e))
      ensures w.callee(d) in w.labels(d) <==> w.callee(e) in w.labels(e)
      ensures w.callee(d) in w.labels(d) ==> w.callee(d) in live && w.callee(e) == bbs[w.callee(d)].name
    {
      AlikeTests(t, q, bbs, order, d);
    }
  }

  // ---- the conditions on primitives can be met

  /** cons, car, pair? and eq? on constants: primitives of the source language, */
  function SourceLists(id: nat, vs: seq<Value>, g: Store): Option<Out> {
    if id == 0 && |vs| == 2 then Some(Out(Pair(vs[0], vs[1]), g))
    else if id == 1 && |vs| == 1 && vs[0].Pair? then Some(Out(vs[0].a, g))
    else if id == 2 && |vs| == 1 then Some(Out(Atom(if vs[0].Pair? then 1 else FALSE), g))
    else if id == 3 && |vs| == 2 && vs[0].Atom? && vs[1].Atom? then
      Some(Out(Atom(if vs[0] == vs[1] then 1 else FALSE), g))
    else None
  }

  /** and of the machine. */
  function TargetLists(id: nat, vs: seq<TValue>, g: TStore): Option<TOut> {
    if id == 0 && |vs| == 2 then Some(TOut(TPair(vs[0], vs[1]), g))
    else if id == 1 && |vs| == 1 && vs[0].TPair? then Some(TOut(vs[0].a, g))
    else if id == 2 && |vs| == 1 then Some(TOut(TAtom(if vs[0].TPair? then 1 else FALSE), g))
    else if id == 3 && |vs| == 2 && vs[0].TAtom? && vs[1].TAtom? then
      Some(TOut(TAtom(if vs[0] == vs[1] then 1 else FALSE), g))
    else None
  }

  lemma ListPrimitives(t: Table, p: seq<Block>)
    requires HasCons(t)
    ensures Faithful(Setup(t, SourceLists, TargetLists, p)) && Honest(TargetLists) && Blind(TargetLists)
  {
    var m := Setup(t, SourceLists, TargetLists, p);
    forall id, vs, g, ws, h | RelAll(m, vs, ws) && RelStore(m, g, h) && m.s(id, vs, g).Some?
      ensures PrimAlike(m, id, vs, g, ws, h)
    {
      assert forall i | 0 <= i < |vs| :: Rel(m, vs[i], ws[i]);
    }
    forall id, vs, g | TargetLists(id, vs, g).Some?
      ensures var out := TargetLists(id, vs, g).value; Codes(out.v) + StoreCodes(out.g) <= AllCodes(vs) + StoreCodes(g)
    {
      assert forall i | 0 <= i < |vs| :: Codes(vs[i]) <= AllCodes(vs);
    }
    forall f: nat -> nat, id, vs, g
      ensures TargetLists(id, RenameAll(f, vs), RenameStore(f, g)) == RenameOut(f, TargetLists(id, vs, g))
    {}
  }
}
