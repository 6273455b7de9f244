/** The machine of generated code is one that the back end's theorems speak about. */
module Lawfulness {
  import opened Blocks
  import opened Execution
  import opened Source
  import opened Wrappers

  ghost function StoreCodes(g: TStore): set<nat> {
    set k, c | k in g && c in Codes(g[k]) :: c
  }

  /** Primitives make no closures of their own. */
  ghost predicate Honest(q: TPrimitives) {
    forall id, vs, g | q(id, vs, g).Some? ::
      Codes(q(id, vs, g).value.v) + StoreCodes(q(id, vs, g).value.g) <= AllCodes(vs) + StoreCodes(g)
  }

  lemma CodesOf(vs: seq<TValue>, i: nat)
    requires i < |vs|
    ensures Codes(vs[i]) <= AllCodes(vs)
  {}

  lemma CodesPart(vs: seq<TValue>, i: nat, j: nat)
    requires i <= j <= |vs|
    ensures AllCodes(vs[i..j]) <= AllCodes(vs)
  {
    forall c | c in AllCodes(vs[i..j]) ensures c in AllCodes(vs) {
      var k :| 0 <= k < j - i && c in Codes(vs[i..j][k]);
      assert c in Codes(vs[i + k]);
    }
  }

  lemma CodesJoin(a: seq<TValue>, b: seq<TValue>)
    ensures AllCodes(a + b) == AllCodes(a) + AllCodes(b)
  {
    forall c ensures c in AllCodes(a + b) <==> c in AllCodes(a) + AllCodes(b) {
      if c in AllCodes(a) {
        var k :| 0 <= k < |a| && c in Codes(a[k]);
        assert (a + b)[k] == a[k];
      }
      if c in AllCodes(b) {
        var k :| 0 <= k < |b| && c in Codes(b[k]);
        assert (a + b)[|a| + k] == b[k];
      }
    }
  }

  lemma CodesOne(v: TValue)
    ensures AllCodes([v]) == Codes(v)
  {
    forall c | c in Codes(v) ensures c in AllCodes([v]) {
      assert c in Codes([v][0]);
    }
  }

  lemma {:induction false} CodesRev(vs: seq<TValue>)
    ensures AllCodes(Rev(vs)) == AllCodes(vs)
  {
    if vs != [] {
      CodesRev(vs[1..]);
      CodesJoin(Rev(vs[1..]), [vs[0]]);
      CodesJoin([vs[0]], vs[1..]);
      assert vs == [vs[0]] + vs[1..];
    }
  }

  lemma {:induction false} CodesList(v: TValue)
    ensures AllCodes(ListValues(v)) <= Codes(v)
  {
    if v.TPair? {
      CodesList(v.d);
      CodesJoin([v.a], ListValues(v.d));
      CodesOne(v.a);
    }
  }

  ghost function SavedCodes(saved: seq<seq<TValue>>): set<nat> {
    set i, c | 0 <= i < |saved| && c in AllCodes(saved[i]) :: c
  }

  lemma DataCodesAre(d: Data)
    ensures DataCodes(d) == AllCodes(d.stack) + SavedCodes(d.saved) + StoreCodes(d.g)
  {}

  lemma SavedJoin(s: seq<TValue>, saved: seq<seq<TValue>>)
    ensures SavedCodes([s] + saved) == AllCodes(s) + SavedCodes(saved)
  {
    forall c ensures c in SavedCodes([s] + saved) <==> c in AllCodes(s) + SavedCodes(saved) {
      if c in AllCodes(s) {
        assert c in AllCodes(([s] + saved)[0]);
      }
      if c in SavedCodes(saved) {
        var i :| 0 <= i < |saved| && c in AllCodes(saved[i]);
        assert ([s] + saved)[i + 1] == saved[i];
      }
    }
  }

  lemma PushDrop(v: TValue, d: Data)
    ensures DataCodes(Push(v, d)) == Codes(v) + DataCodes(d)
    ensures DataCodes(Drop(d)) <= DataCodes(d) && Codes(Top(d)) <= DataCodes(d)
  {
    CodesJoin([v], d.stack);
    CodesOne(v);
    if d.stack != [] {
      CodesPart(d.stack, 1, |d.stack|);
      CodesOf(d.stack, 0);
    }
  }

  lemma OpCodes(t: Table, q: TPrimitives, op: Operation, d: Data)
    requires Honest(q)
    ensures DataCodes(ExecOp(t, q, op, d)) <= DataCodes(d)
  {
    hide DataCodes, Codes, AllCodes, Honest;
    match op
    case PushConstant(c) => PushDrop(TAtom(c), d); AtomCodes(c);
    case PushStack(pos) =>
      AtomCodes(NIL);
      PushDrop(if pos < |d.stack| then d.stack[pos] else TAtom(NIL), d);
      if pos < |d.stack| {
        CodesOf(d.stack, pos);
        DataCodesAre(d);
      }
    case PushGlobal(k) =>
      AtomCodes(NIL);
      PushDrop(if k in d.g then d.g[k] else TAtom(NIL), d);
      GlobalCodes(k, d);
    case SetGlobal(k) =>
      PushDrop(Top(d), d);
      SetCodes(k, d);
    case Prim(id) => PrimCodes(t, q, id, d);
    case Pop => PushDrop(TAtom(NIL), d);
    case Entry(_, _) =>
  }

  lemma AtomCodes(c: int)
    ensures Codes(TAtom(c)) == {}
  {}

  lemma GlobalCodes(k: nat, d: Data)
    ensures k in d.g ==> Codes(d.g[k]) <= DataCodes(d)
  {}

  lemma SetCodes(k: nat, d: Data)
    ensures DataCodes(Drop(d).(g := d.g[k := Top(d)])) <= DataCodes(d)
  {
    PushDrop(Top(d), d);
    var e := Drop(d).(g := d.g[k := Top(d)]);
    DataCodesAre(e);
    DataCodesAre(d);
    DataCodesAre(Drop(d));
    forall c | c in StoreCodes(e.g) ensures c in DataCodes(d) {
      var x :| x in e.g && c in Codes(e.g[x]);
    }
  }

  lemma CrashCodes()
    ensures DataCodes(CRASH) == {}
  {}

  lemma PrimCodes(t: Table, q: TPrimitives, id: nat, d: Data)
    requires Honest(q)
    ensures DataCodes(ExecPrim(t, q, id, d)) <= DataCodes(d)
  {
    CrashCodes();
    var n := t.arity(id);
    if |d.stack| >= n && q(id, Rev(d.stack[..n]), d.g).Some? {
      var out := q(id, Rev(d.stack[..n]), d.g).value;
      CodesPart(d.stack, 0, n);
      CodesPart(d.stack, n, |d.stack|);
      CodesRev(d.stack[..n]);
      assert d.stack[0..n] == d.stack[..n] && d.stack[n..|d.stack|] == d.stack[n..];
      CodesOne(out.v);
      CodesJoin([out.v], d.stack[n..]);
      var e := ExecPrim(t, q, id, d);
      assert t.unspecified(id) ==> e.stack == d.stack[n..];
      DataCodesAre(e);
      DataCodesAre(d);
    }
  }

  lemma CallCodes(n: nat, d: Data)
    requires |d.stack| > n && d.stack[0].TClosure?
    ensures AllCodes(CalleeStack(n, d)) <= AllCodes(d.stack) && AllCodes(d.stack[n + 1..]) <= AllCodes(d.stack)
  {
    CodesPart(d.stack, 1, n + 1);
    CodesRev(d.stack[1..n + 1]);
    CodesPart(d.stack, n + 1, |d.stack|);
    CodesOf(d.stack, 0);
    CodesJoin(Rev(d.stack[1..n + 1]), d.stack[0].env);
    assert AllCodes(d.stack[0].env) <= Codes(d.stack[0]);
  }

  lemma ExecCodes(t: Table, q: TPrimitives, i: Instr, d: Data)
    requires Honest(q)
    ensures DataCodes(Exec(t, q, i, d)) <= DataCodes(d) + if i.Closure? then {i.dest} else {}
  {
    hide AllCodes, Honest;
    CrashCodes();
    var e := Exec(t, q, i, d);
    DataCodesAre(d);
    DataCodesAre(e);
    match i
    case Op(op) => OpCodes(t, q, op, d);
    case Not =>
      PushDrop(TAtom(1), Drop(d));
      PushDrop(TAtom(FALSE), Drop(d));
      PushDrop(TAtom(1), d);
    case Closure(l) =>
      PushDrop(TClosure(l, ListValues(Top(d))), Drop(d));
      PushDrop(TAtom(1), d);
      CodesList(Top(d));
      ClosureCodes(l, ListValues(Top(d)));
    case Call(n) =>
      if |d.stack| > n && d.stack[0].TClosure? {
        CallCodes(n, d);
        SavedJoin(d.stack[n + 1..], d.saved);
      }
    case Jump(n) =>
      if |d.stack| > n && d.stack[0].TClosure? {
        CallCodes(n, d);
      }
    case Return =>
      if d.stack != [] && d.saved != [] {
        CodesOne(d.stack[0]);
        CodesOf(d.stack, 0);
        CodesJoin([d.stack[0]], d.saved[0]);
        SavedJoin(d.saved[0], d.saved[1..]);
        assert d.saved == [d.saved[0]] + d.saved[1..];
      }
    case _ =>
  }

  lemma ClosureCodes(l: nat, env: seq<TValue>)
    ensures Codes(TClosure(l, env)) == {l} + AllCodes(env)
  {}

  /** Tests are negated by #%not, and closures only come from closure instructions. */
  lemma MachineLawful(t: Table, q: TPrimitives)
    requires Honest(q)
    ensures Lawful(StackMachine(t, q))
  {
    hide DataCodes, Honest;
    var w := StackMachine(t, q);
    forall d
      ensures w.truth(w.exec(Not, d)) == !w.truth(d) && w.drop(w.exec(Not, d)) == w.drop(d)
      ensures w.labels(w.drop(d)) <= w.labels(d)
    {
      PushDrop(TAtom(NIL), d);
      var e := Exec(t, q, Not, d);
      assert e.stack[1..] == Drop(d).stack;
    }
    forall i, d ensures w.labels(w.exec(i, d)) <= w.labels(d) + if i.Closure? then {i.dest} else {} {
      ExecCodes(t, q, i, d);
    }
  }
}
