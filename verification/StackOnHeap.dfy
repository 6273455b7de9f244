/** The stack machine of generated code and the heap machine of the interpreter: a call and a return of the
    one are a call and a return of the other (main/interpreter.c, main/primitives-control.c). */
module StackOnHeap {
  import opened Calling
  import opened Cells
  import opened Environments
  import opened Memory
  import opened Wrappers
  import Blocks
  import Execution
  import Source

  type Value = Execution.TValue

  /** The words of constants, and where the code of each block starts. */
  datatype Coding = Coding(atom: int -> Word, entry: nat -> Word)

  /** What word w stands for in heap h: pairs are pairs, and a closure keeps its values in a list. */
  ghost predicate Stands(k: Coding, h: seq<Cell>, w: Word, v: Value)
    decreases v
  {
    match v
    case TAtom(c) => w == k.atom(c) && w >= |h|
    case TPair(a, d) => w < |h| && h[w].typ == CONS && Stands(k, h, h[w].car, a) && Stands(k, h, h[w].cdr, d)
    case TClosure(code, env) =>
      && w < |h| && h[w].typ == CLOSURE && h[w].cdr == k.entry(code)
      && exists cells ::
           && Chain(h, h[w].car, cells, NIL) && Inside(h, cells) && |cells| == |env|
           && forall i | 0 <= i < |env| :: Stands(k, h, h[cells[i]].car, env[i])
  }

  /** These cells hold these values. */
  ghost predicate Row(k: Coding, h: seq<Cell>, cells: seq<Word>, vs: seq<Value>) {
    && |cells| == |vs| && Inside(h, cells)
    && forall i | 0 <= i < |vs| :: Stands(k, h, h[cells[i]].car, vs[i])
  }

  /** From p on there is a list of these values. */
  ghost predicate Listed(k: Coding, h: seq<Cell>, p: Word, vs: seq<Value>) {
    exists cells :: Chain(h, p, cells, NIL) && Row(k, h, cells, vs)
  }

  /** The continuations from c on keep these stacks and return addresses. */
  ghost predicate Frames(k: Coding, h: seq<Cell>, c: Word, saved: seq<seq<Value>>, codes: seq<Word>)
    decreases |saved|
  {
    |saved| == |codes| &&
    if saved == [] then c == NIL
    else
      && c < |h| && h[c].typ == CONTINUATION && h[c].cdr < |h| && h[h[c].cdr].typ == CLOSURE
      && h[h[c].cdr].cdr == codes[0] && Listed(k, h, h[h[c].cdr].car, saved[0])
      && Frames(k, h, h[c].car, saved[1..], codes[1..])
  }

  /** Global i is in one half of cell i / 2. */
  ghost predicate Globals(k: Coding, h: seq<Cell>, reserved: nat, g: Execution.TStore) {
    forall i | i in g ::
      && i / 2 < reserved <= |h| && h[i / 2].typ == CONS
      && Stands(k, h, if i % 2 == 1 then h[i / 2].car else h[i / 2].cdr, g[i])
  }

  /** The interpreter's registers and memory hold the data of the stack machine. */
  ghost predicate Holds(k: Coding, z: Interpreter, d: Execution.Data, codes: seq<Word>)
    reads z.m, z.m.ram
  {
    && z.m.Valid() && Listed(k, z.m.ram[..], z.m.env, d.stack)
    && Frames(k, z.m.ram[..], z.m.cont, d.saved, codes) && Globals(k, z.m.ram[..], z.m.reserved, d.g)
  }

  ghost predicate Unmarked(h: seq<Cell>) {
    forall i | 0 <= i < |h| :: !h[i].mark
  }

  /** Heap g has what keep has in h, and links do not lead out of keep. */
  ghost predicate Keeps(h: seq<Cell>, g: seq<Cell>, keep: set<int>) {
    |g| == |h| && Unmarked(h) && Closed(h, keep) && forall i | i in keep :: g[i] == h[i]
  }

  ghost predicate In(h: seq<Cell>, keep: set<int>, w: Word) {
    w < |h| ==> w in keep
  }

  lemma LinkKept(h: seq<Cell>, g: seq<Cell>, keep: set<int>, w: Word, q: Word)
    requires Keeps(h, g, keep) && w in keep && q in h[w].Links()
    ensures In(h, keep, q)
  {
    assert q < |h| ==> Open(h, q);
  }

  /** A chain of cells in keep, and the cars of its cells. */
  lemma ChainKept(h: seq<Cell>, g: seq<Cell>, keep: set<int>, p: Word, cells: seq<Word>, end: Word)
    requires Keeps(h, g, keep) && Chain(h, p, cells, end) && In(h, keep, p)
    ensures Chain(g, p, cells, end) && In(h, keep, end)
    ensures forall c | c in cells :: c < |h| && c in keep && g[c] == h[c] && In(h, keep, h[c].car)
  {
    ChainCells(h, p, cells, end);
    ChainLive(h, keep, p, cells, end);
    ChainFrame(h, g, p, cells, end);
    forall c | c in cells ensures In(h, keep, h[c].car) {
      LinkKept(h, g, keep, c, h[c].car);
    }
  }

  lemma {:induction false} StandsKept(k: Coding, h: seq<Cell>, g: seq<Cell>, keep: set<int>, w: Word, v: Value)
    requires Keeps(h, g, keep) && Stands(k, h, w, v) && In(h, keep, w)
    ensures Stands(k, g, w, v)
    decreases v
  {
    match v
    case TAtom(_) =>
    case TPair(a, d) =>
      LinkKept(h, g, keep, w, h[w].car);
      LinkKept(h, g, keep, w, h[w].cdr);
      StandsKept(k, h, g, keep, h[w].car, a);
      StandsKept(k, h, g, keep, h[w].cdr, d);
    case TClosure(code, env) =>
      LinkKept(h, g, keep, w, h[w].car);
      var cells :| Chain(h, h[w].car, cells, NIL) && Inside(h, cells) && |cells| == |env|
        && forall i | 0 <= i < |env| :: Stands(k, h, h[cells[i]].car, env[i]);
      ChainKept(h, g, keep, h[w].car, cells, NIL);
      forall i | 0 <= i < |env| ensures Stands(k, g, g[cells[i]].car, env[i]) {
        assert cells[i] in cells;
        StandsKept(k, h, g, keep, h[cells[i]].car, env[i]);
      }
  }

  lemma RowKept(k: Coding, h: seq<Cell>, g: seq<Cell>, keep: set<int>, p: Word, cells: seq<Word>, vs: seq<Value>)
    requires Keeps(h, g, keep) && Chain(h, p, cells, NIL) && Row(k, h, cells, vs) && In(h, keep, p)
    ensures Chain(g, p, cells, NIL) && Row(k, g, cells, vs)
  {
    hide Keeps, Stands;
    KeepsSize(h, g, keep);
    ChainKept(h, g, keep, p, cells, NIL);
    forall i | 0 <= i < |vs| ensures Stands(k, g, g[cells[i]].car, vs[i]) {
      assert cells[i] in cells;
      StandsKept(k, h, g, keep, h[cells[i]].car, vs[i]);
    }
  }

  lemma KeepsSize(h: seq<Cell>, g: seq<Cell>, keep: set<int>)
    requires Keeps(h, g, keep)
    ensures |g| == |h|
  {}

  lemma ListedKept(k: Coding, h: seq<Cell>, g: seq<Cell>, keep: set<int>, p: Word, vs: seq<Value>)
    requires Keeps(h, g, keep) && Listed(k, h, p, vs) && In(h, keep, p)
    ensures Listed(k, g, p, vs)
  {
    hide Keeps, Stands;
    var cells :| Chain(h, p, cells, NIL) && Row(k, h, cells, vs);
    RowKept(k, h, g, keep, p, cells, vs);
  }

  lemma {:induction false} FramesKept(k: Coding, h: seq<Cell>, g: seq<Cell>, keep: set<int>, c: Word,
                                      saved: seq<seq<Value>>, codes: seq<Word>)
    requires Keeps(h, g, keep) && Frames(k, h, c, saved, codes) && In(h, keep, c)
    ensures Frames(k, g, c, saved, codes)
    decreases |saved|
  {
    hide Listed;
    if saved != [] {
      var r := h[c].cdr;
      LinkKept(h, g, keep, c, r);
      LinkKept(h, g, keep, c, h[c].car);
      LinkKept(h, g, keep, r, h[r].car);
      ListedKept(k, h, g, keep, h[r].car, saved[0]);
      FramesKept(k, h, g, keep, h[c].car, saved[1..], codes[1..]);
    }
  }

  lemma GlobalsKept(k: Coding, h: seq<Cell>, g: seq<Cell>, keep: set<int>, reserved: nat, store: Execution.TStore)
    requires Keeps(h, g, keep) && Globals(k, h, reserved, store) && forall i | 0 <= i < reserved :: i in keep
    requires |h| <= ROM_START
    ensures Globals(k, g, reserved, store)
  {
    forall i | i in store
      ensures g[i / 2] == h[i / 2] && Stands(k, g, if i % 2 == 1 then g[i / 2].car else g[i / 2].cdr, store[i])
    {
      var c: Word := i / 2;
      var w := if i % 2 == 1 then h[c].car else h[c].cdr;
      LinkKept(h, g, keep, c, w);
      StandsKept(k, h, g, keep, w, store[i]);
    }
  }

  // ---- calls

  /** The list of a closure's values. */
  lemma ClosureRow(k: Coding, h: seq<Cell>, g: seq<Cell>, keep: set<int>, w: Word, v: Value) returns (cells: seq<Word>)
    requires Keeps(h, g, keep) && Stands(k, h, w, v) && v.TClosure? && In(h, keep, h[w].car)
    ensures Chain(g, h[w].car, cells, NIL) && Row(k, g, cells, v.env)
  {
    cells :| Chain(h, h[w].car, cells, NIL) && Inside(h, cells) && |cells| == |v.env|
      && forall i | 0 <= i < |v.env| :: Stands(k, h, h[cells[i]].car, v.env[i]);
    hide Keeps;
    RowKept(k, h, g, keep, h[w].car, cells, v.env);
  }

  /** The callee's environment holds the callee's stack. */
  lemma CalleeListed(k: Coding, h: seq<Cell>, g: seq<Cell>, keep: set<int>, stack: seq<Word>, d: Execution.Data, n: nat,
                     p: Word)
    requires Keeps(h, g, keep) && Row(k, h, stack, d.stack) && |d.stack| > n && d.stack[0].TClosure?
    requires h[stack[0]].car < |h| && var closure := h[h[stack[0]].car];
      In(h, keep, closure.car) && Environment(g, p, Args(h, stack[1..1 + n]), None, closure.car)
    requires forall i | 1 <= i <= n :: In(h, keep, h[stack[i]].car)
    ensures Listed(k, g, p, Execution.CalleeStack(n, d))
  {
    hide Keeps, Stands, Args, Chain, Values, In;
    var w, args := h[stack[0]].car, Args(h, stack[1..1 + n]);
    var cells2 := ClosureRow(k, h, g, keep, w, d.stack[0]);
    var cells1 :| Chain(g, p, cells1, h[w].car) && Inside(g, cells1) && Values(g, cells1) == args;
    ChainJoin(g, p, cells1, h[w].car, cells2, NIL);
    ArgsRow(k, h, g, keep, stack, d, n, cells1);
    RowJoin(k, g, cells1, Rev(d.stack[1..n + 1]), cells2, d.stack[0].env);
  }

  lemma RowJoin(k: Coding, g: seq<Cell>, a: seq<Word>, vs: seq<Value>, b: seq<Word>, ws: seq<Value>)
    requires Row(k, g, a, vs) && Row(k, g, b, ws)
    ensures Row(k, g, a + b, vs + ws)
  {
    hide Stands;
  }

  /** The arguments, first one first. */
  lemma ArgsRow(k: Coding, h: seq<Cell>, g: seq<Cell>, keep: set<int>, stack: seq<Word>, d: Execution.Data, n: nat,
                cells: seq<Word>)
    requires Keeps(h, g, keep) && Row(k, h, stack, d.stack) && |d.stack| > n
    requires Inside(g, cells) && Values(g, cells) == Args(h, stack[1..1 + n])
    requires forall i | 1 <= i <= n :: In(h, keep, h[stack[i]].car)
    ensures Row(k, g, cells, Rev(d.stack[1..n + 1]))
  {
    hide Stands, Keeps;
    ArgsAre(h, stack, n);
    var vs := d.stack[1..n + 1];
    assert |Values(g, cells)| == n;
    RevSize(vs);
    forall j | 0 <= j < n ensures Stands(k, g, g[cells[j]].car, Rev(vs)[j]) {
      RevAt(vs, j);
      var i := n - j;
      assert Args(h, stack[1..1 + n])[n - i] == h[stack[i]].car;
      StandsKept(k, h, g, keep, h[stack[i]].car, d.stack[i]);
    }
  }

  lemma RevSize(vs: seq<Value>)
    ensures |Rev(vs)| == |vs|
  {}

  /** All that Holds says, after a call. */
  lemma CalleeHolds(k: Coding, h: seq<Cell>, g: seq<Cell>, keep: set<int>, stack: seq<Word>, d: Execution.Data, n: nat,
                    parent: Word, cont: Word, below: Word, pc: Word, codes: seq<Word>, reserved: nat)
    requires Keeps(h, g, keep) && |h| <= ROM_START && Row(k, h, stack, d.stack) && |d.stack| > n
    requires Chain(h, below, stack[1 + n..], NIL) && In(h, keep, below) && In(h, keep, parent)
    requires Frames(k, h, parent, d.saved, codes) && Globals(k, h, reserved, d.g)
    requires forall i | 0 <= i < reserved :: i in keep
    requires cont < |g| && g[cont].typ == CONTINUATION && g[cont].car == parent && g[cont].cdr < |g|
    requires var r := g[g[cont].cdr]; r.typ == CLOSURE && r.car == below && r.cdr == pc
    ensures Frames(k, g, cont, [d.stack[n + 1..]] + d.saved, [pc] + codes) && Globals(k, g, reserved, d.g)
  {
    hide Keeps, Stands, Chain;
    BelowRow(k, h, stack, d.stack, 1 + n);
    ListedKept(k, h, g, keep, below, d.stack[n + 1..]);
    FramesKept(k, h, g, keep, parent, d.saved, codes);
    GlobalsKept(k, h, g, keep, reserved, d.g);
    var saved, all := [d.stack[n + 1..]] + d.saved, [pc] + codes;
    assert saved[1..] == d.saved && all[1..] == codes;
  }

  lemma BelowRow(k: Coding, h: seq<Cell>, stack: seq<Word>, vs: seq<Value>, n: nat)
    requires Row(k, h, stack, vs) && n <= |vs|
    ensures Row(k, h, stack[n..], vs[n..])
  {
    hide Stands;
  }

  /** The roots of a call, one by one. */
  lemma RootsKept(z: Interpreter, stack: seq<Word>, n: nat)
    requires z.m.Valid() && 1 + n <= |stack| && Inside(z.m.ram[..], stack) && z.TopOf(stack) < z.m.ram.Length
    ensures var h := z.m.ram[..];
      var keep := Reach(h, z.CallRoots(stack, n));
      && Closed(h, keep) && Unmarked(h) && |h| <= ROM_START && (forall i | i in keep :: 0 <= i < |h|)
      && (forall i | 0 <= i < z.m.reserved :: i in keep)
      && In(h, keep, z.m.cont) && In(h, keep, h[z.TopOf(stack)].car)
      && (forall i | 1 <= i <= n :: In(h, keep, h[stack[i]].car)) && (forall i | n < i < |stack| :: stack[i] in keep)
  {
    hide Reach;
    z.ValidShaped();
    var h, roots := z.m.ram[..], z.CallRoots(stack, n);
    ReachClosed(h, roots);
    forall w: Word | w in roots ensures In(h, Reach(h, roots), w) {
      assert w < |h| ==> Open(h, w);
    }
    forall i | 0 <= i < z.m.reserved ensures i in Reach(h, roots) {
      assert i in z.m.Globals() && Open(h, i);
    }
    forall i | n < i < |stack| ensures stack[i] in Reach(h, roots) {
      assert stack[i] as int in roots;
    }
    forall i | 1 <= i <= n ensures In(h, Reach(h, roots), h[stack[i]].car) {
      assert h[stack[i]].car as int in roots;
    }
  }

  /** CALLC: the interpreter's call of a closure is the stack machine's, where the argument cells are the
      stack's own. */
  method Call(z: Interpreter, n: nat, ghost k: Coding, ghost t: Source.Table, ghost q: Execution.TPrimitives,
              ghost d: Execution.Data, ghost codes: seq<Word>, ghost stack: seq<Word>)
      returns (ok: bool)
    requires Holds(k, z, d, codes) && z.Stack(stack) && Row(k, z.m.ram[..], stack, d.stack)
    requires |d.stack| > n && d.stack[0].TClosure? && n < 16 && z.pc < 0x10000
    requires var e := k.entry(d.stack[0].code); e < |z.program| && z.program[e] == n
    requires z.m.reserved <= z.TopOf(stack) < z.m.ram.Length && z.StackOwns(stack, n)
    modifies z, z.m, z.m.ram
    ensures !ok ==> z.m.Full()
    ensures ok ==> z.pc == k.entry(d.stack[0].code) + 1
    ensures ok ==> Holds(k, z, Execution.Exec(t, q, Blocks.Call(n), d), [old(z.pc)] + codes)
  {
    hide Reach, Machine.Valid, Machine.Full, Interpreter.StackOwns, Interpreter.CallRoots;
    hide Chain, Frames, Globals, Environment, Stands, Row, Keeps, Closed, Unmarked, Execution.CalleeStack, In;
    ghost var h, parent, pc := z.m.ram[..], z.m.cont, z.pc;
    TopStands(k, h, stack, d.stack);
    ghost var keep := Reach(h, z.CallRoots(stack, n));
    RootsKept(z, stack, n);
    SuffixChain(h, z.m.env, stack, 1 + n);
    BelowIn(z, h, keep, stack, n);
    ok := z.CallClosure(n, stack);
    if ok {
      KeepsAfter(h, z.m.ram[..], keep);
      CalleeListed(k, h, z.m.ram[..], keep, stack, d, n, z.m.env);
      CalleeHolds(k, h, z.m.ram[..], keep, stack, d, n, parent, z.m.cont, z.Below(stack, 1 + n), pc, codes,
                  z.m.reserved);
    }
  }

  /** JUMPC, likewise. */
  method Jump(z: Interpreter, n: nat, ghost k: Coding, ghost t: Source.Table, ghost q: Execution.TPrimitives,
              ghost d: Execution.Data, ghost codes: seq<Word>, ghost stack: seq<Word>)
    requires Holds(k, z, d, codes) && z.Stack(stack) && Row(k, z.m.ram[..], stack, d.stack)
    requires |d.stack| > n && d.stack[0].TClosure? && n < 16
    requires var e := k.entry(d.stack[0].code); e < |z.program| && z.program[e] == n
    requires z.m.reserved <= z.TopOf(stack) < z.m.ram.Length && z.StackOwns(stack, n)
    modifies z, z.m, z.m.ram
    ensures z.pc == k.entry(d.stack[0].code) + 1
    ensures Holds(k, z, Execution.Exec(t, q, Blocks.Jump(n), d), codes)
  {
    hide Reach, Machine.Valid, Interpreter.StackOwns, Interpreter.CallRoots;
    hide Chain, Frames, Globals, Environment, Stands, Row, Keeps, Closed, Unmarked, Execution.CalleeStack, In;
    ghost var h, parent := z.m.ram[..], z.m.cont;
    TopStands(k, h, stack, d.stack);
    ghost var keep := Reach(h, z.CallRoots(stack, n));
    RootsKept(z, stack, n);
    OwnedApart(z, stack, n);
    var ok := z.JumpClosure(n, stack);
    KeepsAfter(h, z.m.ram[..], keep);
    CalleeListed(k, h, z.m.ram[..], keep, stack, d, n, z.m.env);
    FramesKept(k, h, z.m.ram[..], keep, parent, d.saved, codes);
    GlobalsKept(k, h, z.m.ram[..], keep, z.m.reserved, d.g);
  }

  lemma OwnedApart(z: Interpreter, stack: seq<Word>, n: nat)
    requires 1 + n <= |stack| && Inside(z.m.ram[..], stack) && z.TopOf(stack) < z.m.ram.Length && z.StackOwns(stack, n)
    ensures forall i | i in Reach(z.m.ram[..], z.CallRoots(stack, n)) :: i !in stack[..1 + n]
  {
    hide Reach;
  }

  lemma TopStands(k: Coding, h: seq<Cell>, stack: seq<Word>, vs: seq<Value>)
    requires Row(k, h, stack, vs) && vs != [] && vs[0].TClosure?
    ensures |stack| == |vs| && Inside(h, stack)
    ensures var w := h[stack[0]].car; w < |h| && h[w].typ == CLOSURE && h[w].cdr == k.entry(vs[0].code)
  {
    assert Stands(k, h, h[stack[0]].car, vs[0]);
  }

  lemma KeepsAfter(h: seq<Cell>, g: seq<Cell>, keep: set<int>)
    requires Closed(h, keep) && Unmarked(h) && |g| == |h| && forall i | i in keep :: g[i] == h[i]
    ensures Keeps(h, g, keep)
  {}

  lemma SuffixChain(h: seq<Cell>, p: Word, stack: seq<Word>, n: nat)
    requires Chain(h, p, stack, NIL) && n <= |stack|
    ensures Chain(h, if n == |stack| then NIL else stack[n], stack[n..], NIL)
  {
    if n < |stack| {
      ChainFrom(h, p, stack, NIL, n);
    }
  }

  lemma BelowIn(z: Interpreter, h: seq<Cell>, keep: set<int>, stack: seq<Word>, n: nat)
    requires 1 + n <= |stack| && |h| <= NIL && forall i | n < i < |stack| :: stack[i] in keep
    ensures In(h, keep, z.Below(stack, 1 + n))
  {}

  // ---- returns

  /** The roots of a return, one by one. */
  lemma ReturnRootsKept(z: Interpreter, env: Word, parent: Word)
    requires z.m.Valid() && z.m.env < z.m.ram.Length
    ensures var h := z.m.ram[..];
      var keep := Reach(h, z.ReturnRoots(env, parent));
      && Closed(h, keep) && Unmarked(h) && |h| <= ROM_START && (forall i | i in keep :: 0 <= i < |h|)
      && (forall i | 0 <= i < z.m.reserved :: i in keep)
      && In(h, keep, h[z.m.env].car) && In(h, keep, env) && In(h, keep, parent)
  {
    hide Reach;
    z.ValidShaped();
    var h, roots := z.m.ram[..], z.ReturnRoots(env, parent);
    ReachClosed(h, roots);
    forall w: Word | w in roots ensures In(h, Reach(h, roots), w) {
      assert w < |h| ==> Open(h, w);
    }
    forall i | 0 <= i < z.m.reserved ensures i in Reach(h, roots) {
      assert i in z.m.Globals() && Open(h, i);
    }
  }

  /** The result in front of the caller's stack. */
  lemma ResultListed(k: Coding, h: seq<Cell>, g: seq<Cell>, keep: set<int>, w: Word, p: Word, env: Word, v: Value,
                     below: seq<Word>, vs: seq<Value>)
    requires Keeps(h, g, keep) && Chain(h, env, below, NIL) && Row(k, h, below, vs) && In(h, keep, env)
    requires Stands(k, h, w, v) && In(h, keep, w)
    requires Chain(g, p, [p] + below, NIL) && p < |g| && g[p].car == w
    ensures Listed(k, g, p, [v] + vs)
  {
    hide Keeps, Stands, Chain;
    StandsKept(k, h, g, keep, w, v);
    RowKept(k, h, g, keep, env, below, vs);
    assert Row(k, g, [p], [v]);
    RowJoin(k, g, [p], [v], below, vs);
  }

  lemma ChainHead(g: seq<Cell>, p: Word, below: seq<Word>)
    requires Chain(g, p, [p] + below, NIL)
    ensures p < |g|
  {}

  lemma TopListed(k: Coding, h: seq<Cell>, p: Word, vs: seq<Value>)
    requires Listed(k, h, p, vs) && vs != []
    ensures p < |h| && h[p].typ == CONS && Stands(k, h, h[p].car, vs[0])
  {
    hide Stands;
    var cells :| Chain(h, p, cells, NIL) && Row(k, h, cells, vs);
    assert cells[0] == p;
  }

  /** return: the interpreter's return is the stack machine's, where nothing but the stack leads to the cell
      of the result. */
  method Return(z: Interpreter, ghost k: Coding, ghost t: Source.Table, ghost q: Execution.TPrimitives,
                ghost d: Execution.Data, ghost codes: seq<Word>)
    requires Holds(k, z, d, codes) && d.stack != [] && d.saved != []
    requires z.m.reserved <= z.m.env < z.m.ram.Length && z.m.env !in z.Popped()
    modifies z, z.m, z.m.ram
    ensures z.pc == codes[0] && Holds(k, z, Execution.Exec(t, q, Blocks.Return, d), codes[1..])
  {
    hide Reach, Machine.Valid, Interpreter.ReturnRoots, Interpreter.Popped;
    hide Chain, Globals, Stands, Row, Keeps, Closed, Unmarked, In;
    ghost var h, top := z.m.ram[..], z.m.env;
    ghost var parent, r := h[z.m.cont].car, h[z.m.cont].cdr;
    ghost var env := h[r].car;
    ghost var below :| Chain(h, env, below, NIL) && Row(k, h, below, d.saved[0]);
    ghost var keep := Reach(h, z.ReturnRoots(env, parent));
    TopListed(k, h, top, d.stack);
    ReturnRootsKept(z, env, parent);
    z.Return(env, codes[0], parent, below);
    KeepsAfter(h, z.m.ram[..], keep);
    ChainHead(z.m.ram[..], z.m.env, below);
    ResultListed(k, h, z.m.ram[..], keep, h[top].car, z.m.env, env, d.stack[0], below, d.saved[0]);
    FramesKept(k, h, z.m.ram[..], keep, parent, d.saved[1..], codes[1..]);
    GlobalsKept(k, h, z.m.ram[..], keep, z.m.reserved, d.g);
  }

  // ---- pushes

  lemma LiveKept(z: Interpreter)
    requires z.m.Valid()
    ensures var h, live := z.m.ram[..], z.m.Live();
      && Closed(h, live) && Unmarked(h) && |h| <= ROM_START && (forall i | 0 <= i < z.m.reserved :: i in live)
      && In(h, live, z.m.reg1) && In(h, live, z.m.env) && In(h, live, z.m.cont)
  {
    z.ValidShaped();
    z.m.KeptLive();
  }

  /** A value in reg1 is pushed: what every instruction that pushes ends with. */
  method Push(z: Interpreter, ghost k: Coding, ghost d: Execution.Data, ghost codes: seq<Word>, ghost v: Value)
      returns (ok: bool)
    requires Holds(k, z, d, codes) && Stands(k, z.m.ram[..], z.m.reg1, v)
    modifies z.m, z.m.ram
    ensures !ok ==> z.m.Full()
    ensures ok ==> Holds(k, z, Execution.Push(v, d), codes)
  {
    hide Reach, Machine.Valid, Machine.Full, Machine.Live;
    hide Chain, Frames, Globals, Stands, Row, Keeps, Closed, Unmarked, In;
    ghost var h, live, w, env, cont := z.m.ram[..], z.m.Live(), z.m.reg1, z.m.env, z.m.cont;
    ghost var below :| Chain(h, env, below, NIL) && Row(k, h, below, d.stack);
    LiveKept(z);
    ok := z.PushResult(below);
    if ok {
      KeepsAfter(h, z.m.ram[..], live);
      ChainHead(z.m.ram[..], z.m.env, below);
      ResultListed(k, h, z.m.ram[..], live, w, z.m.env, env, v, below, d.stack);
      FramesKept(k, h, z.m.ram[..], live, cont, d.saved, codes);
      GlobalsKept(k, h, z.m.ram[..], live, z.m.reserved, d.g);
    }
  }
}
