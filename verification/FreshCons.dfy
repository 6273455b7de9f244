/** The simple forms of the loops that turn stack cells into lists, which the source keeps in comments:
    every argument is popped, and a new pair is made for it (main/interpreter.c). */
module FreshCons {
  import opened Calling
  import opened Cells
  import opened Environments
  import opened Memory
  import opened Wrappers

  /** The cell that is popped is the one that the next pair gets: taken together, the two steps relink it,
      and no collection can come between them. */
  method PopAndPair(m: Machine, list: Word, ghost live: set<int>) returns (p: Word, value: Word)
    requires m.Valid() && m.reserved <= m.env < m.ram.Length && m.ram[m.env].typ == CONS
    requires m.Kept(live) && m.env in live && m.Held(live, list)
    modifies m`env, m`freeCells, m`free, m`usedCells, m`freeCount, m.ram
    ensures p == old(m.env) && m.env == old(m.ram[m.env].cdr) && value == old(m.ram[m.env].car)
    ensures m.ram[..] == old(m.ram[..])[p := old(m.ram[m.env]).(cdr := list)]
    ensures m.free == old(m.free) && m.Shaped() && m.Kept(live)
  {
    hide Reach, Machine.Live, FreeList;
    ghost var h, head, free, top := m.ram[..], m.freeCells, m.free, m.ram[m.env];
    InUse(m);
    value := m.Pop();
    SameHead(m, m.free);
    var r := m.NewPair(value, list);
    p := r.value;
    assert m.ram[..] == h[p := top.(cdr := list)];
    assert m.free == ([p] + m.free)[1..] == ([p] + free)[1..] == free;
    SameHead(m, free);
    WriteLive(h, m.ram[..], m.reserved, head, free, live, p);
  }

  lemma InUse(m: Machine)
    requires m.Valid() && m.env < m.ram.Length
    ensures m.env < NIL && m.env !in m.free && FreeList(m.ram[..], m.reserved, m.freeCells, m.free)
    ensures forall i | 0 <= i < m.ram.Length :: !m.ram[i].mark && !m.ram[i].flip
  {
    m.EnvLive();
  }

  lemma SameHead(m: Machine, free: seq<Word>)
    requires m.Shaped() && m.free == free
    ensures m.freeCells == Next(free, 0)
  {}

  /** The registers of the machine after a step, with all they hold in live. */
  lemma StillValid(m: Machine, live: set<int>)
    requires m.Shaped() && m.Kept(live) && m.RegistersHeld(live)
    ensures m.Valid()
  {
    m.KeptValid(live);
  }

  /** The cells of the stack and their values are live. */
  lemma CarsHeld(m: Machine, live: set<int>, c: Word)
    requires m.Shaped() && m.Kept(live) && c in live && c < m.ram.Length && m.ram[c].typ == CONS
    ensures m.Held(live, c) && m.Held(live, m.ram[c].car) && m.Held(live, m.ram[c].cdr)
  {
    assert m.ram[c].car in m.ram[c].Links() && m.ram[c].cdr in m.ram[c].Links();
    assert m.ram[c].cdr < m.ram.Length ==> Open(m.ram[..], m.ram[c].cdr);
    assert m.ram[c].car < m.ram.Length ==> Open(m.ram[..], m.ram[c].car);
  }

  /** build_environment as its comments have it.  It leaves memory, stack and environment exactly as the
      relinking form does, cell for cell, and like it cannot run out of memory. */
  method BuildFresh(z: Interpreter, n: nat, ghost stack: seq<Word>)
    requires z.m.Valid() && z.Stack(stack) && n <= |stack|
    requires forall c | c in stack[..n] :: z.m.reserved <= c
    modifies z.m`env, z.m`reg1, z.m`reg3, z.m`freeCells, z.m`free, z.m`usedCells, z.m`freeCount, z.m.ram
    ensures z.m.Valid() && Relinked(old(z.m.ram[..]), z.m.ram[..], stack[..n])
    ensures Chain(z.m.ram[..], z.m.reg1, Rev<Word>(stack[..n]), old(z.m.reg1)) && z.Stack(stack[n..])
  {
    hide Chain, Machine.Kept, Machine.Shaped, Machine.Valid, Machine.Live, Built, Relinked, Machine.Held;
    var m := z.m;
    ghost var h, live, tail := m.ram[..], m.Live(), m.reg1;
    z.RegistersLive(stack);
    BuildStart(h, stack, m.env, tail);
    var k := 0;
    while k < n
      invariant 0 <= k <= n && m.Shaped() && m.Kept(live) && m.RegistersHeld(live)
      invariant Built(h, stack, k, m.ram[..], m.env, m.reg1, tail)
    {
      BuiltTop(h, stack, k, m.ram[..], m.env, m.reg1, tail);
      assert m.env == stack[k] && stack[k] in stack && stack[k] == stack[..n][k] && stack[k] in stack[..n];
      Relink(h, stack, k, m.ram[..], m.env, m.reg1, tail);
      StillValid(m, live);
      CarsHeld(m, live, m.env);
      var p, value := PopAndPair(m, m.reg1, live);
      m.reg3 := value;
      m.reg1 := p;
      k := k + 1;
    }
    BuiltTop(h, stack, n, m.ram[..], m.env, m.reg1, tail);
    BuiltDone(h, stack, n, m.ram[..], m.env, m.reg1, tail);
    StillValid(m, live);
  }

  /** The loop of prepare_arguments for surplus arguments, as its comment has it; what it leaves is what
      Interpreter.CollectRest leaves. */
  method CollectFresh(z: Interpreter, n: int, np: nat, ghost stack: seq<Word>) returns (left: int)
    requires z.m.Valid() && z.Stack(stack) && n - np <= |stack|
    requires forall c | c in stack :: z.m.reserved <= c
    modifies z.m`env, z.m`reg3, z.m`freeCells, z.m`free, z.m`usedCells, z.m`freeCount, z.m.ram
    ensures z.m.Valid() && left == if n > np then np else n
    ensures Built(old(z.m.ram[..]), stack, n - left, z.m.ram[..], z.m.env, z.m.reg3, NIL)
  {
    hide Chain, Machine.Kept, Machine.Shaped, Machine.Valid, Machine.Live, Built, Relinked, Machine.Held;
    var m := z.m;
    ghost var h, live := m.ram[..], m.Live();
    z.RegistersLive(stack);
    BuildStart(h, stack, m.env, NIL);
    z.Holding(live, stack);
    m.reg3 := NIL;
    left := n;
    while left > np
      invariant left <= n && n - left <= |stack| && (left >= np || left == n)
      invariant m.Shaped() && m.Kept(live) && m.RegistersHeld(live)
      invariant Built(h, stack, n - left, m.ram[..], m.env, m.reg3, NIL)
    {
      BuiltTop(h, stack, n - left, m.ram[..], m.env, m.reg3, NIL);
      assert m.env == stack[n - left] && stack[n - left] in stack;
      Relink(h, stack, n - left, m.ram[..], m.env, m.reg3, NIL);
      StillValid(m, live);
      CarsHeld(m, live, m.env);
      left := left - 1;
      var p, _ := PopAndPair(m, m.reg3, live);
      m.reg3 := p;
    }
    BuiltTop(h, stack, n - left, m.ram[..], m.env, m.reg3, NIL);
    StillValid(m, live);
  }

  /** Both forms of a loop leave the same memory: what Built says of it leaves no choice. */
  lemma BuiltUnique(h: seq<Cell>, stack: seq<Word>, k: nat, tail: Word, g: seq<Cell>, env: Word, list: Word,
                    g': seq<Cell>, env': Word, list': Word)
    requires Built(h, stack, k, g, env, list, tail) && Built(h, stack, k, g', env', list', tail)
    ensures g == g' && env == env' && list == list'
  {
    var cells := Rev<Word>(stack[..k]);
    forall i: Word | i < |h| ensures g[i] == g'[i] {
      if i in stack[..k] {
        var j :| 0 <= j < k && stack[j] == i;
        RevAt<Word>(stack[..k], k - 1 - j);
        ChainNext(g, list, cells, tail, k - 1 - j);
        ChainNext(g', list', cells, tail, k - 1 - j);
      }
    }
    assert forall i | 0 <= i < |h| :: var w: Word := i; g[w] == g'[w];
  }

  lemma {:induction false} ChainNext(h: seq<Cell>, p: Word, cells: seq<Word>, end: Word, j: nat)
    requires Chain(h, p, cells, end) && j < |cells|
    ensures cells[j] < |h| && h[cells[j]].cdr == if j + 1 < |cells| then cells[j + 1] else end
    decreases j
  {
    if j > 0 {
      ChainNext(h, h[p].cdr, cells[1..], end, j - 1);
    }
  }
}
