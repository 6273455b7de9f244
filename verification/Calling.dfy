/** Calls and returns: arguments become an environment by relinking the cells of the stack
    (main/interpreter.c, main/primitives-control.c). */
module Calling {
  import opened Cells
  import opened Environments
  import opened Memory
  import opened Wrappers

  class Interpreter {
    const m: Machine
    const program: seq<Byte>
    var entry: nat
    var pc: nat

    constructor (m: Machine, program: seq<Byte>)
      ensures this.m == m && this.program == program
    {
      this.m, this.program := m, program;
      entry, pc := 0, 0;
    }

    /** The stack, down to its end. */
    ghost predicate Stack(cells: seq<Word>)
      reads this, m, m.ram
    {
      Chain(m.ram[..], m.env, cells, NIL)
    }

    /** tos: the cell on top of the stack, taken off; None is the fatal end on an empty stack. */
    method Tos() returns (p: Option<Word>)
      requires m.env == NIL || m.env < m.ram.Length
      modifies m`env
      ensures p == if old(m.env) == NIL then None else Some(old(m.env))
      ensures p.None? ==> m.env == old(m.env)
      ensures p.Some? ==> m.env == m.ram[p.value].cdr
    {
      if m.env == NIL {
        return None;
      }
      p := Some(m.env);
      m.env := m.ram[m.env].cdr;
    }

    /** build_environment: the top n cells of the stack, relinked in reverse in front of reg1. */
    method BuildEnvironment(n: nat, ghost stack: seq<Word>) returns (ok: bool)
      requires m.Valid() && Stack(stack)
      modifies m`env, m`reg1, m`reg2, m.ram
      ensures ok <==> n <= |stack|
      ensures ok ==> m.Valid() && m.reg2 == NIL && Relinked(old(m.ram[..]), m.ram[..], stack[..n])
      ensures ok ==> Chain(m.ram[..], m.reg1, Rev<Word>(stack[..n]), old(m.reg1)) && Stack(stack[n..])
    {
      hide Chain, Machine.Kept, Machine.Shaped, Machine.Valid, Machine.Live, Built, Relinked, Machine.Held;
      ghost var h, live, tail := m.ram[..], m.Live(), m.reg1;
      RegistersLive(stack);
      BuildStart(h, stack, m.env, tail);
      var left := n;
      while left > 0
        invariant 0 <= left <= n && n - left <= |stack| && m.Shaped() && m.Kept(live) && m.Held(live, m.reg1)
        invariant Built(h, stack, n - left, m.ram[..], m.env, m.reg1, tail)
      {
        BuiltTop(h, stack, n - left, m.ram[..], m.env, m.reg1, tail);
        var p := Tos();
        if p.None? {
          return false;
        }
        assert p.value == stack[n - left] && p.value in stack;
        Relink(h, stack, n - left, m.ram[..], p.value, m.reg1, tail);
        left := left - 1;
        m.reg2 := p.value;
        m.SetCdr(m.reg2, m.reg1, live);
        m.reg1 := m.reg2;
        Holding(live, stack);
      }
      m.reg2 := NIL;
      BuiltTop(h, stack, n, m.ram[..], m.env, m.reg1, tail);
      BuiltDone(h, stack, n, m.ram[..], m.env, m.reg1, tail);
      Holding(live, stack);
      m.KeptValid(live);
      ok := true;
    }

    /** The loop of prepare_arguments: arguments beyond np, relinked into a list in reg3. */
    method CollectRest(n: int, np: nat, ghost stack: seq<Word>, ghost live: set<int>) returns (left: int, ok: bool)
      requires m.Shaped() && m.Kept(live) && Stack(stack) && Distinct(stack) && m.ram.Length < ROM_START
      requires forall c | c in stack :: c < m.ram.Length && c in live
      modifies m`env, m`reg3, m`reg4, m.ram
      ensures ok <==> n - np <= |stack|
      ensures ok ==> left == if n > np then np else n
      ensures ok ==> m.Shaped() && m.Kept(live) && m.Held(live, m.env) && m.Held(live, m.reg3)
      ensures ok ==> Built(old(m.ram[..]), stack, n - left, m.ram[..], m.env, m.reg3, NIL)
    {
      hide Chain, Machine.Kept, Machine.Shaped, Built, Relinked, Machine.Held;
      ghost var h := m.ram[..];
      BuildStart(h, stack, m.env, NIL);
      Holding(live, stack);
      m.reg3 := NIL;
      left := n;
      while left > np
        invariant left <= n && n - left <= |stack| && (left >= np || left == n) && m.Shaped() && m.Kept(live)
        invariant m.Held(live, m.reg3)
        invariant Built(h, stack, n - left, m.ram[..], m.env, m.reg3, NIL)
      {
        BuiltTop(h, stack, n - left, m.ram[..], m.env, m.reg3, NIL);
        var p := Tos();
        if p.None? {
          return left, false;
        }
        assert p.value == stack[n - left] && p.value in stack;
        Relink(h, stack, n - left, m.ram[..], p.value, m.reg3, NIL);
        left := left - 1;
        m.reg4 := p.value;
        m.SetCdr(m.reg4, m.reg3, live);
        m.reg3 := m.reg4;
      }
      BuiltTop(h, stack, n - left, m.ram[..], m.env, m.reg3, NIL);
      ok := true;
    }

    /** The part of prepare_arguments for a rest parameter; reg2 is the cell that held the closure, reg1
        the closure's environment. */
    method TakeRest(n: int, np: nat, ghost stack: seq<Word>, ghost live: set<int>) returns (left: int, ok: bool)
      requires stack != [] && m.reg2 == stack[0] < m.ram.Length && m.ram[m.reg2].typ == CONS && Distinct(stack)
      requires m.Shaped() && m.Kept(live) && Stack(stack[1..]) && m.ram.Length < ROM_START && m.Held(live, m.reg1)
      requires forall c | c in stack :: c < m.ram.Length && c in live
      modifies m`env, m`reg1, m`reg3, m`reg4, m.ram
      ensures ok <==> n - np <= |stack| - 1
      ensures ok ==> left == if n > np then np else n
      ensures ok ==> m.Shaped() && m.Kept(live) && m.Held(live, m.env) && m.reg1 == m.reg2 && m.reg3 == m.reg4 == NIL
      ensures ok ==> Prepared(old(m.ram[..]), m.ram[..], stack, true, n - left, m.reg1, m.env, old(m.reg1))
    {
      hide Chain, Machine.Kept, Machine.Shaped, Built, Relinked, Prepared, Machine.Held;
      ghost var h := m.ram[..];
      assert forall c | c in stack[1..] :: c in stack;
      left, ok := CollectRest(n, np, stack[1..], live);
      if ok {
        ghost var g, c, e, rest := m.ram[..], m.reg2, m.reg1, m.reg3;
        RestCell(h, stack, n - left, g, m.env, rest, e);
        Holding(live, stack);
        m.SetCdr(m.reg2, m.reg1, live);
        m.SetCar(m.reg2, m.reg3, live);
        assert m.ram[..] == g[c := g[c].(cdr := e, car := rest)];
        m.reg1 := m.reg2;
        m.reg3 := NIL;
        m.reg4 := NIL;
      }
    }

    /** prepare_arguments: the closure comes off the stack, entry is set to its first instruction and
        reg1 to its environment; with a rest parameter, to the cell of the closure, which now holds the
        list of the arguments beyond the fixed ones, in front of that environment.  The result is the
        number of arguments still on the stack.  A wrong number of arguments is only reported. */
    method PrepareArguments(n: nat, ghost stack: seq<Word>) returns (r: Option<nat>)
      requires m.Valid() && Stack(stack) && n < 0x80
      requires stack != [] && IsClosure(TopOf(stack)) ==> m.ram[TopOf(stack)].cdr < |program|
      modifies this`entry, m`env, m`reg1, m`reg2, m`reg3, m`reg4, m.ram
      ensures r.Some? ==> old(stack != [] && IsClosure(TopOf(stack)))
      ensures old(stack != [] && IsClosure(TopOf(stack))) ==>
        && var e := Extra(n, old(Params(stack)));
           && (r.Some? <==> 1 + e <= |stack|)
           && (r.Some? ==>
                && r.value == n - e && entry == old(m.ram[TopOf(stack)].cdr) + 1 && m.Valid()
                && Prepared(old(m.ram[..]), m.ram[..], stack, old(Params(stack)).Some?, e, m.reg1, m.env,
                            old(m.ram[TopOf(stack)].car)))
      ensures r.Some? ==> FixedLeft(old(EntryByte(stack)), n, r.value)
    {
      hide Chain, Machine.Kept, Machine.Shaped, Machine.Valid, Machine.Live, Prepared, Machine.Held, IsClosure;
      hide FixedLeft;
      ghost var h, live := m.ram[..], m.Live();
      RegistersLive(stack);
      var nbrParams, ok := TakeClosure(stack, live);
      if !ok {
        return None;
      }
      assert stack[0] in stack;
      var left: int := n;
      if nbrParams >= 0x80 {
        left, ok := TakeRest(left, 0xff - nbrParams, stack, live);
        if !ok {
          return None;
        }
      } else {
        NoRest(h, stack, m.env, m.reg1);
      }
      m.reg2 := NIL;
      Holding(live, stack);
      m.KeptValid(live);
      EntryByteLeaves(nbrParams, n);
      r := Some(left);
    }

    /** The closure comes off the stack; its cell stays in reg2. */
    method TakeClosure(ghost stack: seq<Word>, ghost live: set<int>) returns (nbrParams: Byte, ok: bool)
      requires m.Shaped() && m.Kept(live) && Stack(stack) && m.ram.Length < ROM_START
      requires forall c | c in stack :: c < m.ram.Length && c in live
      requires stack != [] && IsClosure(TopOf(stack)) ==> m.ram[TopOf(stack)].cdr < |program|
      modifies this`entry, m`env, m`reg1, m`reg2
      ensures ok <==> stack != [] && IsClosure(TopOf(stack))
      ensures ok ==>
        && entry == m.ram[TopOf(stack)].cdr + 1 && nbrParams == program[m.ram[TopOf(stack)].cdr]
        && m.reg1 == m.ram[TopOf(stack)].car
        && m.reg2 == stack[0] && m.ram[stack[0]].typ == CONS && Stack(stack[1..]) && Distinct(stack)
        && m.Held(live, m.reg1) && m.Held(live, m.env)
    {
      hide Machine.Shaped, Machine.Kept, Machine.Held, Machine.Valid, Chain, Distinct;
      nbrParams := 0;
      StackTop(m.ram[..], stack, m.env);
      Holding(live, stack);
      var p := Tos();
      if p.None? {
        return 0, false;
      }
      assert p.value in stack;
      m.reg2 := p.value;
      m.reg1 := m.ram[m.reg2].car;
      if m.reserved <= m.reg1 < m.ram.Length {
        if m.ram[m.reg1].typ == CLOSURE {
          entry := m.ram[m.reg1].cdr;
        } else {
          return 0, false;
        }
      } else {
        return 0, false;
      }
      nbrParams := program[entry];
      entry := entry + 1;
      ClosureHeld(live, m.reg2, m.reg1);
      m.reg1 := m.ram[m.reg1].car;
      TopHeld(live, stack[1..]);
      ok := true;
    }

    ghost function TopOf(stack: seq<Word>): Word
      requires stack != [] && stack[0] < m.ram.Length
      reads m.ram
    {
      m.ram[stack[0]].car
    }

    ghost predicate IsClosure(p: Word)
      reads m.ram
    {
      m.reserved <= p < m.ram.Length && m.ram[p].typ == CLOSURE
    }

    /** The byte in front of a procedure's code. */
    ghost function EntryByte(stack: seq<Word>): Byte
      requires stack != [] && stack[0] < m.ram.Length && IsClosure(TopOf(stack)) && m.ram[TopOf(stack)].cdr < |program|
      reads this, m.ram
    {
      program[m.ram[TopOf(stack)].cdr]
    }

    /** The number of fixed parameters of a procedure with a rest parameter. */
    ghost function Params(stack: seq<Word>): Option<nat>
      requires stack != [] && stack[0] < m.ram.Length && IsClosure(TopOf(stack)) && m.ram[TopOf(stack)].cdr < |program|
      reads this, m.ram
    {
      ParamsOf(EntryByte(stack))
    }

    lemma TopHeld(live: set<int>, stack: seq<Word>)
      requires Stack(stack) && m.ram.Length < ROM_START && forall c | c in stack :: c in live
      ensures m.Held(live, m.env)
    {
      assert stack != [] ==> stack[0] in stack;
    }

    lemma ClosureHeld(live: set<int>, c: Word, closure: Word)
      requires m.Shaped() && m.Kept(live) && c in live && c < m.ram.Length && m.ram[c].typ == CONS
      requires closure == m.ram[c].car
      requires closure < m.ram.Length && m.ram[closure].typ == CLOSURE
      ensures m.Held(live, m.ram[closure].car)
    {
      assert closure in m.ram[c].Links() && Open(m.ram[..], closure);
      assert m.ram[closure].car in m.ram[closure].Links();
      assert m.ram[closure].car < m.ram.Length ==> Open(m.ram[..], m.ram[closure].car);
    }

    lemma Holding(live: set<int>, stack: seq<Word>)
      requires m.ram.Length < ROM_START && forall c | c in stack :: c in live
      ensures m.Held(live, NIL) && forall c | c in stack :: m.Held(live, c)
    {}

    /** What the registers and the stack lead to. */
    lemma RegistersLive(stack: seq<Word>)
      requires m.Valid() && Stack(stack)
      ensures m.Shaped() && m.Kept(m.Live()) && m.RegistersHeld(m.Live()) && m.ram.Length < ROM_START
      ensures forall c | c in stack :: c < m.ram.Length && c in m.Live()
    {
      hide Chain, Reach;
      m.KeptLive();
      ChainCells(m.ram[..], m.env, stack, NIL);
      ChainLive(m.ram[..], m.Live(), m.env, stack, NIL);
    }

    /** The control state that a continuation keeps: the caller's stack, where to go on, and the
        continuation of the caller. */
    ghost predicate Saved(k: Word, env: Word, code: Word, parent: Word)
      reads m.ram
    {
      && k < m.ram.Length && m.ram[k].typ == CONTINUATION && m.ram[k].car == parent
      && m.ram[k].cdr < m.ram.Length && m.ram[m.ram[k].cdr].typ == CLOSURE
      && m.ram[m.ram[k].cdr].car == env && m.ram[m.ram[k].cdr].cdr == code
    }

    /** Everything but reg4, which save_cont overwrites. */
    ghost function Others(): set<int>
      reads m
    {
      m.Globals() + {m.reg1, m.reg2, m.reg3, m.cont, m.env, m.tmp1, m.tmp2, m.tmp3, m.tmp4, m.tmp5}
    }

    lemma OthersKept()
      requires m.Valid()
      ensures var k := Reach(m.ram[..], Others());
        && k <= m.Live() && m.Kept(k) && Closed(m.ram[..], k) && (forall i | i in k :: 0 <= i < m.ram.Length)
        && (forall i | 0 <= i < m.reserved :: i in k)
        && (forall w: Word | w in Others() :: m.Held(k, w))
    {
      hide Reach;
      var k := Reach(m.ram[..], Others());
      ReachClosed(m.ram[..], Others());
      assert Others() <= m.Roots();
      ReachMonotone(m.ram[..], Others(), m.Roots());
      forall i | 0 <= i < m.reserved ensures i in k {
        assert i in m.Globals() && Open(m.ram[..], i);
      }
      forall w: Word | w in Others() ensures m.Held(k, w) {
        assert w < m.ram.Length ==> Open(m.ram[..], w);
      }
    }

    /** reg4 takes over a new cell that leads to nothing but what the other registers lead to. */
    method TakeNew(c: Word)
      requires m.Valid() && c < m.ram.Length && c !in m.free
      requires forall q: Word | q in m.ram[c].Links() :: q in Others()
      modifies m`reg4
      ensures m.reg4 == c && m.Valid() && c in m.Live() && Reach(m.ram[..], Others()) <= m.Live()
    {
      hide Reach, Machine.Valid, Machine.Shaped, Machine.Kept, Machine.Held, Machine.Live;
      OthersKept();
      ValidShaped();
      ghost var k := Reach(m.ram[..], Others());
      m.KeptMore(k, c);
      assert forall w: Word | w in Others() :: m.Held(k, w);
      m.reg4 := c;
      HeldMore(k, c);
      m.KeptValid(k + {c as int});
      OthersKept();
      m.KeptLive();
      RootLive(c);
    }

    lemma ValidShaped()
      requires m.Valid()
      ensures m.Shaped() && m.ram.Length < ROM_START && forall i | 0 <= i < m.ram.Length :: !m.ram[i].mark
    {}

    lemma HeldMore(k: set<int>, c: Word)
      requires forall w: Word | w in Others() :: m.Held(k, w)
      requires forall i | 0 <= i < m.reserved :: i in k
      ensures m.reg4 == c ==> m.RegistersHeld(k + {c as int})
    {
      var o := Others();
      assert m.reg1 in o && m.reg2 in o && m.reg3 in o && m.cont in o && m.env in o;
      assert m.tmp1 in o && m.tmp2 in o && m.tmp3 in o && m.tmp4 in o && m.tmp5 in o;
    }

    lemma RootLive(c: Word)
      requires m.Valid() && c in m.Roots() && c < m.ram.Length
      ensures c in m.Live()
    {
      ReachClosed(m.ram[..], m.Roots());
      assert Open(m.ram[..], c);
    }

    /** save_cont: two new cells; whatever the other registers lead to is as it was. */
    method SaveCont() returns (ok: bool)
      requires m.Valid() && pc < 0x10000
      modifies m, m.ram
      ensures !ok ==> m.Full()
      ensures ok ==> m.Valid() && Saved(m.cont, m.env, old(pc), old(m.cont))
      ensures ok ==>
        m.reg4 == NIL && m.env == old(m.env) && m.reg1 == old(m.reg1) && m.reg2 == old(m.reg2) && m.reg3 == old(m.reg3)
      ensures ok ==>
        forall i | i in old(Reach(m.ram[..], Others())) :: 0 <= i < m.ram.Length && m.ram[i] == old(m.ram[i])
    {
      hide Reach, Machine.Valid, Machine.Shaped, Machine.Kept, Machine.Held;
      ghost var h, others := m.ram[..], Reach(m.ram[..], Others());
      OthersKept();
      ValidShaped();
      var c := m.NewClosure(m.env, pc);
      if c.None? {
        return false;
      }
      ghost var h1 := m.ram[..];
      ValidShaped();
      Survives(h, h1, Others(), m.Roots());
      assert m.env in Others() && m.cont in Others();
      TakeNew(c.value);
      var k := m.NewCont(m.cont, m.reg4);
      if k.None? {
        return false;
      }
      TakeCont(k.value);
      ok := true;
    }

    /** cont takes over a new cell that holds the old continuation and reg4. */
    method TakeCont(k: Word)
      requires m.Valid() && k < m.ram.Length && k !in m.free && m.ram[k].Links() <= {m.cont, m.reg4}
      modifies m`cont, m`reg4
      ensures m.Valid() && m.cont == k && m.reg4 == NIL
    {
      hide Machine.Valid, Machine.Shaped, Machine.Kept, Machine.Live;
      ghost var live := m.Live();
      m.KeptLive();
      ValidShaped();
      m.KeptMore(live, k);
      m.cont := k;
      m.reg4 := NIL;
      m.KeptValid(live + {k as int});
    }

    lemma Survives(h: seq<Cell>, g: seq<Cell>, small: set<int>, big: set<int>)
      requires |g| == |h| && small <= big && (forall p | 0 <= p < |h| :: h[p].mark == g[p].mark)
      requires forall p | p in Reach(h, big) :: 0 <= p < |h| && g[p] == h[p]
      ensures Reach(g, small) == Reach(h, small)
    {
      ReachMonotone(h, small, big);
      ReachFrame(h, g, small);
    }

    /** The end of a call: the control state is saved, and the new environment in reg1 takes over. */
    method Enter(ghost below: seq<Word>, ghost args: seq<Word>, ghost params: Option<nat>, ghost end: Word)
        returns (ok: bool)
      requires m.Valid() && pc < 0x10000 && Stack(below) && Environment(m.ram[..], m.reg1, args, params, end)
      modifies this`pc, m, m.ram
      ensures !ok ==> m.Full()
      ensures ok ==> m.Valid() && pc == old(entry) && Environment(m.ram[..], m.env, args, params, end)
      ensures ok ==> Saved(m.cont, old(m.env), old(pc), old(m.cont)) && m.reg1 == m.reg2 == NIL
      ensures ok ==> Chain(m.ram[..], old(m.env), below, NIL)
      ensures ok ==> forall c | c in below :: c < m.ram.Length && m.ram[c] == old(m.ram[c])
      ensures ok ==>
        forall i | i in old(Reach(m.ram[..], Others())) :: 0 <= i < m.ram.Length && m.ram[i] == old(m.ram[i])
    {
      hide Reach, Machine.Valid, Machine.Shaped, Machine.Kept, Machine.Live, Environment, Chain;
      ghost var k, live, e := m.ram[..], Reach(m.ram[..], Others()), m.env;
      OthersKept();
      ValidShaped();
      ChainLive(k, live, e, below, NIL);
      ok := SaveCont();
      if ok {
        Untouched(k, m.ram[..], live, e, below);
        EnvironmentKept(k, m.ram[..], live, m.reg1, args, params, end);
        TakeEnvironment();
      }
    }

    method TakeEnvironment()
      requires m.Valid()
      modifies this`pc, m`env, m`reg1, m`reg2
      ensures m.Valid() && m.env == old(m.reg1) && m.reg1 == m.reg2 == NIL && pc == entry
    {
      hide Machine.Valid, Machine.Shaped, Machine.Kept, Machine.Live;
      ghost var live := m.Live();
      m.KeptLive();
      ValidShaped();
      m.env := m.reg1;
      pc := entry;
      m.reg1 := NIL;
      m.reg2 := NIL;
      m.KeptValid(live);
    }

    lemma Untouched(k: seq<Cell>, g: seq<Cell>, live: set<int>, p: Word, cells: seq<Word>)
      requires Chain(k, p, cells, NIL) && |g| == |k| && (forall c | c in cells :: c in live)
      requires forall i | i in live :: 0 <= i < |k| && g[i] == k[i]
      ensures Chain(g, p, cells, NIL) && forall c | c in cells :: c < |g| && g[c] == k[c]
    {
      ChainCells(k, p, cells, NIL);
      ChainFrame(k, g, p, cells, NIL);
    }

    lemma StackInside(stack: seq<Word>)
      requires Stack(stack) && m.ram.Length < NIL
      ensures Inside(m.ram[..], stack) && Distinct(stack)
    {
      ChainCells(m.ram[..], m.env, stack, NIL);
      ChainDistinct(m.ram[..], m.env, stack, NIL);
      assert forall i | 0 <= i < |stack| :: stack[i] in stack;
    }

    lemma StackBelow(stack: seq<Word>, n: nat)
      requires 1 + n <= |stack| && Stack(stack[1 + n..])
      ensures m.env == Below(stack, 1 + n)
    {}

    /** What is under the cells that a call takes. */
    ghost function Below(stack: seq<Word>, n: nat): Word
      requires n <= |stack|
    {
      if n == |stack| then NIL else stack[n]
    }

    /** What a call with n arguments leaves to the program, beside the cells that it relinks. */
    ghost function CallRoots(stack: seq<Word>, n: nat): set<int>
      requires 1 + n <= |stack| && Inside(m.ram[..], stack) && TopOf(stack) < m.ram.Length
      reads this, m, m.ram
    {
      m.Globals() + {m.cont as int, m.ram[TopOf(stack)].car}
      + (set i | 1 <= i <= n :: m.ram[stack[i]].car as int) + (set i | n < i < |stack| :: stack[i] as int)
    }

    /** The argument cells and the closure's cell are the stack's own. */
    ghost predicate StackOwns(stack: seq<Word>, n: nat)
      requires 1 + n <= |stack| && Inside(m.ram[..], stack) && TopOf(stack) < m.ram.Length
      reads this, m, m.ram
    {
      forall i | 0 <= i <= n :: stack[i] !in Reach(m.ram[..], CallRoots(stack, n))
    }

    /** The first half of a call: closure and arguments become the callee's environment in reg1. */
    method BuildCall(n: nat, ghost stack: seq<Word>) returns (ok: bool)
      requires m.Valid() && Stack(stack) && n < 16
      requires stack != [] && IsClosure(TopOf(stack)) ==> m.ram[TopOf(stack)].cdr < |program|
      modifies this`entry, m`env, m`reg1, m`reg2, m`reg3, m`reg4, m.ram
      ensures ok <==> 1 + n <= |stack| && old(Inside(m.ram[..], stack)) && old(IsClosure(TopOf(stack)))
      ensures ok ==> m.Valid() && entry == old(m.ram[TopOf(stack)].cdr) + 1
      ensures ok ==>
        Environment(m.ram[..], m.reg1, old(Args(m.ram[..], stack[1..1 + n])), old(Params(stack)),
                    old(m.ram[TopOf(stack)].car))
      ensures ok ==> Stack(stack[1 + n..]) && m.env == Below(stack, 1 + n)
      ensures ok ==> forall i | 0 <= i < m.ram.Length && i !in stack[..1 + n] :: m.ram[i] == old(m.ram[i])
      ensures ok ==> forall c | c in stack[1 + n..] :: c < m.ram.Length && m.ram[c] == old(m.ram[c])
    {
      hide Reach, Machine.Valid, Machine.Shaped, Machine.Kept, Machine.Live, Machine.Full, Chain, Environment, Relinked;
      hide Prepared, Args, Values, Saved, Distinct, FixedLeft, ParamsOf;
      ghost var h := m.ram[..];
      ValidShaped();
      StackInside(stack);
      var r := PrepareArguments(n, stack);
      if r.None? {
        return false;
      }
      ghost var params, e := old(Params(stack)), Extra(n, old(Params(stack)));
      ghost var g, reg1, env := m.ram[..], m.reg1, m.env;
      ghost var rest := stack[1 + e..];
      PreparedStack(h, g, stack, params.Some?, e, reg1, env, old(m.ram[TopOf(stack)].car));
      ok := BuildEnvironment(r.value, rest);
      if ok {
        CallBuilt(h, g, m.ram[..], stack, params, n, reg1, env, m.reg1, old(m.ram[TopOf(stack)].car));
        StackBelow(stack, n);
      }
    }

    /** A call of a closure with n arguments.  The callee gets them in order, with the rest list where it
        wants one, in front of its closure's environment; the caller's stack under them is untouched
        and kept, with the place to return to, in the continuation. */
    method CallClosure(n: nat, ghost stack: seq<Word>) returns (ok: bool)
      requires m.Valid() && Stack(stack) && n < 16 && pc < 0x10000
      requires stack != [] && IsClosure(TopOf(stack)) ==> m.ram[TopOf(stack)].cdr < |program|
      modifies this, m, m.ram
      ensures ok ==> 1 + n <= |stack| && old(Inside(m.ram[..], stack)) && old(IsClosure(TopOf(stack)))
      ensures !ok ==> |stack| < 1 + n || !old(IsClosure(TopOf(stack))) || m.Full()
      ensures ok ==> m.Valid() && pc == old(m.ram[TopOf(stack)].cdr) + 1
      ensures ok ==>
        Environment(m.ram[..], m.env, old(Args(m.ram[..], stack[1..1 + n])), old(Params(stack)),
                    old(m.ram[TopOf(stack)].car))
      ensures ok ==>
        Found(m.ram[..], m.env, old(Args(m.ram[..], stack[1..1 + n])), old(EntryByte(stack)),
              old(m.ram[TopOf(stack)].car))
      ensures ok ==> Saved(m.cont, Below(stack, 1 + n), old(pc), old(m.cont))
      ensures ok ==> Chain(m.ram[..], Below(stack, 1 + n), stack[1 + n..], NIL)
      ensures ok ==> forall c | c in stack[1 + n..] :: c < m.ram.Length && m.ram[c] == old(m.ram[c])
      ensures ok && old(StackOwns(stack, n)) ==>
        forall i | i in old(Reach(m.ram[..], CallRoots(stack, n))) :: 0 <= i < m.ram.Length && m.ram[i] == old(m.ram[i])
    {
      hide Reach, Machine.Valid, Machine.Shaped, Machine.Kept, Machine.Live, Machine.Full, Chain, Environment, Relinked;
      hide Prepared, Args, Values, Saved, Distinct, Others, Machine.Globals, Found, ParamsOf;
      ghost var h := m.ram[..];
      ValidShaped();
      StackInside(stack);
      ok := BuildCall(n, stack);
      if ok {
        ghost var closureEnv, params := old(m.ram[TopOf(stack)].car), old(Params(stack));
        RootsReached(h, m.ram[..], stack, n, params, closureEnv, old(CallRoots(stack, n)));
        ghost var args, b := Args(h, stack[1..1 + n]), old(EntryByte(stack));
        ok := Enter(stack[1 + n..], args, params, closureEnv);
        EntryByteFound(m.ram[..], m.env, args, b, closureEnv);
      }
    }

    /** A tail call of a closure: the callee takes the place of the caller, with its continuation.  Nothing is
        allocated. */
    method JumpClosure(n: nat, ghost stack: seq<Word>) returns (ok: bool)
      requires m.Valid() && Stack(stack) && n < 16
      requires stack != [] && IsClosure(TopOf(stack)) ==> m.ram[TopOf(stack)].cdr < |program|
      modifies this, m`env, m`reg1, m`reg2, m`reg3, m`reg4, m.ram
      ensures ok <==> 1 + n <= |stack| && old(Inside(m.ram[..], stack)) && old(IsClosure(TopOf(stack)))
      ensures ok ==> m.Valid() && pc == old(m.ram[TopOf(stack)].cdr) + 1
      ensures ok ==>
        Environment(m.ram[..], m.env, old(Args(m.ram[..], stack[1..1 + n])), old(Params(stack)),
                    old(m.ram[TopOf(stack)].car))
      ensures ok ==>
        Found(m.ram[..], m.env, old(Args(m.ram[..], stack[1..1 + n])), old(EntryByte(stack)),
              old(m.ram[TopOf(stack)].car))
      ensures ok ==> forall i | 0 <= i < m.ram.Length && i !in stack[..1 + n] :: m.ram[i] == old(m.ram[i])
    {
      hide Reach, Machine.Valid, Machine.Shaped, Machine.Kept, Machine.Live, Chain, Environment, Args, Values, Found;
      hide ParamsOf;
      ok := BuildCall(n, stack);
      if ok {
        TakeEnvironment();
        EntryByteFound(m.ram[..], m.env, old(Args(m.ram[..], stack[1..1 + n])), old(EntryByte(stack)),
                       old(m.ram[TopOf(stack)].car));
      }
    }

    /** A call of a top-level procedure: as many arguments as it declares, and no closure. */
    method CallToplevel(target: Word, ghost stack: seq<Word>) returns (ok: bool)
      requires m.Valid() && Stack(stack) && pc < 0x10000 && target < |program|
      modifies this, m, m.ram
      ensures !ok ==> |stack| < program[target] || m.Full()
      ensures ok ==> var n := program[target];
        && n <= |stack| && old(Inside(m.ram[..], stack)) && m.Valid() && pc == target + 1
        && Environment(m.ram[..], m.env, old(Args(m.ram[..], stack[..n])), None, NIL)
        && Saved(m.cont, Below(stack, n), old(pc), old(m.cont)) && Chain(m.ram[..], Below(stack, n), stack[n..], NIL)
        && forall c | c in stack[n..] :: c < m.ram.Length && m.ram[c] == old(m.ram[c])
    {
      hide Reach, Machine.Valid, Machine.Shaped, Machine.Kept, Machine.Live, Chain, Environment, Relinked;
      ghost var h := m.ram[..];
      ValidShaped();
      StackInside(stack);
      entry := target;
      var n := program[entry];
      entry := entry + 1;
      m.KeptLive();
      ghost var live := m.Live();
      m.reg1 := NIL;
      m.KeptValid(live);
      var built := BuildEnvironment(n, stack);
      if !built {
        return false;
      }
      ToplevelEnvironment(h, m.ram[..], stack, n, m.reg1);
      ToplevelBelow(stack, n);
      ok := Enter(stack[n..], Args(h, stack[..n]), None, NIL);
    }

    /** What the call leaves to the program can be reached again once the environment has been built. */
    lemma RootsReached(h: seq<Cell>, k: seq<Cell>, stack: seq<Word>, n: nat, params: Option<nat>, closureEnv: Word,
                       roots: set<int>)
      requires m.Valid() && k == m.ram[..] && |k| == |h| && 1 + n <= |stack| && Inside(h, stack)
      requires Stack(stack[1 + n..]) && Environment(k, m.reg1, Args(h, stack[1..1 + n]), params, closureEnv)
      requires forall i | 0 <= i < |h| :: !h[i].mark
      requires roots == m.Globals() + {m.cont as int, closureEnv}
        + (set i | 1 <= i <= n :: h[stack[i]].car as int) + (set i | n < i < |stack| :: stack[i] as int)
      requires forall i | 0 <= i < |h| && i !in stack[..1 + n] :: k[i] == h[i]
      ensures (forall i | 0 <= i <= n :: stack[i] !in Reach(h, roots)) ==>
        Reach(h, roots) <= Reach(k, Others()) && forall i | i in Reach(h, roots) :: 0 <= i < |h| && k[i] == h[i]
    {
      hide Reach, Machine.Valid, Machine.Shaped, Machine.Kept, Chain, Environment, Args;
      var live := Reach(k, Others());
      OthersKept();
      ValidShaped();
      ChainLive(k, live, m.env, stack[1 + n..], NIL);
      EnvironmentLive(k, live, m.reg1, Args(h, stack[1..1 + n]), params, closureEnv);
      ArgsAre(h, stack, n);
      forall r | r in roots && Open(k, r) ensures r in live {
        if i :| n < i < |stack| && stack[i] == r {
          assert stack[1 + n..][i - n - 1] == r;
        }
      }
      ReachClosed(h, roots);
      if forall i | 0 <= i <= n :: stack[i] !in Reach(h, roots) {
        assert forall i | i in Reach(h, roots) :: i !in stack[..1 + n];
        ReachFrame(h, k, roots);
        ReachLeast(k, roots, live);
      }
    }

    lemma ToplevelBelow(stack: seq<Word>, n: nat)
      requires n <= |stack| && Stack(stack[n..])
      ensures m.env == Below(stack, n)
    {}

    /** What is left to the program when the top of the stack is in a register. */
    ghost function Popped(): set<int>
      requires m.env < m.ram.Length
      reads m, m.ram
    {
      Reach(m.ram[..], m.RootsButEnv(m.ram[m.env].cdr) + {m.ram[m.env].car as int})
    }

    lemma PoppedKept()
      requires m.Valid() && m.env < m.ram.Length && m.ram[m.env].typ == CONS
      ensures Closed(m.ram[..], Popped()) && forall f | f in m.free :: f !in Popped()
      ensures forall i | 0 <= i < m.reserved :: i in Popped()
      ensures var p := Popped(); var top := m.ram[m.env];
        && m.Held(p, top.car) && m.Held(p, top.cdr) && m.Held(p, m.reg1) && m.Held(p, m.reg2) && m.Held(p, m.reg3)
          && m.Held(p, m.reg4) && m.Held(p, m.cont)
        && m.Held(p, m.tmp1) && m.Held(p, m.tmp2) && m.Held(p, m.tmp3) && m.Held(p, m.tmp4) && m.Held(p, m.tmp5)
      ensures forall i | i in Popped() :: 0 <= i < m.ram.Length
    {
      hide Reach;
      var top := m.ram[m.env];
      var roots := m.RootsButEnv(top.cdr) + {top.car as int};
      ReachClosed(m.ram[..], roots);
      ReachClosed(m.ram[..], m.Roots());
      assert top.car in top.Links() && top.cdr in top.Links() && Open(m.ram[..], m.env);
      ReachLeast(m.ram[..], roots, m.Live());
      forall w: Word | w in roots ensures m.Held(Popped(), w) {
        assert w < m.ram.Length ==> Open(m.ram[..], w);
      }
      forall i | 0 <= i < m.reserved ensures i in Popped() {
        assert i in m.Globals() && Open(m.ram[..], i);
      }
    }

    /** reg1 = pop(), for a cell that nothing else leads to. */
    method PopTo1()
      requires m.Valid() && m.reserved <= m.env < m.ram.Length && m.ram[m.env].typ == CONS && m.env !in Popped()
      modifies m, m.ram
      ensures m.Valid() && m.reg1 == old(m.ram[m.env].car) && m.env == old(m.ram[m.env].cdr) && m.cont == old(m.cont)
      ensures old(m.env) in m.free
      ensures forall i | i in old(Popped()) :: 0 <= i < m.ram.Length && m.ram[i] == old(m.ram[i])
    {
      hide Reach, Machine.Valid, Machine.Held;
      ghost var keep, top := Popped(), m.env;
      PoppedKept();
      ValidShaped();
      ghost var h := m.ram[..];
      m.reg1 := m.Pop();
      StaysClosed(h, m.ram[..], keep, top);
      m.KeptValid(keep);
    }

    lemma StaysClosed(h: seq<Cell>, g: seq<Cell>, keep: set<int>, top: Word)
      requires Closed(h, keep) && |g| == |h| && top !in keep && top < |h|
      requires forall i | 0 <= i < |h| && i != top :: g[i] == h[i]
      requires forall i | 0 <= i < |h| :: !h[i].mark && !g[i].mark
      ensures Closed(g, keep)
    {
      forall p, q | p in keep && q in g[p].Links() && Open(g, q) ensures q in keep {
        assert Open(h, q);
      }
    }

    /** return: the value on top of the callee's stack is pushed on the stack that the continuation
        kept, and the caller goes on.  Memory cannot run out: the cell of the value has just been freed. */
    method Return(ghost env: Word, ghost code: Word, ghost parent: Word, ghost below: seq<Word>)
      requires m.Valid() && m.reserved <= m.env < m.ram.Length && m.ram[m.env].typ == CONS
      requires m.env !in Popped()
      requires Saved(m.cont, env, code, parent) && Chain(m.ram[..], env, below, NIL)
      modifies this, m, m.ram
      ensures m.Valid() && pc == entry == code && m.cont == parent
      ensures Stack([m.env] + below) && m.ram[m.env].car == old(m.ram[m.env].car) && m.ram[m.env].cdr == env
      ensures forall c | c in below :: c < m.ram.Length && m.ram[c] == old(m.ram[c])
      ensures forall i | i in old(Reach(m.ram[..], ReturnRoots(env, parent))) ::
        0 <= i < m.ram.Length && m.ram[i] == old(m.ram[i])
    {
      hide Reach, Machine.Valid, Machine.Shaped, Machine.Kept, Machine.Live, Chain;
      ghost var h, keep, top := m.ram[..], Popped(), m.env;
      PoppedKept();
      ValidShaped();
      SavedHeld(keep, env, code, parent, below);
      ghost var roots := ReturnRoots(env, parent);
      ReturnKept(keep, env, code, parent);
      PopTo1();
      Untouched(h, m.ram[..], keep, env, below);
      ResumeCaller(env, code, parent);
      ValidShaped();
      StillLive(h, roots);
      FreeDead(top);
      var ok := PushResult(below);
      assert ok;
    }

    /** What a return leaves to the program: the value, and what the caller has. */
    ghost function ReturnRoots(env: Word, parent: Word): set<int>
      requires m.env < m.ram.Length
      reads m, m.ram
    {
      m.Globals() + {m.ram[m.env].car as int, env, parent}
    }

    lemma ReturnKept(keep: set<int>, env: Word, code: Word, parent: Word)
      requires m.Valid() && m.env < m.ram.Length && keep == Popped() && m.ram[m.env].typ == CONS
      requires Saved(m.cont, env, code, parent)
      ensures Reach(m.ram[..], ReturnRoots(env, parent)) <= keep
    {
      hide Reach;
      PoppedKept();
      ValidShaped();
      var k := m.ram[m.cont];
      assert k.cdr in k.Links() && k.car in k.Links() && Open(m.ram[..], k.cdr);
      assert env in m.ram[k.cdr].Links();
      ReachLeast(m.ram[..], ReturnRoots(env, parent), keep);
    }

    /** Heap h had these roots, and now they are among the machine's. */
    lemma StillLive(h: seq<Cell>, roots: set<int>)
      requires m.Valid() && |h| == m.ram.Length && roots <= m.Roots() && forall i | 0 <= i < |h| :: !h[i].mark
      requires forall i | i in Reach(h, roots) :: 0 <= i < |h| && m.ram[i] == h[i]
      ensures Reach(h, roots) <= m.Live()
    {
      hide Reach;
      ReachFrame(h, m.ram[..], roots);
      ReachMonotone(m.ram[..], roots, m.Roots());
    }

    lemma FreeDead(f: Word)
      requires m.Valid() && f in m.free
      ensures f !in m.Live()
    {}

    /** env = new_pair(reg1, env) */
    method PushResult(ghost below: seq<Word>) returns (ok: bool)
      requires m.Valid() && Stack(below)
      modifies m, m.ram
      ensures !ok ==> m.Full() && m.Live() == old(m.Live())
      ensures ok ==> m.Valid() && m.cont == old(m.cont) && Stack([m.env] + below)
      ensures ok ==> m.ram[m.env].car == old(m.reg1) && m.ram[m.env].cdr == old(m.env)
      ensures ok ==> forall i | i in old(m.Live()) :: 0 <= i < m.ram.Length && m.ram[i] == old(m.ram[i])
      ensures ok ==> forall c | c in below :: c < m.ram.Length && m.ram[c] == old(m.ram[c])
    {
      hide Reach, Machine.Valid, Machine.Shaped, Machine.Kept, Chain;
      ghost var h, env, live := m.ram[..], m.env, m.Live();
      RegistersLive(below);
      var p := m.NewPair(m.reg1, m.env);
      if p.None? {
        return false;
      }
      Untouched(h, m.ram[..], live, env, below);
      TakePair(p.value);
      Pushed(env, below);
      ok := true;
    }

    lemma SavedHeld(keep: set<int>, env: Word, code: Word, parent: Word, below: seq<Word>)
      requires Saved(m.cont, env, code, parent) && Chain(m.ram[..], env, below, NIL)
      requires Closed(m.ram[..], keep) && m.Held(keep, m.cont) && forall i | 0 <= i < m.ram.Length :: !m.ram[i].mark
      ensures m.cont in keep && m.ram[m.cont].cdr in keep && (forall c | c in below :: c in keep)
    {
      var closure := m.ram[m.cont].cdr;
      assert closure in m.ram[m.cont].Links() && Open(m.ram[..], closure);
      assert env in m.ram[closure].Links();
      ChainLive(m.ram[..], keep, env, below, NIL);
    }

    /** The primitive itself: control state from the continuation. */
    method ResumeCaller(ghost e: Word, ghost code: Word, ghost parent: Word)
      requires m.Valid() && Saved(m.cont, e, code, parent)
      modifies this`entry, this`pc, m`env, m`cont, m`reg2
      ensures m.Valid() && m.env == e && m.cont == parent && pc == entry == code && m.reg1 == old(m.reg1)
    {
      hide Reach, Machine.Valid, Machine.Shaped, Machine.Kept, Machine.Live;
      ghost var live := m.Live();
      m.KeptLive();
      ValidShaped();
      FieldsHeld(live, e, code, parent);
      m.reg2 := m.ram[m.cont].cdr;
      entry := m.ram[m.reg2].cdr;
      m.env := m.ram[m.reg2].car;
      m.cont := m.ram[m.cont].car;
      m.reg2 := NIL;
      pc := entry;
      m.KeptValid(live);
    }

    lemma FieldsHeld(live: set<int>, env: Word, code: Word, parent: Word)
      requires Saved(m.cont, env, code, parent) && m.Kept(live) && m.Held(live, m.cont)
      requires forall i | 0 <= i < m.ram.Length :: !m.ram[i].mark
      ensures m.Held(live, env) && m.Held(live, parent)
    {
      var k := m.ram[m.cont];
      assert k.cdr in k.Links() && k.car in k.Links() && Open(m.ram[..], k.cdr);
      assert env in m.ram[k.cdr].Links();
      assert env < m.ram.Length ==> Open(m.ram[..], env);
      assert parent < m.ram.Length ==> Open(m.ram[..], parent);
    }

    /** env takes over a new cell in front of the stack. */
    method TakePair(p: Word)
      requires m.Valid() && p < m.ram.Length && p !in m.free && m.ram[p].Links() <= {m.reg1, m.env}
      modifies m`env
      ensures m.Valid() && m.env == p
    {
      hide Machine.Valid, Machine.Shaped, Machine.Kept, Machine.Live;
      ghost var live := m.Live();
      m.KeptLive();
      ValidShaped();
      m.KeptMore(live, p);
      m.env := p;
      m.KeptValid(live + {p as int});
    }

    lemma Pushed(env: Word, below: seq<Word>)
      requires m.env < m.ram.Length && m.ram[m.env].typ == CONS && m.ram[m.env].cdr == env
      requires Chain(m.ram[..], env, below, NIL)
      ensures Stack([m.env] + below)
    {
      assert ([m.env] + below)[1..] == below;
    }
  }
}
