/** Stacks, lists and environments as chains of pairs, and what relinking them does
    (main/interpreter.c). */
module Environments {
  import opened Cells
  import opened Wrappers

  /** From p, along the cdr fields, through these pairs, to end. */
  ghost predicate Chain(h: seq<Cell>, p: Word, cells: seq<Word>, end: Word)
    decreases |cells|
  {
    if cells == [] then p == end
    else p == cells[0] && p < |h| && h[p].typ == CONS && Chain(h, h[p].cdr, cells[1..], end)
  }

  ghost predicate Inside(h: seq<Cell>, cells: seq<Word>) {
    forall i | 0 <= i < |cells| :: cells[i] < |h|
  }

  ghost function Values(h: seq<Cell>, cells: seq<Word>): (r: seq<Word>)
    requires Inside(h, cells)
    ensures |r| == |cells| && forall i | 0 <= i < |r| :: r[i] == h[cells[i]].car
  {
    seq(|cells|, i requires 0 <= i < |cells| => h[cells[i]].car)
  }

  ghost predicate Lists(h: seq<Cell>, p: Word, values: seq<Word>, end: Word) {
    exists cells :: Chain(h, p, cells, end) && Inside(h, cells) && Values(h, cells) == values
  }

  lemma {:induction false} ChainCells(h: seq<Cell>, p: Word, cells: seq<Word>, end: Word)
    requires Chain(h, p, cells, end)
    ensures forall c | c in cells :: c < |h| && h[c].typ == CONS
    decreases |cells|
  {
    if cells != [] {
      ChainCells(h, h[p].cdr, cells[1..], end);
    }
  }

  /** A chain is determined by where it starts. */
  lemma {:induction false} ChainUnique(h: seq<Cell>, p: Word, a: seq<Word>, b: seq<Word>, end: Word)
    requires Chain(h, p, a, end) && Chain(h, p, b, end) && end >= |h|
    ensures a == b
    decreases |a|
  {
    if a != [] && b != [] {
      ChainUnique(h, h[p].cdr, a[1..], b[1..], end);
    }
  }

  lemma {:induction false} ChainFrom(h: seq<Cell>, p: Word, cells: seq<Word>, end: Word, k: nat)
    requires Chain(h, p, cells, end) && k < |cells|
    ensures Chain(h, cells[k], cells[k..], end)
    decreases k
  {
    if k > 0 {
      ChainFrom(h, h[p].cdr, cells[1..], end, k - 1);
      assert cells[1..][k - 1..] == cells[k..];
    }
  }

  /** So no cell is on the stack twice. */
  lemma ChainDistinct(h: seq<Cell>, p: Word, cells: seq<Word>, end: Word)
    requires Chain(h, p, cells, end) && end >= |h|
    ensures Distinct(cells)
  {
    forall i, j | 0 <= i < j < |cells| ensures cells[i] != cells[j] {
      if cells[i] == cells[j] {
        ChainFrom(h, p, cells, end, i);
        ChainFrom(h, p, cells, end, j);
        ChainUnique(h, cells[i], cells[i..], cells[j..], end);
        assert false;
      }
    }
  }

  lemma {:induction false} ChainFrame(h: seq<Cell>, g: seq<Cell>, p: Word, cells: seq<Word>, end: Word)
    requires Chain(h, p, cells, end) && |g| == |h|
    requires forall c | c in cells && c < |h| :: g[c].cdr == h[c].cdr && g[c].typ == h[c].typ
    ensures Chain(g, p, cells, end)
    decreases |cells|
  {
    if cells != [] {
      ChainFrame(h, g, h[p].cdr, cells[1..], end);
    }
  }

  lemma {:induction false} ChainLive(h: seq<Cell>, live: set<int>, p: Word, cells: seq<Word>, end: Word)
    requires Chain(h, p, cells, end) && Closed(h, live) && (p < |h| ==> p in live)
    requires forall i | 0 <= i < |h| :: !h[i].mark
    ensures (forall c | c in cells :: c in live) && (end < |h| ==> end in live)
    decreases |cells|
  {
    if cells != [] {
      assert h[p].cdr in h[p].Links();
      ChainLive(h, live, h[p].cdr, cells[1..], end);
    }
  }

  lemma {:induction false} ChainJoin(h: seq<Cell>, p: Word, a: seq<Word>, mid: Word, b: seq<Word>, end: Word)
    requires Chain(h, p, a, mid) && Chain(h, mid, b, end)
    ensures Chain(h, p, a + b, end)
    decreases |a|
  {
    if a == [] {
      assert a + b == b;
    } else {
      ChainJoin(h, h[p].cdr, a[1..], mid, b, end);
      assert (a + b)[1..] == a[1..] + b;
    }
  }

  /** Only the links of these cells differ. */
  ghost predicate Relinked(h: seq<Cell>, g: seq<Cell>, cells: seq<Word>) {
    |g| == |h| && forall i: Word | i < |h| :: if i in cells then g[i] == h[i].(cdr := g[i].cdr) else g[i] == h[i]
  }

  /** The top k cells of the stack have been relinked in front of tail. */
  ghost predicate Built(h: seq<Cell>, stack: seq<Word>, k: nat, g: seq<Cell>, env: Word, built: Word, tail: Word) {
    && k <= |stack| && |h| <= NIL && Relinked(h, g, stack[..k])
    && Chain(g, env, stack[k..], NIL) && Chain(g, built, Rev<Word>(stack[..k]), tail)
  }

  lemma BuiltTop(h: seq<Cell>, stack: seq<Word>, k: nat, g: seq<Cell>, env: Word, built: Word, tail: Word)
    requires Built(h, stack, k, g, env, built, tail)
    ensures env == if k == |stack| then NIL else stack[k]
    ensures k < |stack| ==> env < |g| && g[env].typ == CONS && |stack[k..]| > 0
  {}

  lemma BuiltDone(h: seq<Cell>, stack: seq<Word>, k: nat, g: seq<Cell>, env: Word, built: Word, tail: Word)
    requires Built(h, stack, k, g, env, built, tail)
    ensures Relinked(h, g, stack[..k]) && Chain(g, built, Rev<Word>(stack[..k]), tail) && Chain(g, env, stack[k..], NIL)
  {}

  /** How many of n arguments go into the rest list. */
  function Extra(n: nat, params: Option<nat>): (e: nat)
    ensures e <= n
  {
    if params.Some? && n > params.value then n - params.value else 0
  }

  /** The number of fixed parameters in front of a rest parameter, if there is one. */
  function ParamsOf(entryByte: Byte): Option<nat> {
    if entryByte < 0x80 then None else Some(0xff - entryByte)
  }

  /** What prepare_arguments leaves: the stack below, and in reg1 the environment to build on. */
  ghost predicate Prepared(h: seq<Cell>, g: seq<Cell>, stack: seq<Word>, rest: bool, e: nat, reg1: Word, env: Word,
                           closureEnv: Word)
    requires 1 + e <= |stack|
  {
    && |h| <= NIL && |g| == |h| && Chain(g, env, stack[1 + e..], NIL) && stack[0] < |h|
    && (forall i: Word | i < |h| && i !in stack[..1 + e] :: g[i] == h[i])
    && (forall c | c in stack[1..1 + e] && c < |h| :: g[c].car == h[c].car)
    && if !rest then reg1 == closureEnv && e == 0 && g == h
       else
         && reg1 == stack[0] && Chain(g, reg1, [reg1], closureEnv)
         && Chain(g, g[reg1].car, Rev<Word>(stack[1..1 + e]), NIL)
  }

  lemma StackTop(h: seq<Cell>, stack: seq<Word>, env: Word)
    requires Chain(h, env, stack, NIL) && |h| < NIL
    ensures if stack == [] then env == NIL
            else env == stack[0] && env < |h| && h[env].typ == CONS && Chain(h, h[env].cdr, stack[1..], NIL)
    ensures Distinct(stack) && Distinct(if stack == [] then [] else stack[1..])
  {
    ChainDistinct(h, env, stack, NIL);
  }

  lemma NoRest(h: seq<Cell>, stack: seq<Word>, env: Word, reg1: Word)
    requires stack != [] && stack[0] < |h| <= NIL && Chain(h, env, stack[1..], NIL)
    ensures Prepared(h, h, stack, false, 0, reg1, env, reg1)
  {}

  lemma RestCell(h: seq<Cell>, stack: seq<Word>, e: nat, g: seq<Cell>, env: Word, rest: Word, closureEnv: Word)
    requires stack != [] && Distinct(stack) && stack[0] < |h| && h[stack[0]].typ == CONS
    requires Built(h, stack[1..], e, g, env, rest, NIL)
    ensures var c := stack[0];
      Prepared(h, g[c := g[c].(cdr := closureEnv, car := rest)], stack, true, e, c, env, closureEnv)
  {
    var c := stack[0];
    var g' := g[c := g[c].(cdr := closureEnv, car := rest)];
    assert stack[1..][e..] == stack[1 + e..] && stack[1..][..e] == stack[1..1 + e];
    assert c !in stack[1 + e..] && c !in stack[1..1 + e];
    RevIn(stack[1..1 + e]);
    ChainFrame(g, g', env, stack[1 + e..], NIL);
    ChainFrame(g, g', rest, Rev<Word>(stack[1..1 + e]), NIL);
    assert stack[..1 + e] == [c] + stack[1..1 + e];
    assert [c][1..] == [];
    assert Chain(g', c, [c], closureEnv);
    assert forall i: Word | i < |h| && i !in stack[..1 + e] :: g'[i] == h[i];
    assert forall x | x in stack[1..1 + e] && x < |h| :: g'[x].car == h[x].car;
  }

  /** A callee's environment: its arguments in order, the ones for a rest parameter in a list of their
      own, and behind them the environment of the closure. */
  ghost predicate Environment(h: seq<Cell>, p: Word, args: seq<Word>, params: Option<nat>, closureEnv: Word) {
    var f := |args| - Extra(|args|, params);
    if params.None? then Lists(h, p, args, closureEnv)
    else exists r :: Lists(h, p, args[..f] + [r], closureEnv) && Lists(h, r, args[f..], NIL)
  }

  /** f arguments, or all if there are fewer, then a list of the others, then the closure's environment. */
  ghost predicate WithRest(h: seq<Cell>, p: Word, args: seq<Word>, f: nat, closureEnv: Word) {
    var n := if |args| < f then |args| else f;
    exists r :: Lists(h, p, args[..n] + [r], closureEnv) && Lists(h, r, args[n..], NIL)
  }

  /** The byte in front of a procedure with f fixed parameters and a rest parameter. */
  ghost function Complement(f: nat): int {
    (-(f + 1)) % 256
  }

  /** What the entry byte of a procedure promises its body: below 0x80 it is the number of parameters, and
      the complement of f stands for f of them and a rest parameter. */
  ghost predicate Found(h: seq<Cell>, p: Word, args: seq<Word>, entryByte: Byte, closureEnv: Word) {
    && (entryByte < 0x80 ==> Lists(h, p, args, closureEnv))
    && (forall f: nat | f < 0x80 && entryByte == Complement(f) :: WithRest(h, p, args, f, closureEnv))
  }

  /** The arguments of a call, first one first; on the stack the last one is on top. */
  ghost function Args(h: seq<Cell>, cells: seq<Word>): (r: seq<Word>)
    requires Inside(h, cells)
    ensures |r| == |cells|
  {
    Rev<Word>(Values(h, cells))
  }

  /** A chain through reversed cells lists the arguments. */
  lemma ListsArgs(h: seq<Cell>, k: seq<Cell>, p: Word, cells: seq<Word>, end: Word)
    requires Chain(k, p, Rev<Word>(cells), end) && |k| == |h| && Inside(h, cells)
    requires forall i | 0 <= i < |cells| :: k[cells[i]].car == h[cells[i]].car
    ensures Inside(k, Rev<Word>(cells)) && Values(k, Rev<Word>(cells)) == Args(h, cells)
    ensures Lists(k, p, Args(h, cells), end)
  {
    forall i | 0 <= i < |cells| ensures Rev<Word>(cells)[i] < |k| && k[Rev<Word>(cells)[i]].car == Args(h, cells)[i] {
      RevAt<Word>(cells, i);
      RevAt<Word>(Values(h, cells), i);
    }
    assert Values(k, Rev<Word>(cells)) == Args(h, cells);
  }

  lemma ArgsSplit(h: seq<Cell>, cells: seq<Word>, e: nat)
    requires Inside(h, cells) && e <= |cells|
    ensures Args(h, cells)[..|cells| - e] == Args(h, cells[e..]) && Args(h, cells)[|cells| - e..] == Args(h, cells[..e])
  {
    var n := |cells|;
    forall i | 0 <= i < n
      ensures Args(h, cells)[i] == if i < n - e then Args(h, cells[e..])[i] else Args(h, cells[..e])[i - (n - e)]
    {
      RevAt<Word>(Values(h, cells), i);
      if i < n - e {
        RevAt<Word>(Values(h, cells[e..]), i);
      } else {
        RevAt<Word>(Values(h, cells[..e]), i - (n - e));
      }
    }
  }

  /** Relinking leaves the values where they were. */
  lemma SameCars(h: seq<Cell>, g: seq<Cell>, k: seq<Cell>, stack: seq<Word>, rest: bool, e: nat, n: nat,
                 reg1: Word, env: Word, closureEnv: Word)
    requires Distinct(stack) && Inside(h, stack) && e <= n && 1 + n <= |stack|
    requires Prepared(h, g, stack, rest, e, reg1, env, closureEnv) && Relinked(g, k, stack[1 + e..1 + n])
    ensures |k| == |g| == |h| && k[stack[0]] == g[stack[0]]
    ensures forall i | 1 <= i <= n :: k[stack[i]].car == h[stack[i]].car
    ensures forall i | 1 <= i <= e :: k[stack[i]] == g[stack[i]]
  {
    var fixed := stack[1 + e..1 + n];
    assert forall i | 0 <= i <= e :: stack[i] !in fixed;
    forall i | 1 <= i <= n ensures k[stack[i]].car == h[stack[i]].car {
      if i > e {
        assert stack[i] == fixed[i - 1 - e] && stack[i] !in stack[..1 + e];
      } else {
        assert stack[i] == stack[1..1 + e][i - 1];
      }
    }
  }

  /** The closure's cell ends the arguments and holds the rest list. */
  lemma RestPart(h: seq<Cell>, g: seq<Cell>, k: seq<Cell>, p: Word, fixed: seq<Word>, extra: seq<Word>, c: Word,
                 closureEnv: Word)
    requires |k| == |g| == |h| && Inside(h, fixed) && Inside(h, extra) && c < |h| && k[c] == g[c]
    requires Chain(k, p, Rev<Word>(fixed), c) && Chain(g, c, [c], closureEnv)
    requires Chain(g, g[c].car, Rev<Word>(extra), NIL)
    requires forall i | 0 <= i < |fixed| :: k[fixed[i]].car == h[fixed[i]].car
    requires forall i | 0 <= i < |extra| :: k[extra[i]] == g[extra[i]] && k[extra[i]].car == h[extra[i]].car
    ensures Lists(k, p, Args(h, fixed) + [g[c].car], closureEnv) && Lists(k, g[c].car, Args(h, extra), NIL)
  {
    hide Chain;
    ListsArgs(h, k, p, fixed, c);
    ChainFrame(g, k, c, [c], closureEnv);
    ChainJoin(k, p, Rev<Word>(fixed), c, [c], closureEnv);
    var all := Rev<Word>(fixed) + [c];
    assert Inside(k, all) && Values(k, all) == Args(h, fixed) + [g[c].car];
    forall x | x in Rev<Word>(extra) ensures x in extra {
      RevIn(extra);
    }
    ChainFrame(g, k, g[c].car, Rev<Word>(extra), NIL);
    ListsArgs(h, k, g[c].car, extra, NIL);
  }

  /** prepare_arguments and build_environment together make the callee's environment. */
  lemma BuildsEnvironment(h: seq<Cell>, g: seq<Cell>, k: seq<Cell>, stack: seq<Word>, params: Option<nat>, n: nat,
                          reg1: Word, env: Word, p: Word, closureEnv: Word)
    requires Distinct(stack) && Inside(h, stack) && 1 + n <= |stack|
    requires Prepared(h, g, stack, params.Some?, Extra(n, params), reg1, env, closureEnv)
    requires Relinked(g, k, stack[1 + Extra(n, params)..1 + n])
    requires Chain(k, p, Rev<Word>(stack[1 + Extra(n, params)..1 + n]), reg1)
    ensures Environment(k, p, Args(h, stack[1..1 + n]), params, closureEnv)
  {
    hide Relinked, Args, Chain, Lists;
    var e := Extra(n, params);
    var cells, fixed, extra := stack[1..1 + n], stack[1 + e..1 + n], stack[1..1 + e];
    SameCars(h, g, k, stack, params.Some?, e, n, reg1, env, closureEnv);
    assert cells[e..] == fixed && cells[..e] == extra;
    ArgsSplit(h, cells, e);
    if params.Some? {
      RestPart(h, g, k, p, fixed, extra, stack[0], closureEnv);
    } else {
      ListsArgs(h, k, p, fixed, reg1);
    }
  }

  /** Lists stay as they are as long as live cells do. */
  lemma ListsKept(h: seq<Cell>, g: seq<Cell>, live: set<int>, p: Word, values: seq<Word>, end: Word)
    requires Lists(h, p, values, end) && Closed(h, live) && (p < |h| ==> p in live) && |g| == |h|
    requires forall i | 0 <= i < |h| :: !h[i].mark
    requires forall i | i in live :: g[i] == h[i]
    ensures Lists(g, p, values, end)
    ensures forall v: Word | v in values && v < |h| :: v in live
  {
    var cells :| Chain(h, p, cells, end) && Inside(h, cells) && Values(h, cells) == values;
    ChainLive(h, live, p, cells, end);
    ChainCells(h, p, cells, end);
    ChainFrame(h, g, p, cells, end);
    assert forall i | 0 <= i < |cells| :: cells[i] in cells;
    assert Values(g, cells) == values;
    forall v: Word | v in values && v < |h| ensures v in live {
      var i :| 0 <= i < |cells| && values[i] == v;
      assert v in h[cells[i]].Links() && Open(h, v);
    }
  }

  lemma EnvironmentKept(h: seq<Cell>, g: seq<Cell>, live: set<int>, p: Word, args: seq<Word>, params: Option<nat>,
                        end: Word)
    requires Environment(h, p, args, params, end) && Closed(h, live) && (p < |h| ==> p in live) && |g| == |h|
    requires forall i | 0 <= i < |h| :: !h[i].mark
    requires forall i | i in live :: g[i] == h[i]
    ensures Environment(g, p, args, params, end)
  {
    if params.None? {
      ListsKept(h, g, live, p, args, end);
    } else {
      var f := |args| - Extra(|args|, params);
      var r :| Lists(h, p, args[..f] + [r], end) && Lists(h, r, args[f..], NIL);
      ListsKept(h, g, live, p, args[..f] + [r], end);
      assert r in args[..f] + [r];
      ListsKept(h, g, live, r, args[f..], NIL);
    }
  }

  /** How many of n arguments are left on the stack for the fixed parameters. */
  ghost predicate FixedLeft(entryByte: Byte, n: nat, left: int) {
    && (entryByte < 0x80 ==> left == n)
    && (forall f: nat | f < 0x80 && entryByte == Complement(f) :: left == if n < f then n else f)
  }

  lemma EntryByteLeaves(entryByte: Byte, n: nat)
    ensures FixedLeft(entryByte, n, n - Extra(n, ParamsOf(entryByte)))
  {}

  /** So the environment of a call is what the entry byte promises. */
  lemma EntryByteFound(h: seq<Cell>, p: Word, args: seq<Word>, entryByte: Byte, closureEnv: Word)
    ensures Environment(h, p, args, ParamsOf(entryByte), closureEnv) ==> Found(h, p, args, entryByte, closureEnv)
  {
    hide Lists;
    if Environment(h, p, args, ParamsOf(entryByte), closureEnv) {
      forall f: nat | f < 0x80 && entryByte == Complement(f) ensures WithRest(h, p, args, f, closureEnv) {
        assert ParamsOf(entryByte) == Some(f);
      }
    }
  }

  /** Arguments and closure environment can be reached from the environment. */
  lemma EnvironmentLive(h: seq<Cell>, live: set<int>, p: Word, args: seq<Word>, params: Option<nat>, end: Word)
    requires Environment(h, p, args, params, end) && Closed(h, live) && (p < |h| ==> p in live)
    requires forall i | 0 <= i < |h| :: !h[i].mark
    ensures (forall v: Word | v in args && v < |h| :: v in live) && (end < |h| ==> end in live)
  {
    if params.None? {
      ListsLive(h, live, p, args, end);
    } else {
      var f := |args| - Extra(|args|, params);
      var r :| Lists(h, p, args[..f] + [r], end) && Lists(h, r, args[f..], NIL);
      ListsLive(h, live, p, args[..f] + [r], end);
      assert r in args[..f] + [r];
      ListsLive(h, live, r, args[f..], NIL);
      assert forall v | v in args :: v in args[..f] + [r] || v in args[f..];
    }
  }

  lemma ListsLive(h: seq<Cell>, live: set<int>, p: Word, values: seq<Word>, end: Word)
    requires Lists(h, p, values, end) && Closed(h, live) && (p < |h| ==> p in live)
    requires forall i | 0 <= i < |h| :: !h[i].mark
    ensures (forall v: Word | v in values && v < |h| :: v in live) && (end < |h| ==> end in live)
  {
    ListsKept(h, h, live, p, values, end);
    var cells :| Chain(h, p, cells, end) && Inside(h, cells) && Values(h, cells) == values;
    ChainLive(h, live, p, cells, end);
  }

  lemma ArgsAre(h: seq<Cell>, stack: seq<Word>, n: nat)
    requires 1 + n <= |stack| && Inside(h, stack)
    ensures Inside(h, stack[1..1 + n])
    ensures forall i | 1 <= i <= n ::
      Args(h, stack[1..1 + n])[n - i] == h[stack[i]].car && h[stack[i]].car in Args(h, stack[1..1 + n])
  {
    var cells := stack[1..1 + n];
    forall i | 1 <= i <= n
      ensures Args(h, cells)[n - i] == h[stack[i]].car && h[stack[i]].car in Args(h, cells)
    {
      RevAt<Word>(Values(h, cells), n - i);
      assert cells[i - 1] == stack[i];
      assert Args(h, cells)[n - i] in Args(h, cells);
    }
  }

  /** Only the cells that a call takes are different after it has built the environment. */
  lemma OnlyRelinked(h: seq<Cell>, g: seq<Cell>, k: seq<Cell>, stack: seq<Word>, rest: bool, e: nat, n: nat,
                     reg1: Word, env: Word, closureEnv: Word)
    requires e <= n && 1 + n <= |stack|
    requires Prepared(h, g, stack, rest, e, reg1, env, closureEnv) && Relinked(g, k, stack[1 + e..1 + n])
    ensures |k| == |h| && forall i | 0 <= i < |h| && i !in stack[..1 + n] :: k[i] == h[i]
  {
    forall i | 0 <= i < |h| && i !in stack[..1 + n] ensures k[i] == h[i] {
      var w: Word := i;
      assert stack[..1 + n] == stack[..1 + e] + stack[1 + e..1 + n];
      assert w !in stack[..1 + e] && w !in stack[1 + e..1 + n];
    }
  }

  /** All that a call's first half does to memory. */
  lemma CallBuilt(h: seq<Cell>, g: seq<Cell>, k: seq<Cell>, stack: seq<Word>, params: Option<nat>, n: nat,
                  reg1: Word, env: Word, p: Word, closureEnv: Word)
    requires Distinct(stack) && Inside(h, stack) && 1 + n <= |stack|
    requires Prepared(h, g, stack, params.Some?, Extra(n, params), reg1, env, closureEnv)
    requires var e := Extra(n, params); var rest := stack[1 + e..];
      n - e <= |rest| && Relinked(g, k, rest[..n - e]) && Chain(k, p, Rev<Word>(rest[..n - e]), reg1)
    ensures Environment(k, p, Args(h, stack[1..1 + n]), params, closureEnv)
    ensures |k| == |h| && forall i | 0 <= i < |h| && i !in stack[..1 + n] :: k[i] == h[i]
    ensures forall c | c in stack[1 + n..] :: c < |h| && k[c] == h[c]
    ensures var e := Extra(n, params); stack[1 + e..][n - e..] == stack[1 + n..]
  {
    hide Prepared, Relinked, Args, Values, Chain, Environment;
    var e := Extra(n, params);
    assert stack[1 + e..][..n - e] == stack[1 + e..1 + n];
    BuildsEnvironment(h, g, k, stack, params, n, reg1, env, p, closureEnv);
    BelowKept(h, g, k, stack, params.Some?, e, n, reg1, env, closureEnv);
    OnlyRelinked(h, g, k, stack, params.Some?, e, n, reg1, env, closureEnv);
  }

  /** One cell taken off the stack and put in front of what has been built. */
  lemma Relink(h: seq<Cell>, stack: seq<Word>, k: nat, g: seq<Cell>, env: Word, built: Word, tail: Word)
    requires Distinct(stack) && k < |stack| && Built(h, stack, k, g, env, built, tail)
    ensures env < |g| && Built(h, stack, k + 1, g[env := g[env].(cdr := built)], g[env].cdr, env, tail)
  {
    var rest, done := stack[k + 1..], Rev<Word>(stack[..k]);
    assert stack[k..][1..] == rest && stack[..k + 1] == stack[..k] + [env];
    RevIn(stack[..k]);
    RevMore(stack, k);
    var g' := g[env := g[env].(cdr := built)];
    assert env !in rest && env !in stack[..k];
    ChainFrame(g, g', g[env].cdr, rest, NIL);
    ChainFrame(g, g', built, done, tail);
    assert ([env] + done)[1..] == done;
  }

  lemma {:induction false} RevIn(s: seq<Word>)
    ensures forall x | x in Rev<Word>(s) :: x in s
  {
    if s != [] {
      RevIn(s[1..]);
    }
  }

  lemma {:induction false} RevMore(s: seq<Word>, k: nat)
    requires k < |s|
    ensures Rev<Word>(s[..k + 1]) == [s[k]] + Rev<Word>(s[..k])
  {
    if k > 0 {
      RevMore(s[1..], k - 1);
      assert s[..k + 1][1..] == s[1..][..k] && s[..k][1..] == s[1..][..k - 1];
    } else {
      assert s[..1][1..] == [];
    }
  }

  lemma BuildStart(h: seq<Cell>, stack: seq<Word>, env: Word, tail: Word)
    requires Chain(h, env, stack, NIL) && |h| <= NIL
    ensures Built(h, stack, 0, h, env, tail, tail) && Distinct(stack)
  {
    ChainDistinct(h, env, stack, NIL);
    assert stack[0..] == stack;
  }

  lemma PreparedStack(h: seq<Cell>, g: seq<Cell>, stack: seq<Word>, rest: bool, e: nat, reg1: Word, env: Word,
                      closureEnv: Word)
    requires 1 + e <= |stack| && Prepared(h, g, stack, rest, e, reg1, env, closureEnv)
    ensures Chain(g, env, stack[1 + e..], NIL)
  {}

  /** Nothing below the arguments is touched. */
  lemma BelowKept(h: seq<Cell>, g: seq<Cell>, k: seq<Cell>, stack: seq<Word>, rest: bool, e: nat, n: nat,
                  reg1: Word, env: Word, closureEnv: Word)
    requires Distinct(stack) && Inside(h, stack) && e <= n && 1 + n <= |stack|
    requires Prepared(h, g, stack, rest, e, reg1, env, closureEnv) && Relinked(g, k, stack[1 + e..1 + n])
    ensures |k| == |h| && forall c | c in stack[1 + n..] :: c < |h| && k[c] == h[c]
  {
    forall c | c in stack[1 + n..] ensures c < |h| && k[c] == h[c] {
      var i :| 0 <= i < |stack[1 + n..]| && stack[1 + n..][i] == c;
      assert c == stack[1 + n + i] && c !in stack[1 + e..1 + n] && c !in stack[..1 + e];
    }
  }

  lemma ToplevelEnvironment(h: seq<Cell>, k: seq<Cell>, stack: seq<Word>, n: nat, p: Word)
    requires n <= |stack| && Inside(h, stack) && Distinct(stack) && Relinked(h, k, stack[..n])
    requires Chain(k, p, Rev<Word>(stack[..n]), NIL)
    ensures Environment(k, p, Args(h, stack[..n]), None, NIL)
    ensures |k| == |h| && forall c | c in stack[n..] :: c < |h| && k[c] == h[c]
  {
    ListsArgs(h, k, p, stack[..n], NIL);
    forall c | c in stack[n..] ensures c < |h| && k[c] == h[c] {
      var i :| 0 <= i < |stack[n..]| && stack[n..][i] == c;
      assert c == stack[n + i] && c !in stack[..n];
    }
  }
}
