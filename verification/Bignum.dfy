/** Arbitrary-precision arithmetic on the collected heap (main/bignum.c).

    Every new_bignum may run the collector.  The contracts therefore speak of roots: the
    addresses that stay registered during the whole call.  All cells they reach are left exactly
    as they were, operands have to be among them, and the result is correct whatever the
    collector did. */
module Bignum {
  import opened Cells
  import opened Wrappers
  import opened Numbers
  import opened Memory
  import opened Arithmetic

  /** All cells reachable from roots are the same, with the same contents. */
  ghost predicate Intact(h: seq<Cell>, g: seq<Cell>, roots: set<int>) {
    && |h| == |g| && Reach(g, roots) == Reach(h, roots)
    && forall i | i in Reach(h, roots) :: 0 <= i < |h| && g[i] == h[i]
  }

  lemma IntactTrans(h: seq<Cell>, g: seq<Cell>, f: seq<Cell>, roots: set<int>)
    requires Intact(h, g, roots) && Intact(g, f, roots)
    ensures Intact(h, f, roots)
  {}

  /** The integer v at address x, registered through roots; its cells are within chain. */
  ghost predicate Operand(m: Mem, roots: set<int>, x: Word, v: int, chain: set<int>) {
    && Rep(m, x, v) && DigitCells(m, x, v) <= chain
    && (m.InRam(x) ==> x in Reach(m.ram, roots))
  }

  /** What integer_lo, integer_hi and the tests against ZERO and NEG1 say about an operand. */
  lemma OperandParts(m: Mem, roots: set<int>, x: Word, v: int, chain: set<int>)
    requires m.Sane() && Operand(m, roots, x, v, chain)
    ensures m.Lo(x) == v % B && Operand(m, roots, m.Hi(x), v / B, chain)
    ensures (x == ZERO <==> v == 0) && (x == NEG1 <==> v == -1)
  {
    RepParts(m, x, v);
    ReachClosed(m.ram, roots);
    var y := m.Hi(x);
    if m.InRam(x) && m.InRam(y) {
      assert Rep(m, x, v) && m.At(x).typ == BIGNUM;
      assert y in m.ram[x].Links() && Open(m.ram, y);
    }
  }

  lemma OperandKept(m: Mem, g: Mem, roots: set<int>, x: Word, v: int, chain: set<int>)
    requires m.Sane() && g.reserved == m.reserved && g.rom == m.rom
    requires Operand(m, roots, x, v, chain) && Intact(m.ram, g.ram, roots)
    ensures Operand(g, roots, x, v, chain)
  {
    ReachClosed(m.ram, roots);
    ChainHeld(m, x, v, Reach(m.ram, roots));
    RepFrame(m, g, x, v);
  }

  function IntegerLo(m: Machine, x: Word): (d: Word)
    reads m, m.ram
    ensures d == m.View().Lo(x)
  {
    if m.reserved <= x < m.ram.Length then m.ram[x].cdr
    else if ROM_START <= x < SMALL_INT_START && x - ROM_START < |m.rom| then m.rom[x - ROM_START].cdr
    else (x % 512 - 1) % B
  }

  function IntegerHi(m: Machine, x: Word): (y: Word)
    reads m, m.ram
    ensures y == m.View().Hi(x)
  {
    if m.reserved <= x < m.ram.Length then m.ram[x].car
    else if ROM_START <= x < SMALL_INT_START && x - ROM_START < |m.rom| then m.rom[x - ROM_START].car
    else if x == NEG1 then NEG1
    else ZERO
  }

  /** An operation under way: besides roots there is one more root q, the digits built so far,
      which nothing else leads to. */
  ghost predicate Building(m: Machine, roots: set<int>, q: Word, cells: seq<Word>, ds: seq<Word>)
    reads m, m.ram
  {
    && m.Valid() && m.Roots() == roots + {q as int}
    && Prefix(m.View(), q, cells, ds)
    && forall c | c in cells :: c !in Reach(m.ram[..], roots)
  }

  lemma BuildingLive(m: Machine, roots: set<int>, q: Word, cells: seq<Word>, ds: seq<Word>)
    requires Building(m, roots, q, cells, ds)
    ensures m.Live() == Reach(m.ram[..], roots) + Elements(cells)
  {
    PrefixLive(m.View(), roots, q, cells, ds);
  }

  lemma PrefixLive(m: Mem, roots: set<int>, q: Word, cells: seq<Word>, ds: seq<Word>)
    requires m.Sane() && Prefix(m, q, cells, ds)
    ensures Reach(m.ram, roots + {q as int}) == Reach(m.ram, roots) + Elements(cells)
  {
    var old_roots, r := roots + {q as int}, Reach(m.ram, roots);
    ReachClosed(m.ram, roots);
    ReachClosed(m.ram, old_roots);
    ReachMonotone(m.ram, roots, old_roots);
    PrefixClosed(m, q, cells, ds, r);
    if |cells| > 0 {
      PrefixPop(m, q, cells, ds);
    }
    assert |cells| > 0 ==> q as int in Elements(cells) && Open(m.ram, q);
    hide Reach, Prefix;
    assert Holds(m.ram, old_roots, r + Elements(cells));
    ReachLeast(m.ram, old_roots, r + Elements(cells));
    PrefixReached(m, q, cells, ds, Reach(m.ram, old_roots));
  }

  ghost predicate Exhausted(m: Machine)
    reads m, m.ram
  {
    m.Valid() && forall i | m.reserved <= i < m.ram.Length :: i in m.Live()
  }

  /** The roots without bignum_tmp1. */
  ghost function RootsBut1(m: Machine): set<int>
    reads m
  {
    m.Globals() + {m.reg1, m.reg2, m.reg3, m.reg4, m.cont, m.env, m.tmp2, m.tmp3, m.tmp4, m.tmp5}
  }

  /** bignum_tmp1 = NIL starts a list of digits. */
  method Start(m: Machine, ghost v: int)
    requires m.Valid()
    modifies m`tmp1
    ensures m.tmp1 == NIL && Building(m, RootsBut1(m), m.tmp1, [], [])
    ensures Intact(m.ram[..], m.ram[..], RootsBut1(m)) && Join([], v) == v
  {
    hide Reach;
    ReachMonotone(m.ram[..], RootsBut1(m), m.Roots());
    m.tmp1 := NIL;
    PrefixLive(m.View(), RootsBut1(m), NIL, [], []);
    ReachClosed(m.ram[..], RootsBut1(m));
    assert m.Roots() == RootsBut1(m) + {NIL as int};
  }

  lemma Operands(m: Machine, roots: set<int>, x: Word, v: int, chain: set<int>, cells: seq<Word>, ds: seq<Word>)
    requires Building(m, roots, m.tmp1, cells, ds) && Operand(m.View(), roots, x, v, chain)
    ensures m.View().Lo(x) == v % B && Operand(m.View(), roots, m.View().Hi(x), v / B, chain)
    ensures (x == ZERO <==> v == 0) && (x == NEG1 <==> v == -1) && m.View().Sane()
  {
    OperandParts(m.View(), roots, x, v, chain);
  }

  lemma Pushed(o: Mem, b: Mem, m: Machine, roots: set<int>, x: Word, v: int, chain: set<int>)
    requires b.Sane() && m.View().rom == b.rom && m.View().reserved == b.reserved
    requires Intact(o.ram, b.ram, roots) && Intact(b.ram, m.ram[..], roots) && Operand(b, roots, x, v, chain)
    ensures Intact(o.ram, m.ram[..], roots) && Operand(m.View(), roots, x, v, chain)
  {
    OperandKept(b, m.View(), roots, x, v, chain);
  }

  /** bignum_tmp1 = new_bignum(d, bignum_tmp1) */
  method PushDigit(m: Machine, d: Word, ghost cells: seq<Word>, ghost ds: seq<Word>) returns (r: Option<()>)
    requires Building(m, RootsBut1(m), m.tmp1, cells, ds)
    modifies m.ram, m`freeCells, m`free, m`usedCells, m`freeCount, m`tmp1
    ensures Intact(old(m.ram[..]), m.ram[..], RootsBut1(m))
    ensures r.None? ==> Exhausted(m)
    ensures r.Some? ==> Building(m, RootsBut1(m), m.tmp1, cells + [m.tmp1], ds + [d])
  {
    ghost var o, roots := m.View(), RootsBut1(m);
    BuildingLive(m, roots, m.tmp1, cells, ds);
    var p := m.NewBignum(d, m.tmp1);
    if p.None? {
      AllocatedKeeps(o, m.View(), roots, m.tmp1, cells, ds, m.Live());
      return None;
    }
    AllocatedKeeps(o, m.View(), roots, m.tmp1, cells, ds, m.Live());
    PrefixSnoc(m.View(), m.tmp1, cells, ds, p.value, d);
    ghost var live := m.Live();
    Adopt(m.View(), m.Roots(), roots + {p.value as int}, p.value);
    m.tmp1 := p.value;
    assert m.Roots() == roots + {m.tmp1 as int};
    return Some(());
  }

  lemma AllocatedKeeps(m: Mem, g: Mem, roots: set<int>, q: Word, cells: seq<Word>, ds: seq<Word>, live: set<int>)
    requires m.Sane() && g.Sane() && |g.ram| == |m.ram| && g.reserved == m.reserved
    requires Prefix(m, q, cells, ds) && live == Reach(m.ram, roots) + Elements(cells)
    requires forall i | i in live :: 0 <= i < |m.ram| && g.ram[i] == m.ram[i]
    ensures Intact(m.ram, g.ram, roots) && Prefix(g, q, cells, ds)
  {
    ReachFrame(m.ram, g.ram, roots);
    forall c | c in cells ensures c as int in live {
      var i :| 0 <= i < |cells| && cells[i] == c;
    }
    PrefixFrame(m, g, q, cells, ds);
  }

  /** Registering a cell whose links are registered adds that cell to the live ones, at most. */
  lemma Adopt(m: Mem, old_roots: set<int>, roots: set<int>, p: Word)
    requires m.Sane() && m.InRam(p) && roots <= old_roots + {p as int}
    requires forall q | q in m.ram[p].Links() && Open(m.ram, q) :: q in old_roots
    ensures Reach(m.ram, roots) <= Reach(m.ram, old_roots) + {p as int}
  {
    var s := Reach(m.ram, old_roots) + {p as int};
    ReachClosed(m.ram, old_roots);
    ReachLeast(m.ram, roots, s);
  }

  /** One round of norm that keeps the digit: its cell is linked to the rest. */
  lemma NormKeeps(m: Mem, g: Mem, q: Word, n: Word, cells: seq<Word>, ds: seq<Word>, w: int)
    requires m.Sane() && Prefix(m, q, cells, ds) && |cells| > 0 && Rep(m, n, w)
    requires forall c | c in cells :: c as int !in DigitCells(m, n, w)
    requires var d := ds[|ds| - 1]; !(w == 0 && d <= 255) && !(w == -1 && d == B - 1)
    requires q < |m.ram| && g == m.(ram := m.ram[q := m.ram[q].(car := n)])
    ensures var k := |cells| - 1;
      && Prefix(g, m.ram[q].car, cells[..k], ds[..k])
      && Rep(g, q, ds[k] + B * w) && DigitCells(g, q, ds[k] + B * w) == {q as int} + DigitCells(m, n, w)
      && forall c | c in cells[..k] :: c as int !in DigitCells(g, q, ds[k] + B * w)
  {
    PrefixPop(m, q, cells, ds);
    var k := |cells| - 1;
    PrefixFrame(m, g, m.ram[q].car, cells[..k], ds[..k]);
    ChainInRam(m, n, w);
    assert q in cells;
    RepFrame(m, g, n, w);
    var v := ds[k] + B * w;
    assert !(-1 <= v <= 255) && v % B == ds[k] && v / B == w;
    assert forall c | c in cells[..k] :: c in cells;
  }

  /** norm: the digits of a list in front of n, most significant first, relinked in place.  Only
      the list's own cells are written, and only their left links. */
  method Norm(m: Machine, prefix0: Word, n0: Word, ghost cells: seq<Word>, ghost ds: seq<Word>, ghost v: int)
      returns (n: Word)
    requires m.View().Sane() && Prefix(m.View(), prefix0, cells, ds) && Rep(m.View(), n0, v)
    requires forall c | c in cells :: c as int !in DigitCells(m.View(), n0, v)
    modifies m.ram
    ensures Rep(m.View(), n, Join(ds, v))
    ensures DigitCells(m.View(), n, Join(ds, v)) <= old(DigitCells(m.View(), n0, v)) + Elements(cells)
    ensures PrefixRelinked(old(m.ram[..]), m.ram[..], cells)
  {
    hide Rep, DigitCells, Prefix, Join, Elements;
    ghost var o, chain := m.ram[..], DigitCells(m.View(), n0, v);
    ghost var k, w := |cells|, v;
    var prefix := prefix0;
    n := n0;
    NormStart(m.View(), prefix, cells, ds);
    while prefix != NIL
      invariant 0 <= k <= |cells| == |ds| && Prefix(m.View(), prefix, cells[..k], ds[..k])
      invariant m.View().Sane() && Rep(m.View(), n, w) && Join(ds[..k], w) == Join(ds, v)
      invariant DigitCells(m.View(), n, w) <= chain + Elements(cells)
      invariant forall c | c in cells[..k] :: c as int !in DigitCells(m.View(), n, w)
      invariant PrefixRelinked(o, m.ram[..], cells)
      decreases k
    {
      ghost var b := m.View();
      NormDigit(b, prefix, cells, ds, k, w);
      NumberEnds(b, n, w);
      var d := IntegerLo(m, prefix);
      var temp := prefix;
      prefix := IntegerHi(m, temp);
      k := k - 1;
      if n == ZERO && d <= 255 {
        n := Small(d);
        SmallRep(b, d);
      } else if n == NEG1 && d >= B - 1 {
        n := Small(d - B);
        SmallRep(b, -1);
      } else {
        m.ram[temp] := m.ram[temp].(car := n);
        assert m.View() == b.(ram := b.ram[temp := b.ram[temp].(car := n)]);
        NormKeeps(b, m.View(), temp, n, cells[..k + 1], ds[..k + 1], w);
        n := temp;
      }
      w := d + B * w;
    }
    NormEnd(m.View(), cells, ds, k, w);
  }

  lemma NormStart(m: Mem, q: Word, cells: seq<Word>, ds: seq<Word>)
    requires Prefix(m, q, cells, ds)
    ensures |cells| == |ds| && cells[..|cells|] == cells && ds[..|cells|] == ds
  {}

  lemma NormDigit(m: Mem, q: Word, cells: seq<Word>, ds: seq<Word>, k: int, w: int)
    requires 0 <= k <= |cells| == |ds| && Prefix(m, q, cells[..k], ds[..k]) && q != NIL
    ensures k > 0 && m.InRam(q) && q == cells[k - 1] && q as int in Elements(cells)
    ensures m.Lo(q) == ds[k - 1] && Prefix(m, m.Hi(q), cells[..k - 1], ds[..k - 1])
    ensures cells[..k][..k - 1] == cells[..k - 1] && ds[..k][..k - 1] == ds[..k - 1]
    ensures Join(ds[..k], w) == Join(ds[..k - 1], ds[k - 1] + B * w)
  {
    PrefixPop(m, q, cells[..k], ds[..k]);
    assert cells[..k][..k - 1] == cells[..k - 1] && ds[..k][..k - 1] == ds[..k - 1];
  }

  lemma NumberEnds(m: Mem, n: Word, w: int)
    requires m.Sane() && Rep(m, n, w)
    ensures (n == ZERO <==> w == 0) && (n == NEG1 <==> w == -1)
  {
    RepParts(m, n, w);
  }

  lemma SmallRep(m: Mem, v: int)
    requires -1 <= v <= 255
    ensures Rep(m, Small(v), v) && DigitCells(m, Small(v), v) == {}
  {}

  lemma NormEnd(m: Mem, cells: seq<Word>, ds: seq<Word>, k: int, w: int)
    requires 0 <= k <= |cells| == |ds| && Prefix(m, NIL, cells[..k], ds[..k]) && |m.ram| < ROM_START
    ensures Join(ds[..k], w) == w
  {
    if k > 0 {
      PrefixPop(m, NIL, cells[..k], ds[..k]);
    }
  }

  ghost predicate PrefixRelinked(h: seq<Cell>, g: seq<Cell>, cells: seq<Word>) {
    && |h| == |g|
    && (forall i | 0 <= i < |h| && i !in cells :: g[i] == h[i])
    && (forall i | 0 <= i < |h| :: g[i] == h[i].(car := g[i].car))
  }

  /** What an arithmetic routine leaves behind: the result v at address r, none of whose cells is
      free, and which shares no registered cell but those of chain. */
  ghost predicate Result(m: Machine, roots: set<int>, r: Word, v: int, chain: set<int>)
    reads m, m.ram
  {
    && m.Valid() && Rep(m.View(), r, v)
    && forall c | c in DigitCells(m.View(), r, v) :: c !in m.free && (c in Reach(m.ram[..], roots) ==> c in chain)
  }

  /** The common end: bignum_tmp1 = norm(bignum_tmp1, n), clear the root, return. */
  method Finish(m: Machine, n: Word, ghost cells: seq<Word>, ghost ds: seq<Word>, ghost v: int, ghost chain: set<int>)
      returns (r: Word)
    requires Building(m, RootsBut1(m), m.tmp1, cells, ds) && Rep(m.View(), n, v)
    requires forall c | c in DigitCells(m.View(), n, v) :: c !in cells && c !in m.free
    requires forall c | c in DigitCells(m.View(), n, v) :: c in Reach(m.ram[..], RootsBut1(m)) ==> c in chain
    modifies m.ram, m`tmp1
    ensures Intact(old(m.ram[..]), m.ram[..], RootsBut1(m))
    ensures m.tmp1 == NIL && Result(m, RootsBut1(m), r, Join(ds, v), chain)
  {
    ghost var o, roots := m.View(), RootsBut1(m);
    BuildingLive(m, roots, m.tmp1, cells, ds);
    m.tmp1 := Norm(m, m.tmp1, n, cells, ds, v);
    r := m.tmp1;
    m.tmp1 := NIL;
    RelinkedKeeps(o, m.View(), roots, cells, m.freeCells, m.free);
    PrefixLive(m.View(), roots, NIL, [], []);
    assert m.Roots() == roots + {NIL as int};
  }

  lemma RelinkedKeeps(m: Mem, g: Mem, roots: set<int>, cells: seq<Word>, head: Word, free: seq<Word>)
    requires m.Sane() && g.reserved == m.reserved && PrefixRelinked(m.ram, g.ram, cells)
    requires forall c | c in cells :: c as int !in Reach(m.ram, roots)
    requires FreeList(m.ram, m.reserved, head, free)
    ensures Intact(m.ram, g.ram, roots) && FreeList(g.ram, m.reserved, head, free)
  {
    ReachClosed(m.ram, roots);
    ReachFrame(m.ram, g.ram, roots);
    forall k | 0 <= k < |free| ensures Threaded(g.ram, m.reserved, free, k) {
      assert Threaded(m.ram, m.reserved, free, k);
    }
  }

  function NegativeCarry(carry: bool): Word {
    if carry then NEG1 else ZERO
  }

  ghost function Magnitude(v: int): nat {
    if v < 0 then -1 - v else v
  }

  ghost function Carry(negc: Word): int {
    if negc == NEG1 then 1 else 0
  }

  ghost predicate IsCarry(negc: Word) {
    negc == ZERO || negc == NEG1
  }

  ghost function AddMeasure(a: int, b: int, negc: Word): nat {
    2 * (Magnitude(a) + Magnitude(b)) + if a == -Carry(negc) || b == -Carry(negc) then 0 else 1
  }

  /** Adding two digits and a carry with wrap-around, and why the loop comes to an end: operands
      shrink to 0 or -1, and from there the carry settles in one more round. */
  lemma AddDigits(a: int, b: int, dx0: Word, dy: Word, negc0: Word, dx: Word, negc: Word)
    requires dx0 == a % B && dy == b % B && IsCarry(negc0)
    requires dx == (if negc0 == ZERO then (dx0 + dy) % B else ((dx0 + dy) % B + 1) % B)
    requires negc == NegativeCarry(if negc0 == ZERO then dx < dy else dx <= dy)
    ensures IsCarry(negc)
    ensures a + b + Carry(negc0) == dx + B * (a / B + b / B + Carry(negc))
    ensures a != -Carry(negc0) && b != -Carry(negc0) ==> AddMeasure(a / B, b / B, negc) < AddMeasure(a, b, negc0)
  {
    assert a == dx0 + B * (a / B) && b == dy + B * (b / B);
  }

  /** add */
  method Add(m: Machine, x0: Word, y0: Word, ghost vx: int, ghost vy: int, ghost chain: set<int>)
      returns (r: Option<Word>)
    requires m.Valid()
    requires Operand(m.View(), RootsBut1(m), x0, vx, chain) && Operand(m.View(), RootsBut1(m), y0, vy, chain)
    modifies m.ram, m`freeCells, m`free, m`usedCells, m`freeCount, m`tmp1
    ensures Intact(old(m.ram[..]), m.ram[..], RootsBut1(m))
    ensures r.None? ==> Exhausted(m)
    ensures r.Some? ==> m.tmp1 == NIL && Result(m, RootsBut1(m), r.value, vx + vy, chain)
  {
    hide Operand, Building, Intact, Join, Result, Exhausted, Machine.Valid, AddMeasure, NegativeCarry;
    var x, y, negc := x0, y0, ZERO;
    ghost var o, roots := m.View(), RootsBut1(m);
    ghost var a, b := vx, vy;
    Start(m, vx + vy);
    ghost var cells: seq<Word>, ds: seq<Word> := [], [];
    while true
      invariant Building(m, roots, m.tmp1, cells, ds) && Intact(o.ram, m.ram[..], roots)
      invariant Operand(m.View(), roots, x, a, chain) && Operand(m.View(), roots, y, b, chain)
      invariant IsCarry(negc)
      invariant Join(ds, a + b + Carry(negc)) == vx + vy
      decreases AddMeasure(a, b, negc)
    {
      Operands(m, roots, x, a, chain, cells, ds);
      Operands(m, roots, y, b, chain, cells, ds);
      if x == negc {
        var s := Close(m, y, cells, ds, b, chain, o);
        return Some(s);
      }
      if y == negc {
        var s := Close(m, x, cells, ds, a, chain, o);
        return Some(s);
      }
      var dx, dy := IntegerLo(m, x), IntegerLo(m, y);
      ghost var before, dx0, negc0 := m.View(), dx, negc;
      dx := (dx + dy) % B;
      if negc == ZERO {
        negc := NegativeCarry(dx < dy);
      } else {
        dx := (dx + 1) % B;
        negc := NegativeCarry(dx <= dy);
      }
      AddDigits(a, b, dx0, dy, negc0, dx, negc);
      JoinSnoc(ds, dx, a / B + b / B + Carry(negc));
      x := IntegerHi(m, x);
      y := IntegerHi(m, y);
      var pushed := PushDigit(m, dx, cells, ds);
      Pushed(o, before, m, roots, x, a / B, chain);
      Pushed(o, before, m, roots, y, b / B, chain);
      if pushed.None? {
        return None;
      }
      cells, ds, a, b := cells + [m.tmp1], ds + [dx], a / B, b / B;
    }
  }

  lemma OperandLoose(m: Machine, roots: set<int>, n: Word, v: int, chain: set<int>, cells: seq<Word>, ds: seq<Word>)
    requires Building(m, roots, m.tmp1, cells, ds) && Operand(m.View(), roots, n, v, chain)
    ensures forall c | c in DigitCells(m.View(), n, v) :: c !in cells && c !in m.free
  {
    ReachClosed(m.ram[..], roots);
    ChainHeld(m.View(), n, v, Reach(m.ram[..], roots));
    ReachMonotone(m.ram[..], roots, m.Roots());
  }

  /** Finish, with an operand for the rest of the digits. */
  method Close(m: Machine, n: Word, ghost cells: seq<Word>, ghost ds: seq<Word>, ghost v: int, ghost chain: set<int>,
               ghost o: Mem)
      returns (r: Word)
    requires Building(m, RootsBut1(m), m.tmp1, cells, ds) && Operand(m.View(), RootsBut1(m), n, v, chain)
    requires Intact(o.ram, m.ram[..], RootsBut1(m))
    modifies m.ram, m`tmp1
    ensures Intact(o.ram, m.ram[..], RootsBut1(m))
    ensures m.tmp1 == NIL && Result(m, RootsBut1(m), r, Join(ds, v), chain)
  {
    OperandLoose(m, RootsBut1(m), n, v, chain, cells, ds);
    r := Finish(m, n, cells, ds, v, chain);
  }

  function Invert(x: Word): Word {
    if x == ZERO then NEG1 else ZERO
  }

  lemma SmallOperand(m: Mem, roots: set<int>, v: int, chain: set<int>)
    requires -1 <= v <= 255 && m.reserved < |m.ram| < ROM_START
    ensures Operand(m, roots, Small(v), v, chain)
  {}

  /** sub: x + ~y + 1, digit by digit */
  lemma SubDigits(a: int, b: int, dx0: Word, dy: Word, negc0: Word, dx: Word, negc: Word)
    requires dx0 == a % B && dy == B - 1 - b % B && IsCarry(negc0)
    requires dx == (if negc0 == ZERO then (dx0 + dy) % B else ((dx0 + dy) % B + 1) % B)
    requires negc == NegativeCarry(if negc0 == ZERO then dx < dy else dx <= dy)
    ensures IsCarry(negc)
    ensures a - 1 - b + Carry(negc0) == dx + B * (a / B - 1 - b / B + Carry(negc))
    ensures !(a == -Carry(negc0) && (b == 0 || b == -1)) && -1 - b != -Carry(negc0) ==>
      AddMeasure(a / B, -1 - b / B, negc) < AddMeasure(a, -1 - b, negc0)
  {
    assert (-1 - b) % B == dy && (-1 - b) / B == -1 - b / B by {
      assert -1 - b == dy + B * (-1 - b / B);
    }
    AddDigits(a, -1 - b, dx0, dy, negc0, dx, negc);
  }

  method Sub(m: Machine, x0: Word, y0: Word, ghost vx: int, ghost vy: int, ghost chain: set<int>)
      returns (r: Option<Word>)
    requires m.Valid()
    requires Operand(m.View(), RootsBut1(m), x0, vx, chain) && Operand(m.View(), RootsBut1(m), y0, vy, chain)
    modifies m.ram, m`freeCells, m`free, m`usedCells, m`freeCount, m`tmp1
    ensures Intact(old(m.ram[..]), m.ram[..], RootsBut1(m))
    ensures r.None? ==> Exhausted(m)
    ensures r.Some? ==> m.tmp1 == NIL && Result(m, RootsBut1(m), r.value, vx - vy, chain)
  {
    hide Operand, Building, Intact, Join, Result, Exhausted, Machine.Valid, AddMeasure, NegativeCarry;
    var x, y, negc := x0, y0, NEG1;
    ghost var o, roots := m.View(), RootsBut1(m);
    ghost var a, b := vx, vy;
    Start(m, vx - vy);
    ghost var cells: seq<Word>, ds: seq<Word> := [], [];
    while true
      invariant Building(m, roots, m.tmp1, cells, ds) && Intact(o.ram, m.ram[..], roots)
      invariant Operand(m.View(), roots, x, a, chain) && Operand(m.View(), roots, y, b, chain)
      invariant IsCarry(negc)
      invariant Join(ds, a - 1 - b + Carry(negc)) == vx - vy
      decreases AddMeasure(a, -1 - b, negc)
    {
      Operands(m, roots, x, a, chain, cells, ds);
      Operands(m, roots, y, b, chain, cells, ds);
      if x == negc && (y == ZERO || y == NEG1) {
        SmallOperand(m.View(), roots, -1 - b, chain);
        var s := Close(m, Invert(y), cells, ds, -1 - b, chain, o);
        return Some(s);
      }
      if y == Invert(negc) {
        var s := Close(m, x, cells, ds, a, chain, o);
        return Some(s);
      }
      var dx, dy := IntegerLo(m, x), B - 1 - IntegerLo(m, y);
      ghost var before, dx0, negc0 := m.View(), dx, negc;
      dx := (dx + dy) % B;
      if negc == ZERO {
        negc := NegativeCarry(dx < dy);
      } else {
        dx := (dx + 1) % B;
        negc := NegativeCarry(dx <= dy);
      }
      SubDigits(a, b, dx0, dy, negc0, dx, negc);
      JoinSnoc(ds, dx, a / B - 1 - b / B + Carry(negc));
      x := IntegerHi(m, x);
      y := IntegerHi(m, y);
      var pushed := PushDigit(m, dx, cells, ds);
      Pushed(o, before, m, roots, x, a / B, chain);
      Pushed(o, before, m, roots, y, b / B, chain);
      if pushed.None? {
        return None;
      }
      cells, ds, a, b := cells + [m.tmp1], ds + [dx], a / B, b / B;
    }
  }

  /** shr: floor division by two */
  method Shr(m: Machine, x0: Word, ghost vx: int, ghost chain: set<int>) returns (r: Option<Word>)
    requires m.Valid() && Operand(m.View(), RootsBut1(m), x0, vx, chain)
    modifies m.ram, m`freeCells, m`free, m`usedCells, m`freeCount, m`tmp1
    ensures Intact(old(m.ram[..]), m.ram[..], RootsBut1(m))
    ensures r.None? ==> Exhausted(m)
    ensures r.Some? ==> m.tmp1 == NIL && Result(m, RootsBut1(m), r.value, vx / 2, {})
  {
    hide Operand, Building, Intact, Join, Result, Exhausted, Machine.Valid;
    var x := x0;
    ghost var o, roots := m.View(), RootsBut1(m);
    ghost var a := vx;
    Start(m, vx / 2);
    ghost var cells: seq<Word>, ds: seq<Word> := [], [];
    while true
      invariant Building(m, roots, m.tmp1, cells, ds) && Intact(o.ram, m.ram[..], roots)
      invariant Operand(m.View(), roots, x, a, chain)
      invariant Join(ds, a / 2) == vx / 2
      decreases Magnitude(a)
    {
      Operands(m, roots, x, a, chain, cells, ds);
      if x == ZERO || x == NEG1 {
        SmallOperand(m.View(), roots, a, {});
        var s := Close(m, x, cells, ds, a, {}, o);
        return Some(s);
      }
      var d := IntegerLo(m, x);
      x := IntegerHi(m, x);
      Operands(m, roots, x, a / B, chain, cells, ds);
      ghost var before := m.View();
      var e := d / 2 + if IntegerLo(m, x) % 2 == 1 then 0x8000 else 0;
      assert a / 2 == e + B * (a / B / 2) by { Halve(a); }
      JoinSnoc(ds, e, a / B / 2);
      var pushed := PushDigit(m, e, cells, ds);
      Pushed(o, before, m, roots, x, a / B, chain);
      if pushed.None? {
        return None;
      }
      cells, ds, a := cells + [m.tmp1], ds + [e], a / B;
    }
  }

  lemma Halve(a: int)
    ensures a / 2 == (a % B) / 2 + (if a / B % B % 2 == 1 then 0x8000 else 0) + B * (a / B / 2)
  {
    var d, q := a % B, a / B;
    var k, e, f := q / B, q % B / 2, q % B % 2;
    assert q == B * k + (2 * e + f) && a == B * q + d;
    assert q / 2 == B / 2 * k + e;
    assert a == 2 * (B * (B / 2 * k + e) + 0x8000 * f + d / 2) + d % 2;
  }

  /** shl: doubling */
  method Shl(m: Machine, x0: Word, ghost vx: int, ghost chain: set<int>) returns (r: Option<Word>)
    requires m.Valid() && Operand(m.View(), RootsBut1(m), x0, vx, chain)
    modifies m.ram, m`freeCells, m`free, m`usedCells, m`freeCount, m`tmp1
    ensures Intact(old(m.ram[..]), m.ram[..], RootsBut1(m))
    ensures r.None? ==> Exhausted(m)
    ensures r.Some? ==> m.tmp1 == NIL && Result(m, RootsBut1(m), r.value, 2 * vx, {})
  {
    hide Operand, Building, Intact, Join, Result, Exhausted, Machine.Valid, NegativeCarry;
    var x, negc := x0, ZERO;
    ghost var o, roots := m.View(), RootsBut1(m);
    ghost var a := vx;
    Start(m, 2 * vx);
    ghost var cells: seq<Word>, ds: seq<Word> := [], [];
    while true
      invariant Building(m, roots, m.tmp1, cells, ds) && Intact(o.ram, m.ram[..], roots)
      invariant Operand(m.View(), roots, x, a, chain) && IsCarry(negc)
      invariant Join(ds, 2 * a + Carry(negc)) == 2 * vx
      decreases Magnitude(a), if a == -Carry(negc) then 0 else 1
    {
      Operands(m, roots, x, a, chain, cells, ds);
      if x == negc {
        SmallOperand(m.View(), roots, a, {});
        var s := Close(m, x, cells, ds, a, {}, o);
        return Some(s);
      }
      var d := IntegerLo(m, x);
      x := IntegerHi(m, x);
      ghost var before := m.View();
      var temp := negc;
      negc := NegativeCarry(d >= 0x8000);
      var e := (2 * d) % B + if temp == NEG1 then 1 else 0;
      Doubled(a, temp, negc, e);
      JoinSnoc(ds, e, 2 * (a / B) + Carry(negc));
      var pushed := PushDigit(m, e, cells, ds);
      Pushed(o, before, m, roots, x, a / B, chain);
      if pushed.None? {
        return None;
      }
      cells, ds, a := cells + [m.tmp1], ds + [e], a / B;
    }
  }

  lemma Doubled(a: int, negc0: Word, negc: Word, e: Word)
    requires IsCarry(negc0) && negc == NegativeCarry(a % B >= 0x8000)
    requires e == (2 * (a % B)) % B + if negc0 == NEG1 then 1 else 0
    ensures IsCarry(negc) && 2 * a + Carry(negc0) == e + B * (2 * (a / B) + Carry(negc))
    ensures a != -Carry(negc0) ==>
      Magnitude(a / B) < Magnitude(a) || (Magnitude(a / B) == Magnitude(a) && a / B == -Carry(negc))
  {}

  /** norm(bignum_tmp1, new_bignum(d, high)), for a digit too large for a small integer. */
  method CloseFresh(m: Machine, d: Word, high: Word, ghost cells: seq<Word>, ghost ds: seq<Word>, ghost v: int,
                    ghost chain: set<int>, ghost o: Mem)
      returns (r: Option<Word>)
    requires Building(m, RootsBut1(m), m.tmp1, cells, ds) && Intact(o.ram, m.ram[..], RootsBut1(m))
    requires (high == ZERO && v == d && d > 255) || (high == NEG1 && v == d - B && d < B - 1)
    modifies m.ram, m`freeCells, m`free, m`usedCells, m`freeCount, m`tmp1
    ensures Intact(o.ram, m.ram[..], RootsBut1(m))
    ensures r.None? ==> Exhausted(m)
    ensures r.Some? ==> m.tmp1 == NIL && Result(m, RootsBut1(m), r.value, Join(ds, v), chain)
  {
    ghost var b, roots := m.View(), RootsBut1(m);
    BuildingLive(m, roots, m.tmp1, cells, ds);
    var p := m.NewBignum(d, high);
    AllocatedKeeps(b, m.View(), roots, m.tmp1, cells, ds, m.Live());
    IntactTrans(o.ram, b.ram, m.ram[..], roots);
    if p.None? {
      return None;
    }
    FreshNumber(m.View(), p.value, d, high, v);
    ReachMonotone(m.ram[..], roots, m.Roots());
    ElementsHas(cells);
    ghost var c := m.View();
    var s := Finish(m, p.value, cells, ds, v, chain);
    IntactTrans(o.ram, c.ram, m.ram[..], roots);
    return Some(s);
  }

  lemma ElementsHas(cells: seq<Word>)
    ensures forall c | c in cells :: c as int in Elements(cells)
  {
    forall c | c in cells ensures c as int in Elements(cells) {
      var i :| 0 <= i < |cells| && cells[i] == c;
    }
  }

  lemma FreshNumber(m: Mem, p: Word, d: Word, high: Word, v: int)
    requires m.InRam(p) && m.ram[p] == Cell(high, d, BIGNUM, false, false) && |m.ram| < ROM_START
    requires (high == ZERO && v == d && d > 255) || (high == NEG1 && v == d - B && d < B - 1)
    ensures Rep(m, p, v) && DigitCells(m, p, v) == {p as int}
  {
    assert v % B == d && v / B == (if high == ZERO then 0 else -1);
  }

  lemma ScaleDigit(n: Word, a: int, carry: Word, p: int)
    requires 1 < n && carry < n && p == (a % B) * n + carry
    ensures 0 <= p < 0x1_0000_0000 && p / B < n
    ensures n * a + carry == p % B + B * (n * (a / B) + p / B)
  {
    var d, q := a % B, a / B;
    assert d * n <= (B - 1) * n;
    assert n * a == n * d + B * (n * q) by { assert a == d + B * q; }
  }

  /** The two ends of scale: what is left of x is 0 or -1. */
  method ScaleEnd(m: Machine, n: Word, x: Word, carry0: Word, ghost cells: seq<Word>, ghost ds: seq<Word>,
                  ghost chain: set<int>, ghost o: Mem)
      returns (r: Option<Word>)
    requires Building(m, RootsBut1(m), m.tmp1, cells, ds) && Intact(o.ram, m.ram[..], RootsBut1(m))
    requires (x == ZERO || x == NEG1) && carry0 < n && m.reserved < m.ram.Length < ROM_START
    modifies m.ram, m`freeCells, m`free, m`usedCells, m`freeCount, m`tmp1
    ensures Intact(o.ram, m.ram[..], RootsBut1(m))
    ensures r.None? ==> Exhausted(m)
    ensures r.Some? ==> m.tmp1 == NIL
    ensures r.Some? ==> Result(m, RootsBut1(m), r.value, Join(ds, if x == ZERO then carry0 else carry0 - n), chain)
  {
    hide Operand, Building, Intact, Join, Result, Exhausted;
    ghost var roots := RootsBut1(m);
    var carry := carry0;
    if x == ZERO {
      if carry <= 255 {
        SmallOperand(m.View(), roots, carry, chain);
        var s := Close(m, Small(carry), cells, ds, carry, chain, o);
        return Some(s);
      }
      r := CloseFresh(m, carry, ZERO, cells, ds, carry, chain, o);
    } else {
      ghost var rest := carry - n;
      carry := (carry - n) % B;
      if carry >= B - 1 {
        SmallOperand(m.View(), roots, -1, chain);
        var s := Close(m, Small(carry), cells, ds, -1, chain, o);
        return Some(s);
      }
      r := CloseFresh(m, carry, NEG1, cells, ds, rest, chain, o);
    }
  }

  /** scale: one digit times an integer.  The carry stays below n, so two digits are enough for
      the intermediate product, and a negative operand ends in a digit above -1. */
  method Scale(m: Machine, n: Word, x0: Word, ghost vx: int, ghost chain: set<int>) returns (r: Option<Word>)
    requires m.Valid() && Operand(m.View(), RootsBut1(m), x0, vx, chain)
    modifies m.ram, m`freeCells, m`free, m`usedCells, m`freeCount, m`tmp1
    ensures Intact(old(m.ram[..]), m.ram[..], RootsBut1(m))
    ensures r.None? ==> Exhausted(m)
    ensures r.Some? ==> Result(m, RootsBut1(m), r.value, n * vx, chain)
    ensures r.Some? ==> m.tmp1 == NIL || m.tmp1 == old(m.tmp1)
  {
    hide Operand, Building, Intact, Join, Result, Exhausted, Machine.Valid;
    var x := x0;
    ghost var o, roots := m.View(), RootsBut1(m);
    ghost var a := vx;
    ScaleTrivially(m, n, x, vx, chain);
    if n == 0 || x == ZERO {
      return Some(ZERO);
    }
    if n == 1 {
      return Some(x);
    }
    Start(m, n * vx);
    var carry: Word := 0;
    ghost var cells: seq<Word>, ds: seq<Word> := [], [];
    while true
      invariant Building(m, roots, m.tmp1, cells, ds) && Intact(o.ram, m.ram[..], roots)
      invariant Operand(m.View(), roots, x, a, chain) && carry < n
      invariant Join(ds, n * a + carry) == n * vx
      decreases Magnitude(a)
    {
      Operands(m, roots, x, a, chain, cells, ds);
      if x == ZERO || x == NEG1 {
        r := ScaleEnd(m, n, x, carry, cells, ds, chain, o);
        return;
      }
      var product := IntegerLo(m, x);
      ScaleDigit(n, a, carry, product * n + carry);
      var twoDigits := product * n + carry;
      x := IntegerHi(m, x);
      ghost var before := m.View();
      carry := twoDigits / B;
      JoinSnoc(ds, twoDigits % B, n * (a / B) + carry);
      var pushed := PushDigit(m, twoDigits % B, cells, ds);
      Pushed(o, before, m, roots, x, a / B, chain);
      if pushed.None? {
        return None;
      }
      cells, ds, a := cells + [m.tmp1], ds + [twoDigits % B], a / B;
    }
  }

  lemma ScaleTrivially(m: Machine, n: Word, x: Word, v: int, chain: set<int>)
    requires m.Valid() && Operand(m.View(), RootsBut1(m), x, v, chain)
    ensures Intact(m.ram[..], m.ram[..], RootsBut1(m))
    ensures n == 0 || x == ZERO ==> Result(m, RootsBut1(m), ZERO, n * v, chain)
    ensures n == 1 ==> Result(m, RootsBut1(m), x, n * v, chain)
  {
    var roots := RootsBut1(m);
    ReachClosed(m.ram[..], roots);
    OperandParts(m.View(), roots, x, v, chain);
    hide Operand, Rep, DigitCells;
    if n == 0 || x == ZERO {
      assert n * v == 0;
      SmallRep(m.View(), 0);
    }
    OperandIsResult(m, roots, x, v, chain);
  }

  lemma OperandIsResult(m: Machine, roots: set<int>, x: Word, v: int, chain: set<int>)
    requires m.Valid() && roots <= m.Roots() && Operand(m.View(), roots, x, v, chain)
    ensures Result(m, roots, x, v, chain)
  {
    ReachClosed(m.ram[..], roots);
    ReachMonotone(m.ram[..], roots, m.Roots());
    ChainHeld(m.View(), x, v, Reach(m.ram[..], roots));
  }

  /** negp */
  method NegP(m: Machine, x0: Word, ghost v: int) returns (negative: bool)
    requires m.View().Sane() && Rep(m.View(), x0, v)
    ensures negative <==> v < 0
  {
    hide Rep;
    var x := x0;
    ghost var a := v;
    while true
      invariant Rep(m.View(), x, a) && (a < 0 <==> v < 0)
      decreases Magnitude(a), if a == 0 || a == -1 then 0 else 1
    {
      RepParts(m.View(), x, a);
      x := IntegerHi(m, x);
      a := a / B;
      RepParts(m.View(), x, a);
      if x == ZERO { return false; }
      if x == NEG1 { return true; }
    }
  }

  /** cmp: 0, 1 or 2 for less, equal or greater */
  function Order(a: int, b: int): int {
    if a < b then 0 else if a == b then 1 else 2
  }

  method Cmp(m: Machine, x0: Word, y0: Word, ghost vx: int, ghost vy: int) returns (result: int)
    requires m.View().Sane() && Rep(m.View(), x0, vx) && Rep(m.View(), y0, vy)
    ensures result == Order(vx, vy)
  {
    hide Rep;
    var x, y := x0, y0;
    ghost var a, b := vx, vy;
    result := 1;
    while true
      invariant Rep(m.View(), x, a) && Rep(m.View(), y, b)
      invariant Order(vx, vy) == if a == b then result else Order(a, b)
      decreases Magnitude(a)
    {
      RepParts(m.View(), x, a);
      RepParts(m.View(), y, b);
      if x == ZERO || x == NEG1 {
        if x != y {
          var negative := NegP(m, y, b);
          SmallApart(m.View(), x, a, y, b);
          result := if negative then 2 else 0;
        }
        return;
      }
      if y == ZERO || y == NEG1 {
        var negative := NegP(m, x, a);
        result := if negative then 0 else 2;
        return;
      }
      var xlo, ylo := IntegerLo(m, x), IntegerLo(m, y);
      x := IntegerHi(m, x);
      y := IntegerHi(m, y);
      if xlo != ylo {
        result := if xlo < ylo then 0 else 2;
      }
      a, b := a / B, b / B;
    }
  }

  lemma SmallApart(m: Mem, x: Word, a: int, y: Word, b: int)
    requires m.Sane() && Rep(m, x, a) && Rep(m, y, b) && (a == 0 || a == -1) && x != y
    ensures a != b
  {}

  /** integer_length: the number of bits, kept in 16 bits like the original's counter. */
  method IntegerLength(m: Machine, x0: Word, ghost v: nat) returns (result: Word)
    requires m.View().Sane() && Rep(m.View(), x0, v)
    ensures result == BitLength(v) % B
  {
    hide Rep, BitLength, IntegerHi, IntegerLo, Machine.View;
    var x := x0;
    ghost var a: nat := v;
    ghost var n: nat := 0;
    result := 0;
    Parts(m, x, a);
    while IntegerHi(m, x) != ZERO
      invariant Rep(m.View(), x, a)
      invariant IntegerLo(m, x) == a % B && Rep(m.View(), IntegerHi(m, x), a / B)
      invariant IntegerHi(m, x) == ZERO <==> a / B == 0
      invariant result == n % B && n + BitLength(a) == BitLength(v)
      decreases a
    {
      DigitLeft(a);
      BitLengthDigit(a);
      CountStep(n, 16);
      n, result := n + 16, (result + 16) % B;
      x := IntegerHi(m, x);
      a := a / B;
      Parts(m, x, a);
    }
    var d: nat := IntegerLo(m, x);
    DigitLeft(a);
    assert d == a;
    while d > 0
      invariant result == n % B && n + BitLength(d) == BitLength(v)
    {
      BitLengthHalf(d);
      CountStep(n, 1);
      n, result := n + 1, (result + 1) % B;
      d := d / 2;
    }
    BitLengthHalf(0);
  }

  lemma CountStep(n: nat, k: nat)
    ensures (n % B + k) % B == (n + k) % B
  {}

  lemma DigitLeft(a: nat)
    ensures if a / B == 0 then a % B == a else a >= B
  {}

  lemma Parts(m: Machine, x: Word, v: int)
    requires m.View().Sane() && Rep(m.View(), x, v)
    ensures IntegerLo(m, x) == v % B && Rep(m.View(), IntegerHi(m, x), v / B)
    ensures IntegerHi(m, x) == ZERO <==> v / B == 0
  {
    RepParts(m.View(), x, v);
    RepParts(m.View(), IntegerHi(m, x), v / B);
  }
}
