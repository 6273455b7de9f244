/** The bignum routines that keep intermediate results in registered temporaries: shifting,
    multiplication, division and remainder (main/bignum.c, main/primitives-numeric.c). */
module BignumDivision {
  import opened Cells
  import opened Wrappers
  import opened Numbers
  import opened Memory
  import opened Arithmetic
  import opened Bignum

  /** The roots outside the bignum routines. */
  ghost function Outer(m: Machine): set<int>
    reads m
  {
    m.Globals() + {m.reg1, m.reg2, m.reg3, m.reg4, m.cont, m.env}
  }

  /** v at address x, in cells that are not free; those among them that roots reach are in chain. */
  ghost predicate Loose(m: Machine, roots: set<int>, x: Word, v: int, chain: set<int>)
    reads m, m.ram
  {
    && Rep(m.View(), x, v)
    && forall c | c in DigitCells(m.View(), x, v) :: c !in m.free && (c in Reach(m.ram[..], roots) ==> c in chain)
  }

  ghost predicate Safe(m: Machine, x: Word, v: int)
    reads m, m.ram
  {
    Rep(m.View(), x, v) && forall c | c in DigitCells(m.View(), x, v) :: c !in m.free
  }

  lemma IntactRefl(h: seq<Cell>, roots: set<int>)
    ensures Intact(h, h, roots)
  {
    ReachClosed(h, roots);
  }

  lemma IntactLess(h: seq<Cell>, g: seq<Cell>, big: set<int>, small: set<int>)
    requires Intact(h, g, big) && small <= big
    requires forall i | 0 <= i < |h| == |g| :: h[i].mark == g[i].mark
    ensures Intact(h, g, small)
  {
    ReachMonotone(h, small, big);
    ReachClosed(h, small);
    ReachFrame(h, g, small);
  }

  /** Registering a number makes at most its own cells reachable in addition. */
  lemma AdoptBound(m: Mem, oldRoots: set<int>, roots: set<int>, x: Word, v: int)
    requires m.Sane() && Rep(m, x, v) && roots <= oldRoots + {x as int}
    ensures Reach(m.ram, roots) <= Reach(m.ram, oldRoots) + DigitCells(m, x, v)
  {
    var r, c := Reach(m.ram, oldRoots), DigitCells(m, x, v);
    ReachClosed(m.ram, oldRoots);
    ChainInRam(m, x, v);
    ChainClosed(m, x, v, r);
    hide Reach, Rep, DigitCells;
    assert Holds(m.ram, roots, r + c) by {
      ChainHead(m, x, v);
    }
    ReachLeast(m.ram, roots, r + c);
  }

  /** ... which is safe when they are not free. */
  lemma Adopted(m: Machine, roots: set<int>, x: Word, v: int)
    requires m.Shaped() && Rep(m.View(), x, v) && m.Roots() <= roots + {x as int}
    requires forall f | f in m.free :: f !in Reach(m.ram[..], roots) && f as int !in DigitCells(m.View(), x, v)
    ensures m.Valid()
  {
    AdoptBound(m.View(), roots, m.Roots(), x, v);
  }

  lemma ChainHead(m: Mem, x: Word, v: int)
    requires m.Sane() && Rep(m, x, v)
    ensures Open(m.ram, x) ==> x as int in DigitCells(m, x, v)
  {}

  lemma {:induction false} ChainClosed(m: Mem, x: Word, v: int, k: set<int>)
    requires m.Sane() && Rep(m, x, v) && Closed(m.ram, k)
    ensures Closed(m.ram, k + DigitCells(m, x, v))
    decreases if v < 0 then -v else v
  {
    ChainInRam(m, x, v);
    if !(-1 <= v <= 255) {
      var y := m.At(x).car;
      ChainClosed(m, y, v / B, k);
      ChainHead(m, y, v / B);
    }
  }

  method SetTmp2(m: Machine, x: Word, ghost v: int)
    requires m.Valid() && Safe(m, x, v)
    modifies m`tmp2
    ensures m.tmp2 == x && m.Valid()
  {
    ghost var roots := m.Roots();
    m.tmp2 := x;
    Adopted(m, roots, x, v);
  }

  method SetTmp3(m: Machine, x: Word, ghost v: int)
    requires m.Valid() && Safe(m, x, v)
    modifies m`tmp3
    ensures m.tmp3 == x && m.Valid()
  {
    ghost var roots := m.Roots();
    m.tmp3 := x;
    Adopted(m, roots, x, v);
  }

  method SetTmp4(m: Machine, x: Word, ghost v: int)
    requires m.Valid() && Safe(m, x, v)
    modifies m`tmp4
    ensures m.tmp4 == x && m.Valid()
  {
    ghost var roots := m.Roots();
    m.tmp4 := x;
    Adopted(m, roots, x, v);
  }

  method SetTmp5(m: Machine, x: Word, ghost v: int)
    requires m.Valid() && Safe(m, x, v)
    modifies m`tmp5
    ensures m.tmp5 == x && m.Valid()
  {
    ghost var roots := m.Roots();
    m.tmp5 := x;
    Adopted(m, roots, x, v);
  }

  /** A registered number is an operand for the routines that only use bignum_tmp1. */
  lemma Registered(m: Machine, x: Word, v: int)
    requires m.Valid() && x as int in RootsBut1(m) && Rep(m.View(), x, v)
    ensures Operand(m.View(), RootsBut1(m), x, v, DigitCells(m.View(), x, v))
  {
    ReachClosed(m.ram[..], RootsBut1(m));
    assert m.View().InRam(x) ==> Open(m.ram[..], x);
  }

  /** ... and stays the same number as long as its root is kept. */
  lemma StillThere(o: Mem, g: Mem, roots: set<int>, x: Word, v: int)
    requires o.Sane() && g.rom == o.rom && g.reserved == o.reserved && Intact(o.ram, g.ram, roots)
    requires x as int in roots && Rep(o, x, v)
    ensures Rep(g, x, v) && DigitCells(g, x, v) == DigitCells(o, x, v)
  {
    ReachClosed(o.ram, roots);
    assert o.InRam(x) ==> Open(o.ram, x);
    ChainHeld(o, x, v, Reach(o.ram, roots));
    RepFrame(o, g, x, v);
  }

  /** A result with respect to many roots is one with respect to fewer. */
  lemma LooseLess(m: Machine, big: set<int>, small: set<int>, x: Word, v: int, chain: set<int>, less: set<int>)
    requires Loose(m, big, x, v, chain) && small <= big
    requires forall c | c in chain && c in Reach(m.ram[..], small) :: c in less
    ensures Loose(m, small, x, v, less)
  {
    ReachMonotone(m.ram[..], small, big);
  }

  ghost function RootsBut12(m: Machine): set<int>
    reads m
  {
    Outer(m) + {m.tmp3, m.tmp4, m.tmp5}
  }

  /** new_bignum(0, x): sixteen bits at once */
  lemma ShiftedDigit(m: Mem, p: Word, x: Word, w: int)
    requires Rep(m, x, w) && w != 0 && m.InRam(p) && m.ram[p] == Cell(x, 0, BIGNUM, false, false) && |m.ram| < ROM_START
    ensures Rep(m, p, B * w) && DigitCells(m, p, B * w) == {p as int} + DigitCells(m, x, w)
  {
    assert (B * w) / B == w && (B * w) % B == 0;
  }

  lemma ShiftZero(m: Machine, roots: set<int>, x: Word, v: int, chain: set<int>, n: nat)
    requires m.Valid() && Loose(m, roots, x, v, chain)
    ensures Intact(m.ram[..], m.ram[..], roots) && (x == ZERO <==> v == 0)
    ensures x == ZERO ==> Result(m, roots, x, v * Pow2(n), chain)
    ensures x != ZERO ==> Pending(v, n, v * Pow2(n))
  {
    ReachClosed(m.ram[..], roots);
    RepParts(m.View(), x, v);
  }

  /** What is left to do of a shift. */
  ghost predicate Pending(w: int, n: nat, total: int) {
    w != 0 && w * Pow2(n) == total
  }

  lemma ShiftSteps(w: int, n: nat, total: int)
    requires Pending(w, n, total)
    ensures n > 0 ==> Pending(2 * w, n - 1, total)
    ensures n >= 16 ==> Pending(B * w, n - 16, total)
    ensures w != 0 && (n == 0 ==> w == total)
  {
    if n > 0 {
      assert 2 * w * Pow2(n - 1) == w * Pow2(n);
    }
    if n >= 16 {
      Pow2Add(16, n - 16);
      Pow2Digit();
      assert B * w * Pow2(n - 16) == w * (B * Pow2(n - 16));
    }
  }

  lemma IntactFewer(o: Mem, b: Mem, m: Machine, big: set<int>, small: set<int>)
    requires b.Sane() && m.View().Sane() && small <= big
    requires Intact(o.ram, b.ram, small) && Intact(b.ram, m.ram[..], big)
    ensures Intact(o.ram, m.ram[..], small)
  {
    IntactLess(b.ram, m.ram[..], big, small);
  }

  /** Forgetting a root. */
  lemma Cleared(m: Machine, roots: set<int>)
    requires m.Shaped() && m.Roots() <= roots + {NIL as int}
    requires forall f | f in m.free :: f !in Reach(m.ram[..], roots)
    ensures m.Valid()
  {
    ReachClosed(m.ram[..], roots);
    ReachLeast(m.ram[..], m.Roots(), Reach(m.ram[..], roots));
  }

  /** A shift under way: w is the number in bignum_tmp2. */
  ghost predicate Shifting(m: Machine, o: Mem, roots: set<int>, w: int, chain: set<int>)
    reads m, m.ram
  {
    && m.Valid() && roots == RootsBut12(m)
    && Loose(m, roots, m.tmp2, w, chain) && Intact(o.ram, m.ram[..], roots)
  }

  /** bignum_tmp2 = shl(bignum_tmp2) */
  method Double2(m: Machine, ghost o: Mem, ghost roots: set<int>, ghost w: int, ghost chain: set<int>)
      returns (r: Option<Word>)
    requires Shifting(m, o, roots, w, chain)
    modifies m.ram, m`freeCells, m`free, m`usedCells, m`freeCount, m`tmp1, m`tmp2
    ensures r.Some? ==> m.tmp1 == NIL
    ensures Intact(o.ram, m.ram[..], roots)
    ensures r.None? ==> Exhausted(m)
    ensures r.Some? ==> Shifting(m, o, roots, 2 * w, chain)
  {
    hide Reach, Rep, DigitCells;
    ghost var b := m.View();
    Registered(m, m.tmp2, w);
    r := Shl(m, m.tmp2, w, DigitCells(m.View(), m.tmp2, w));
    IntactFewer(o, b, m, RootsBut1(m), roots);
    if r.Some? {
      LooseLess(m, RootsBut1(m), roots, r.value, 2 * w, {}, chain);
      SetTmp2(m, r.value, 2 * w);
    }
  }

  /** bignum_tmp2 = new_bignum(0, bignum_tmp2) */
  method NewZeroDigit(m: Machine, ghost o: Mem, ghost roots: set<int>, ghost w: int, ghost chain: set<int>)
      returns (r: Option<Word>)
    requires Shifting(m, o, roots, w, chain) && w != 0
    modifies m.ram, m`freeCells, m`free, m`usedCells, m`freeCount, m`tmp2
    ensures Intact(o.ram, m.ram[..], roots)
    ensures r.None? ==> Exhausted(m)
    ensures r.Some? ==> Shifting(m, o, roots, B * w, chain)
  {
    hide Reach, Rep, DigitCells;
    ghost var b := m.View();
    Registered(m, m.tmp2, w);
    r := m.NewBignum(0, m.tmp2);
    AllocatedKeepsAll(b, m.View(), m.Roots());
    IntactFewer(o, b, m, m.Roots(), roots);
    StillThere(b, m.View(), m.Roots(), m.tmp2, w);
    if r.Some? {
      ShiftedDigit(m.View(), r.value, m.tmp2, w);
      ReachMonotone(m.ram[..], roots, m.Roots());
      HeldChain(m, m.tmp2, w);
      SetTmp2(m, r.value, B * w);
    }
  }

  lemma AllocatedKeepsAll(m: Mem, g: Mem, roots: set<int>)
    requires |g.ram| == |m.ram| && m.Sane() && g.Sane()
    requires forall i | i in Reach(m.ram, roots) :: 0 <= i < |m.ram| && g.ram[i] == m.ram[i]
    ensures Intact(m.ram, g.ram, roots)
  {
    ReachFrame(m.ram, g.ram, roots);
  }

  lemma HeldChain(m: Machine, x: Word, v: int)
    requires m.Valid() && x as int in m.Roots() && Rep(m.View(), x, v)
    ensures DigitCells(m.View(), x, v) <= m.Live() && Safe(m, x, v)
  {
    ReachClosed(m.ram[..], m.Roots());
    assert m.View().InRam(x) ==> Open(m.ram[..], x);
    ChainHeld(m.View(), x, v, m.Live());
  }

  /** tmp = bignum_tmp2; bignum_tmp2 = NIL */
  method TakeTmp2(m: Machine, ghost o: Mem, ghost roots: set<int>, ghost w: int, ghost chain: set<int>)
      returns (x: Word)
    requires Shifting(m, o, roots, w, chain)
    modifies m`tmp2
    ensures x == old(m.tmp2) && m.tmp2 == NIL && Result(m, roots, x, w, chain) && roots == RootsBut12(m)
    ensures Intact(o.ram, m.ram[..], roots)
  {
    ghost var all := m.Roots();
    x := m.tmp2;
    m.tmp2 := NIL;
    Cleared(m, all);
  }

  /** shift_left */
  method ShiftLeft(m: Machine, x: Word, n0: Word, ghost v: int, ghost chain: set<int>) returns (r: Option<Word>)
    requires m.Valid() && Loose(m, RootsBut12(m), x, v, chain)
    modifies m.ram, m`freeCells, m`free, m`usedCells, m`freeCount, m`tmp1, m`tmp2
    ensures Intact(old(m.ram[..]), m.ram[..], RootsBut12(m))
    ensures r.None? ==> Exhausted(m)
    ensures r.Some? ==> Result(m, RootsBut12(m), r.value, v * Pow2(n0), chain)
    ensures r.Some? && old(m.tmp1) == NIL ==> m.tmp1 == NIL
  {
    hide Shifting, Result, Intact, Exhausted, Pending, Pow2, Loose, Machine.Valid;
    ghost var o, roots, total := m.View(), RootsBut12(m), v * Pow2(n0);
    ShiftZero(m, roots, x, v, chain, n0);
    if x == ZERO {
      return Some(x);
    }
    StartShift(m, x, v, chain);
    ghost var w := v;
    var n := n0;
    while n % 16 != 0
      invariant Shifting(m, o, roots, w, chain) && Pending(w, n, total)
      invariant old(m.tmp1) == NIL ==> m.tmp1 == NIL
      decreases n
    {
      r := Double2(m, o, roots, w, chain);
      if r.None? {
        return;
      }
      ShiftSteps(w, n, total);
      w, n := 2 * w, n - 1;
    }
    while n > 0
      invariant n % 16 == 0 && Shifting(m, o, roots, w, chain) && Pending(w, n, total)
      invariant old(m.tmp1) == NIL ==> m.tmp1 == NIL
      decreases n
    {
      ShiftSteps(w, n, total);
      r := NewZeroDigit(m, o, roots, w, chain);
      if r.None? {
        return;
      }
      w, n := B * w, n - 16;
    }
    ShiftSteps(w, 0, total);
    var tmp := TakeTmp2(m, o, roots, w, chain);
    r := Some(tmp);
  }

  method StartShift(m: Machine, x: Word, ghost v: int, ghost chain: set<int>)
    requires m.Valid() && Loose(m, RootsBut12(m), x, v, chain)
    modifies m`tmp2
    ensures Shifting(m, old(m.View()), RootsBut12(m), v, chain)
  {
    ReachClosed(m.ram[..], RootsBut12(m));
    SetTmp2(m, x, v);
  }

  // ------------------------------------------------------------ division

  /** The state of a division in memory m: quotient so far at address x3, remainder so far at x4,
      shifted divisor at x5.  Nothing registered elsewhere shares cells with the quotient. */
  ghost predicate Quotients(m: Mem, o: Mem, outer: set<int>, x3: Word, x4: Word, x5: Word, q: nat, r: nat, t: nat) {
    && o.Sane() && Intact(o.ram, m.ram, outer)
    && Rep(m, x3, q) && (forall c | c in DigitCells(m, x3, q) :: c !in Reach(m.ram, outer))
    && Rep(m, x4, r) && Rep(m, x5, t)
  }

  ghost predicate Dividing(m: Machine, o: Mem, q: nat, r: nat, t: nat)
    reads m, m.ram
  {
    m.Valid() && m.tmp1 == NIL && Quotients(m.View(), o, Outer(m), m.tmp3, m.tmp4, m.tmp5, q, r, t)
  }

  /** A routine that keeps a set of roots with the three numbers among them keeps the state. */
  lemma DivisionSurvives(b: Mem, g: Mem, o: Mem, outer: set<int>, roots: set<int>, x3: Word, x4: Word, x5: Word,
                         q: nat, r: nat, t: nat)
    requires b.Sane() && g.Sane() && g.rom == b.rom && g.reserved == b.reserved
    requires Quotients(b, o, outer, x3, x4, x5, q, r, t) && Intact(b.ram, g.ram, roots)
    requires outer <= roots && x3 as int in roots && x4 as int in roots && x5 as int in roots
    ensures Quotients(g, o, outer, x3, x4, x5, q, r, t) && DigitCells(g, x3, q) == DigitCells(b, x3, q)
  {
    IntactLess(b.ram, g.ram, roots, outer);
    IntactTrans(o.ram, b.ram, g.ram, outer);
    assert Reach(g.ram, outer) == Reach(b.ram, outer);
    StillThere(b, g, roots, x3, q);
    StillThere(b, g, roots, x4, r);
    StillThere(b, g, roots, x5, t);
  }

  /** bignum_tmp3 = shl(bignum_tmp3) */
  method DivideDouble(m: Machine, ghost o: Mem, ghost q: nat, ghost r: nat, ghost t: nat) returns (s: Option<Word>)
    requires Dividing(m, o, q, r, t)
    modifies m.ram, m`freeCells, m`free, m`usedCells, m`freeCount, m`tmp1, m`tmp3
    ensures s.None? ==> Exhausted(m) && Intact(o.ram, m.ram[..], Outer(m))
    ensures s.Some? ==> Dividing(m, o, 2 * q, r, t)
  {
    hide Reach, Rep, DigitCells, Intact;
    ghost var b := m.View();
    Registered(m, m.tmp3, q);
    s := Shl(m, m.tmp3, q, DigitCells(m.View(), m.tmp3, q));
    DivisionSurvives(b, m.View(), o, Outer(m), RootsBut1(m), m.tmp3, m.tmp4, m.tmp5, q, r, t);
    if s.Some? {
      LooseLess(m, RootsBut1(m), Outer(m), s.value, 2 * q, {}, {});
      ghost var outer := Outer(m);
      ghost var g := m.View();
      SetTmp3(m, s.value, 2 * q);
      assert Outer(m) == outer && m.View() == g;
    }
  }

  /** bignum_tmp4 = sub(bignum_tmp4, bignum_tmp5) */
  method DivideSubtract(m: Machine, ghost o: Mem, ghost q: nat, ghost r: nat, ghost t: nat) returns (s: Option<Word>)
    requires Dividing(m, o, q, r, t) && r >= t
    modifies m.ram, m`freeCells, m`free, m`usedCells, m`freeCount, m`tmp1, m`tmp4
    ensures s.None? ==> Exhausted(m) && Intact(o.ram, m.ram[..], Outer(m))
    ensures s.Some? ==> Dividing(m, o, q, r - t, t)
  {
    hide Reach, Rep, DigitCells, Intact;
    ghost var b, chain := m.View(), DigitCells(m.View(), m.tmp4, r) + DigitCells(m.View(), m.tmp5, t);
    Registered(m, m.tmp4, r);
    Registered(m, m.tmp5, t);
    s := Sub(m, m.tmp4, m.tmp5, r, t, chain);
    DivisionSurvives(b, m.View(), o, Outer(m), RootsBut1(m), m.tmp3, m.tmp4, m.tmp5, q, r, t);
    if s.Some? {
      ghost var outer := Outer(m);
      SetTmp4(m, s.value, r - t);
      assert Outer(m) == outer;
    }
  }

  /** bignum_tmp3 = add(POS1, bignum_tmp3) */
  method DivideCount(m: Machine, ghost o: Mem, ghost q: nat, ghost r: nat, ghost t: nat) returns (s: Option<Word>)
    requires Dividing(m, o, q, r, t)
    modifies m.ram, m`freeCells, m`free, m`usedCells, m`freeCount, m`tmp1, m`tmp3
    ensures s.None? ==> Exhausted(m) && Intact(o.ram, m.ram[..], Outer(m))
    ensures s.Some? ==> Dividing(m, o, q + 1, r, t)
  {
    hide Reach, Rep, DigitCells, Intact;
    ghost var b, chain := m.View(), DigitCells(m.View(), m.tmp3, q);
    Registered(m, m.tmp3, q);
    SmallOperand(b, RootsBut1(m), 1, chain);
    s := Add(m, POS1, m.tmp3, 1, q, chain);
    DivisionSurvives(b, m.View(), o, Outer(m), RootsBut1(m), m.tmp3, m.tmp4, m.tmp5, q, r, t);
    if s.Some? {
      ghost var outer := Outer(m);
      LooseLess(m, RootsBut1(m), Outer(m), s.value, q + 1, chain, {});
      ghost var g := m.View();
      SetTmp3(m, s.value, q + 1);
      assert Outer(m) == outer && m.View() == g;
    }
  }

  /** bignum_tmp5 = shr(bignum_tmp5) */
  method DivideHalve(m: Machine, ghost o: Mem, ghost q: nat, ghost r: nat, ghost t: nat) returns (s: Option<Word>)
    requires Dividing(m, o, q, r, t)
    modifies m.ram, m`freeCells, m`free, m`usedCells, m`freeCount, m`tmp1, m`tmp5
    ensures s.None? ==> Exhausted(m) && Intact(o.ram, m.ram[..], Outer(m))
    ensures s.Some? ==> Dividing(m, o, q, r, t / 2)
  {
    hide Reach, Rep, DigitCells, Intact;
    ghost var b := m.View();
    Registered(m, m.tmp5, t);
    s := Shr(m, m.tmp5, t, DigitCells(m.View(), m.tmp5, t));
    DivisionSurvives(b, m.View(), o, Outer(m), RootsBut1(m), m.tmp3, m.tmp4, m.tmp5, q, r, t);
    if s.Some? {
      ghost var outer := Outer(m);
      SetTmp5(m, s.value, t / 2);
      assert Outer(m) == outer;
    }
  }

  /** One round of the shift-subtract loop. */
  method DivideRound(m: Machine, ghost o: Mem, ghost q: nat, ghost r: nat, ghost t: nat) returns (s: Option<Word>)
    requires Dividing(m, o, q, r, t)
    modifies m.ram, m`freeCells, m`free, m`usedCells, m`freeCount, m`tmp1, m`tmp3, m`tmp4, m`tmp5
    ensures s.None? ==> Exhausted(m) && Intact(o.ram, m.ram[..], Outer(m))
    ensures s.Some? ==> if r >= t then Dividing(m, o, 2 * q + 1, r - t, t / 2) else Dividing(m, o, 2 * q, r, t / 2)
  {
    hide Quotients, Machine.Valid, Exhausted, Intact;
    s := DivideDouble(m, o, q, r, t);
    if s.None? { return; }
    DividingReps(m, o, 2 * q, r, t);
    var order := Cmp(m, m.tmp4, m.tmp5, r, t);
    if order >= 1 {
      s := DivideSubtract(m, o, 2 * q, r, t);
      if s.None? { return; }
      s := DivideCount(m, o, 2 * q, r - t, t);
      if s.None? { return; }
      s := DivideHalve(m, o, 2 * q + 1, r - t, t);
    } else {
      s := DivideHalve(m, o, 2 * q, r, t);
    }
  }

  lemma DividingReps(m: Machine, o: Mem, q: nat, r: nat, t: nat)
    requires Dividing(m, o, q, r, t)
    ensures m.View().Sane() && Rep(m.View(), m.tmp3, q) && Rep(m.View(), m.tmp4, r) && Rep(m.View(), m.tmp5, t)
  {}

  /** bignum_tmp4 = x; bignum_tmp5 = y; bignum_tmp3 = ZERO */
  method StartDivision(m: Machine, x: Word, y: Word, ghost vx: nat, ghost vy: nat)
    requires m.Valid() && m.tmp1 == NIL && Safe(m, x, vx) && Safe(m, y, vy)
    modifies m`tmp3, m`tmp4, m`tmp5
    ensures Dividing(m, old(m.View()), 0, vx, vy)
  {
    hide Reach, Rep, DigitCells;
    ghost var g, outer := m.View(), Outer(m);
    IntactRefl(g.ram, outer);
    SmallRep(m.View(), 0);
    SetTmp4(m, x, vx);
    SetTmp5(m, y, vy);
    SetTmp3(m, ZERO, 0);
    assert Outer(m) == outer && m.View() == g;
  }

  /** bignum_tmp5 = shift_left(bignum_tmp5, n) */
  method DivideShift(m: Machine, ghost o: Mem, n: Word, ghost r: nat, ghost t: nat) returns (s: Option<Word>)
    requires Dividing(m, o, 0, r, t)
    modifies m.ram, m`freeCells, m`free, m`usedCells, m`freeCount, m`tmp1, m`tmp2, m`tmp5
    ensures s.None? ==> Exhausted(m) && Intact(o.ram, m.ram[..], Outer(m))
    ensures s.Some? ==> Dividing(m, o, 0, r, t * Pow2(n))
  {
    hide Reach, Rep, DigitCells, Intact, Pow2;
    ghost var b, roots := m.View(), RootsBut12(m);
    HeldChain(m, m.tmp5, t);
    s := ShiftLeft(m, m.tmp5, n, t, DigitCells(m.View(), m.tmp5, t));
    DivisionSurvives(b, m.View(), o, Outer(m), roots, m.tmp3, m.tmp4, m.tmp5, 0, r, t);
    if s.Some? {
      ghost var g, outer := m.View(), Outer(m);
      SetTmp5(m, s.value, t * Pow2(n));
      assert Outer(m) == outer && m.View() == g;
    }
  }

  /** tmp = bignum_tmp3; bignum_tmp3 = NIL; bignum_tmp4 = NIL */
  method EndDivision(m: Machine, ghost o: Mem, ghost q: nat, ghost r: nat, ghost t: nat) returns (x: Word)
    requires Dividing(m, o, q, r, t)
    modifies m`tmp3, m`tmp4
    ensures m.tmp1 == m.tmp3 == m.tmp4 == NIL
    ensures Intact(o.ram, m.ram[..], Outer(m)) && Result(m, Outer(m), x, q, {})
  {
    hide Reach, Rep, DigitCells, Intact;
    HeldChain(m, m.tmp3, q);
    ghost var roots, g, outer := m.Roots(), m.View(), Outer(m);
    x := m.tmp3;
    m.tmp3 := NIL;
    m.tmp4 := NIL;
    Cleared(m, roots);
    assert Outer(m) == outer && m.View() == g;
  }

  /** The 16-bit counters of integer_length decide how often the loop runs. */
  ghost function DivResult(x: nat, y: nat): nat {
    var lx, ly := BitLength(x) % B, BitLength(y) % B;
    if lx < ly then 0 else Saturated(x, y, lx - ly)
  }

  /** divnonneg.  The quotient register is rooted in bignum_tmp3 throughout; bignum_tmp5 keeps the
      shifted divisor afterwards. */
  method DivNonNeg(m: Machine, x: Word, y: Word, ghost vx: nat, ghost vy: nat) returns (result: Option<Word>)
    requires m.Valid() && m.tmp1 == NIL && Safe(m, x, vx) && Safe(m, y, vy)
    modifies m.ram, m`freeCells, m`free, m`usedCells, m`freeCount, m`tmp1, m`tmp2, m`tmp3, m`tmp4, m`tmp5
    ensures Intact(old(m.ram[..]), m.ram[..], Outer(m))
    ensures result.None? ==> Exhausted(m)
    ensures result.Some? ==> Result(m, Outer(m), result.value, DivResult(vx, vy), {})
    ensures result.Some? ==> m.tmp1 == m.tmp3 == m.tmp4 == NIL
  {
    hide Dividing, Result, Intact, Exhausted, Division, Pow2, Saturated, BitLength, Machine.Valid;
    ghost var o := m.View();
    StartDivision(m, x, y, vx, vy);
    DividingReps(m, o, 0, vx, vy);
    var lx := IntegerLength(m, m.tmp4, vx);
    var ly := IntegerLength(m, m.tmp5, vy);
    ghost var q: nat, r: nat, t: nat := 0, vx, vy;
    if lx >= ly {
      lx := lx - ly;
      ghost var s := lx;
      result := DivideShift(m, o, lx, vx, vy);
      if result.None? { return; }
      t := vy * Pow2(lx);
      DivisionStart(vx, vy, s);
      var i: int, more := lx, true;
      while more
        invariant -1 <= i <= s && more == (i >= 0)
        invariant Division(vx, vy, s, i, q, r) && Dividing(m, o, q, r, t)
        invariant more ==> t == vy * Pow2(i)
        decreases i
      {
        DivisionRound(vx, vy, s, i, q, r);
        result := DivideRound(m, o, q, r, t);
        if result.None? { return; }
        q, r := if r >= t then 2 * q + 1 else 2 * q, if r >= t then r - t else r;
        t := t / 2;
        more := i != 0;
        i := i - 1;
      }
      DivisionEnd(vx, vy, s, q, r);
    }
    var tmp := EndDivision(m, o, q, r, t);
    result := Some(tmp);
  }
}
