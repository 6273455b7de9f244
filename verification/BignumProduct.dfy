/** Multiplication (main/bignum.c). */
module BignumProduct {
  import opened Cells
  import opened Wrappers
  import opened Numbers
  import opened Memory
  import opened Bignum
  import opened BignumDivision

  /** The roots multiplication does not use itself. */
  ghost function Beyond(m: Machine): set<int>
    reads m
  {
    Outer(m) + {m.tmp5}
  }

  ghost function RootsBut3(m: Machine): set<int>
    reads m
  {
    Outer(m) + {m.tmp1, m.tmp2, m.tmp4, m.tmp5}
  }

  /** The digits of a product done so far, in memory m: a list that nothing but bignum_tmp3
      leads to, in front of w at address x4. */
  ghost predicate Partial(m: Mem, o: Mem, outer: set<int>, others: set<int>, x3: Word, x4: Word,
                          cells: seq<Word>, ds: seq<Word>, w: int, chain: set<int>) {
    && o.Sane() && m.Sane() && Intact(o.ram, m.ram, outer)
    && Prefix(m, x3, cells, ds)
    && (forall c | c in cells :: c as int !in Reach(m.ram, others))
    && Rep(m, x4, w)
    && (forall c | c in DigitCells(m, x4, w) && c in Reach(m.ram, outer) :: c in chain)
    && chain <= Reach(m.ram, outer)
  }

  ghost predicate Multiplying(m: Machine, o: Mem, outer: set<int>, cells: seq<Word>, ds: seq<Word>, w: int,
                              chain: set<int>)
    reads m, m.ram
  {
    && m.Valid() && m.tmp1 == NIL && outer == Beyond(m)
    && Partial(m.View(), o, outer, RootsBut3(m), m.tmp3, m.tmp4, cells, ds, w, chain)
  }

  /** A routine that keeps all roots but bignum_tmp1 keeps the partial product. */
  lemma PartialSurvives(b: Mem, g: Mem, o: Mem, outer: set<int>, others: set<int>, roots: set<int>, x3: Word, x4: Word,
                        cells: seq<Word>, ds: seq<Word>, w: int, chain: set<int>)
    requires g.Sane() && g.rom == b.rom && g.reserved == b.reserved
    requires Partial(b, o, outer, others, x3, x4, cells, ds, w, chain) && Intact(b.ram, g.ram, roots)
    requires outer <= roots && x3 as int in roots && x4 as int in roots && others <= roots + {NIL as int}
    ensures Partial(g, o, outer, others, x3, x4, cells, ds, w, chain)
    ensures DigitCells(g, x4, w) == DigitCells(b, x4, w) && Reach(g.ram, others) == Reach(b.ram, others)
  {
    IntactLess(b.ram, g.ram, roots, outer);
    IntactTrans(o.ram, b.ram, g.ram, outer);
    SameReach(b.ram, g.ram, outer);
    StillThere(b, g, roots, x4, w);
    ListSurvives(b, g, roots, x3, cells, ds);
    OthersSurvive(b, g, roots, others);
  }

  lemma SameReach(h: seq<Cell>, g: seq<Cell>, roots: set<int>)
    requires Intact(h, g, roots)
    ensures Reach(g, roots) == Reach(h, roots)
  {}

  lemma ListReached(m: Mem, roots: set<int>, x3: Word, cells: seq<Word>, ds: seq<Word>)
    requires m.Sane() && Prefix(m, x3, cells, ds) && x3 as int in roots
    ensures Elements(cells) <= Reach(m.ram, roots)
  {
    ReachClosed(m.ram, roots);
    if |cells| > 0 {
      PrefixPop(m, x3, cells, ds);
      assert Open(m.ram, x3);
    }
    PrefixReached(m, x3, cells, ds, Reach(m.ram, roots));
  }

  lemma ListSurvives(b: Mem, g: Mem, roots: set<int>, x3: Word, cells: seq<Word>, ds: seq<Word>)
    requires b.Sane() && g.Sane() && g.reserved == b.reserved && Intact(b.ram, g.ram, roots)
    requires Prefix(b, x3, cells, ds) && x3 as int in roots
    ensures Prefix(g, x3, cells, ds)
  {
    ListReached(b, roots, x3, cells, ds);
    ElementsHas(cells);
    PrefixFrame(b, g, x3, cells, ds);
  }

  lemma OthersSurvive(b: Mem, g: Mem, roots: set<int>, others: set<int>)
    requires b.Sane() && g.Sane() && Intact(b.ram, g.ram, roots) && others <= roots + {NIL as int}
    ensures Reach(g.ram, others) == Reach(b.ram, others)
  {
    ReachClosed(b.ram, roots);
    assert Holds(b.ram, others, Reach(b.ram, roots));
    ReachLeast(b.ram, others, Reach(b.ram, roots));
    ReachFrame(b.ram, g.ram, others);
  }

  /** A new number at address x, registered through others, keeps away from the list when all it
      shares with registered cells is shared with the other roots. */
  lemma ListApart(m: Mem, others: set<int>, others': set<int>, roots: set<int>, cells: seq<Word>, x: Word, u: int,
                  chain: set<int>)
    requires m.Sane() && Rep(m, x, u) && others' <= others + {x as int}
    requires forall c | c in DigitCells(m, x, u) :: c in Reach(m.ram, roots) ==> c in chain
    requires chain <= Reach(m.ram, others) && Elements(cells) <= Reach(m.ram, roots)
    requires forall c | c in cells :: c as int !in Reach(m.ram, others)
    ensures forall c | c in cells :: c as int !in Reach(m.ram, others')
  {
    AdoptBound(m, others, others', x, u);
    ElementsHas(cells);
  }

  /** bignum_tmp2 = scale(digit, y) */
  method ScaleInto2(m: Machine, digit: Word, y: Word, ghost vy: int, ghost o: Mem, ghost outer: set<int>,
                    ghost cells: seq<Word>, ghost ds: seq<Word>, ghost w: int, ghost chain: set<int>)
      returns (s: Option<Word>)
    requires Multiplying(m, o, outer, cells, ds, w, chain) && Operand(m.View(), outer, y, vy, chain)
    modifies m.ram, m`freeCells, m`free, m`usedCells, m`freeCount, m`tmp1, m`tmp2
    ensures s.None? ==> Exhausted(m) && Intact(o.ram, m.ram[..], outer)
    ensures s.Some? ==> Multiplying(m, o, outer, cells, ds, w, chain)
    ensures forall x, v | Operand(old(m.View()), outer, x, v, chain) :: Operand(m.View(), outer, x, v, chain)
    ensures s.Some? ==> Rep(m.View(), m.tmp2, digit * vy)
    ensures s.Some? ==>
      forall c | c in DigitCells(m.View(), m.tmp2, digit * vy) && c in Reach(m.ram[..], outer) :: c in chain
  {
    hide Reach, Rep, DigitCells, Prefix, Intact, Operand, Elements;
    ghost var b, roots, others := m.View(), RootsBut1(m), RootsBut3(m);
    MoreRoots(b, outer, roots, y, vy, chain);
    ListReached(b, roots, m.tmp3, cells, ds);
    s := Scale(m, digit, y, vy, chain);
    PartialSurvives(b, m.View(), o, outer, others, roots, m.tmp3, m.tmp4, cells, ds, w, chain);
    ghost var g := m.View();
    IntactLess(b.ram, g.ram, roots, outer);
    OperandsKept(b, g, outer, chain);
    if s.Some? {
      SameReach(b.ram, g.ram, roots);
      ReachMonotone(g.ram, outer, others);
      ReachMonotone(g.ram, outer, roots);
      SetTmp2(m, s.value, digit * vy);
      assert m.View() == g;
      ListApart(g, others, RootsBut3(m), roots, cells, m.tmp2, digit * vy, chain);
    }
  }

  lemma MoreRoots(m: Mem, small: set<int>, big: set<int>, x: Word, v: int, chain: set<int>)
    requires Operand(m, small, x, v, chain) && small <= big
    ensures Operand(m, big, x, v, chain)
  {
    ReachMonotone(m.ram, small, big);
  }

  lemma ChainRegistered(m: Mem, roots: set<int>, x: Word, v: int)
    requires m.Sane() && x as int in roots && Rep(m, x, v)
    ensures DigitCells(m, x, v) <= Reach(m.ram, roots)
  {
    ReachClosed(m.ram, roots);
    assert m.InRam(x) ==> Open(m.ram, x);
    ChainHeld(m, x, v, Reach(m.ram, roots));
  }

  /** bignum_tmp4 = add(bignum_tmp4, bignum_tmp2) */
  method AddInto4(m: Machine, ghost o: Mem, ghost outer: set<int>, ghost cells: seq<Word>, ghost ds: seq<Word>,
                  ghost w: int, ghost u: int, ghost chain: set<int>)
      returns (s: Option<Word>)
    requires Multiplying(m, o, outer, cells, ds, w, chain) && Rep(m.View(), m.tmp2, u)
    requires forall c | c in DigitCells(m.View(), m.tmp2, u) && c in Reach(m.ram[..], outer) :: c in chain
    modifies m.ram, m`freeCells, m`free, m`usedCells, m`freeCount, m`tmp1, m`tmp4
    ensures s.None? ==> Exhausted(m) && Intact(o.ram, m.ram[..], outer)
    ensures s.Some? ==> Multiplying(m, o, outer, cells, ds, w + u, chain)
    ensures forall x, v | Operand(old(m.View()), outer, x, v, chain) :: Operand(m.View(), outer, x, v, chain)
  {
    hide Reach, Rep, DigitCells, Prefix, Intact, Operand, Elements;
    ghost var b, roots, others := m.View(), RootsBut1(m), RootsBut3(m);
    ghost var both := DigitCells(b, m.tmp4, w) + DigitCells(b, m.tmp2, u);
    Registered(m, m.tmp4, w);
    Registered(m, m.tmp2, u);
    WiderChain(b, roots, m.tmp4, w, DigitCells(b, m.tmp4, w), both);
    WiderChain(b, roots, m.tmp2, u, DigitCells(b, m.tmp2, u), both);
    ListReached(b, roots, m.tmp3, cells, ds);
    ChainRegistered(b, others, m.tmp4, w);
    ChainRegistered(b, others, m.tmp2, u);
    s := Add(m, m.tmp4, m.tmp2, w, u, both);
    PartialSurvives(b, m.View(), o, outer, others, roots, m.tmp3, m.tmp4, cells, ds, w, chain);
    ghost var g := m.View();
    IntactLess(b.ram, g.ram, roots, outer);
    OperandsKept(b, g, outer, chain);
    if s.Some? {
      SameReach(b.ram, g.ram, outer);
      SameReach(b.ram, g.ram, roots);
      ReachMonotone(g.ram, outer, roots);
      SetTmp4(m, s.value, w + u);
      assert m.View() == g;
      ListApart(g, others, RootsBut3(m), roots, cells, m.tmp4, w + u, both);
    }
  }

  lemma WiderChain(m: Mem, roots: set<int>, x: Word, v: int, chain: set<int>, wide: set<int>)
    requires Operand(m, roots, x, v, chain) && chain <= wide
    ensures Operand(m, roots, x, v, wide)
  {}

  /** bignum_tmp3 = new_bignum(integer_lo(bignum_tmp4), bignum_tmp3) */
  method PushInto3(m: Machine, ghost o: Mem, ghost outer: set<int>, ghost cells: seq<Word>, ghost ds: seq<Word>,
                   ghost w: int, ghost chain: set<int>)
      returns (s: Option<Word>)
    requires Multiplying(m, o, outer, cells, ds, w, chain)
    modifies m.ram, m`freeCells, m`free, m`usedCells, m`freeCount, m`tmp3
    ensures s.None? ==> Exhausted(m) && Intact(o.ram, m.ram[..], outer)
    ensures s.Some? ==> Multiplying(m, o, outer, cells + [m.tmp3], ds + [(w % B) as Word], w, chain)
    ensures forall x, v | Operand(old(m.View()), outer, x, v, chain) :: Operand(m.View(), outer, x, v, chain)
  {
    hide Reach, Rep, DigitCells, Prefix, Intact, Operand, Elements;
    ghost var b, roots, others := m.View(), m.Roots(), RootsBut3(m);
    RepParts(b, m.tmp4, w);
    ListReached(b, roots, m.tmp3, cells, ds);
    ElementsHas(cells);
    s := m.NewBignum(IntegerLo(m, m.tmp4), m.tmp3);
    ghost var g := m.View();
    AllocatedKeepsAll(b, g, roots);
    PartialSurvives(b, g, o, outer, others, roots, m.tmp3, m.tmp4, cells, ds, w, chain);
    IntactLess(b.ram, g.ram, roots, outer);
    OperandsKept(b, g, outer, chain);
    if s.Some? {
      ReachMonotone(g.ram, others, roots);
      PrefixSnoc(g, m.tmp3, cells, ds, s.value, (w % B) as Word);
      PrefixLive(g, others, s.value, cells + [s.value], ds + [(w % B) as Word]);
      m.tmp3 := s.value;
      assert m.View() == g && m.Roots() == others + {m.tmp3 as int} && RootsBut3(m) == others;
      ElementsSnoc(cells, m.tmp3);
    }
  }

  lemma OperandsKept(b: Mem, g: Mem, roots: set<int>, chain: set<int>)
    requires b.Sane() && g.reserved == b.reserved && g.rom == b.rom && Intact(b.ram, g.ram, roots)
    ensures forall x, v | Operand(b, roots, x, v, chain) :: Operand(g, roots, x, v, chain)
  {
    forall x, v | Operand(b, roots, x, v, chain) ensures Operand(g, roots, x, v, chain) {
      OperandKept(b, g, roots, x, v, chain);
    }
  }

  lemma ElementsSnoc(cells: seq<Word>, p: Word)
    ensures Elements(cells + [p]) == Elements(cells) + {p as int}
  {
    var t := cells + [p];
    forall x | x in Elements(cells) ensures x in Elements(t) {
      var i :| 0 <= i < |cells| && cells[i] as int == x;
      assert t[i] as int == x;
    }
    assert t[|cells|] as int in Elements(t);
  }

  /** bignum_tmp4 = integer_hi(bignum_tmp4) */
  method ShiftDown4(m: Machine, ghost o: Mem, ghost outer: set<int>, ghost cells: seq<Word>, ghost ds: seq<Word>,
                    ghost w: int, ghost chain: set<int>)
    requires Multiplying(m, o, outer, cells, ds, w, chain)
    modifies m`tmp4
    ensures Multiplying(m, o, outer, cells, ds, w / B, chain)
  {
    hide Reach, Rep, Prefix, Intact, Operand, Elements;
    ghost var g, others := m.View(), RootsBut3(m);
    RepParts(g, m.tmp4, w);
    HeldChain(m, m.tmp4, w);
    ChainRegistered(g, others, m.tmp4, w);
    var hi := IntegerHi(m, m.tmp4);
    SetTmp4(m, hi, w / B);
    assert m.View() == g;
    AdoptBound(g, others, RootsBut3(m), hi, w / B);
  }

  /** bignum_tmp3 = NIL; bignum_tmp4 = scale(digit, y) */
  method StartProduct(m: Machine, digit: Word, y: Word, ghost vy: int, ghost chain: set<int>) returns (s: Option<Word>)
    requires m.Valid() && m.tmp1 == NIL && Operand(m.View(), Beyond(m), y, vy, chain)
    requires chain <= Reach(m.ram[..], Beyond(m))
    modifies m.ram, m`freeCells, m`free, m`usedCells, m`freeCount, m`tmp1, m`tmp3, m`tmp4
    ensures Intact(old(m.ram[..]), m.ram[..], Beyond(m))
    ensures s.None? ==> Exhausted(m)
    ensures s.Some? ==> Multiplying(m, old(m.View()), Beyond(m), [], [], digit * vy, chain)
    ensures forall x, v | Operand(old(m.View()), Beyond(m), x, v, chain) :: Operand(m.View(), Beyond(m), x, v, chain)
  {
    hide Reach, Rep, DigitCells, Operand, Elements;
    ghost var b, outer, all := m.View(), Beyond(m), m.Roots();
    m.tmp3 := NIL;
    Cleared(m, all);
    assert m.View() == b && Beyond(m) == outer;
    MoreRoots(b, outer, RootsBut1(m), y, vy, chain);
    s := Scale(m, digit, y, vy, chain);
    ghost var g := m.View();
    IntactLess(b.ram, g.ram, RootsBut1(m), outer);
    SameReach(b.ram, g.ram, outer);
    OperandsKept(b, g, outer, chain);
    if s.Some? {
      LooseLess(m, RootsBut1(m), outer, s.value, digit * vy, chain, chain);
      SetTmp4(m, s.value, digit * vy);
      assert m.View() == g && Beyond(m) == outer;
    }
  }

  /** The list and the rest leave their registers, which are cleared, and are normalized. */
  method EndProduct(m: Machine, ghost o: Mem, ghost outer: set<int>, ghost cells: seq<Word>, ghost ds: seq<Word>,
                    ghost w: int, ghost chain: set<int>)
      returns (r: Word)
    requires Multiplying(m, o, outer, cells, ds, w, chain)
    modifies m.ram, m`tmp2, m`tmp3, m`tmp4
    ensures Intact(o.ram, m.ram[..], outer) && outer == Beyond(m)
    ensures Result(m, outer, r, Join(ds, w), chain) && m.tmp1 == m.tmp2 == m.tmp3 == m.tmp4 == NIL
  {
    hide Rep, DigitCells, Prefix, Join, Elements;
    ghost var b, others, all := m.View(), RootsBut3(m), m.Roots();
    ChainRegistered(b, others, m.tmp4, w);
    HeldChain(m, m.tmp4, w);
    ListReached(b, all, m.tmp3, cells, ds);
    ElementsHas(cells);
    ReachMonotone(b.ram, outer, others);
    ReachMonotone(b.ram, outer, all);
    var list, rest := m.tmp3, m.tmp4;
    m.tmp2 := NIL;
    m.tmp3 := NIL;
    m.tmp4 := NIL;
    Cleared(m, all);
    assert m.View() == b && Beyond(m) == outer;
    r := Norm(m, list, rest, cells, ds, w);
    RelinkedKeeps(b, m.View(), outer, cells, m.freeCells, m.free);
    IntactTrans(o.ram, b.ram, m.ram[..], outer);
    EndIsResult(m, b, outer, others, cells, r, Join(ds, w), DigitCells(b, rest, w), chain);
  }

  lemma EndIsResult(m: Machine, b: Mem, outer: set<int>, others: set<int>, cells: seq<Word>, r: Word, v: int,
                    rest: set<int>, chain: set<int>)
    requires m.Shaped() && m.Roots() <= outer + {NIL as int} && Intact(b.ram, m.ram[..], outer)
    requires forall f | f in m.free :: f !in Reach(b.ram, outer) && f !in cells && f as int !in rest
    requires Rep(m.View(), r, v) && DigitCells(m.View(), r, v) <= rest + Elements(cells)
    requires forall c | c in cells :: c as int !in Reach(b.ram, outer)
    requires forall c | c in rest && c in Reach(b.ram, outer) :: c in chain
    ensures Result(m, outer, r, v, chain)
  {
    SameReach(b.ram, m.ram[..], outer);
    Cleared(m, outer);
    forall c | c in DigitCells(m.View(), r, v) ensures c !in m.free && (c in Reach(b.ram, outer) ==> c in chain) {
      if c in Elements(cells) {
        var i :| 0 <= i < |cells| && cells[i] as int == c;
        assert cells[i] in cells;
      }
    }
  }

  /** mulnonneg: the exact product of a nonnegative x and any y. */
  method MulNonNeg(m: Machine, x0: Word, y: Word, ghost vx: nat, ghost vy: int, ghost chain: set<int>)
      returns (r: Option<Word>)
    requires m.Valid() && m.tmp1 == NIL
    requires Operand(m.View(), Beyond(m), x0, vx, chain) && Operand(m.View(), Beyond(m), y, vy, chain)
    requires chain <= Reach(m.ram[..], Beyond(m))
    modifies m.ram, m`freeCells, m`free, m`usedCells, m`freeCount, m`tmp1, m`tmp2, m`tmp3, m`tmp4
    ensures Intact(old(m.ram[..]), m.ram[..], Beyond(m))
    ensures r.None? ==> Exhausted(m)
    ensures r.Some? ==> Result(m, Beyond(m), r.value, vx * vy, chain) && m.tmp1 == m.tmp2 == m.tmp3 == m.tmp4 == NIL
  {
    hide Operand, Multiplying, Result, Intact, Exhausted, Join, Machine.Valid;
    ghost var o, outer := m.View(), Beyond(m);
    ghost var a: nat, w := vx, vx % B * vy;
    ghost var cells: seq<Word>, ds: seq<Word> := [], [];
    var x := x0;
    ValidSane(m);
    OperandIn(m, outer, x, a, chain);
    r := StartProduct(m, IntegerLo(m, x), y, vy, chain);
    if r.None? { return; }
    ProductStart(vx, vy);
    var more := true;
    while more
      invariant Multiplying(m, o, outer, cells, ds, w, chain)
      invariant more ==> Operand(m.View(), outer, x, a, chain) && Operand(m.View(), outer, y, vy, chain)
      invariant Join(ds, if more then w + B * (a / B * vy) else w) == vx * vy
      decreases a, more
    {
      r := PushInto3(m, o, outer, cells, ds, w, chain);
      if r.None? { return; }
      cells, ds := cells + [m.tmp3], ds + [(w % B) as Word];
      ShiftDown4(m, o, outer, cells, ds, w, chain);
      MultiplyingSane(m, o, outer, cells, ds, w / B, chain);
      OperandIn(m, outer, x, a, chain);
      x := IntegerHi(m, x);
      OperandIn(m, outer, x, a / B, chain);
      ProductDigit(ds[..|ds| - 1], w, a, vy);
      w, a := w / B, a / B;
      if x == ZERO {
        more := false;
      } else {
        ghost var u := a % B * vy;
        r := ScaleInto2(m, IntegerLo(m, x), y, vy, o, outer, cells, ds, w, chain);
        if r.None? { return; }
        r := AddInto4(m, o, outer, cells, ds, w, u, chain);
        if r.None? { return; }
        w := w + u;
      }
    }
    var product := EndProduct(m, o, outer, cells, ds, w, chain);
    r := Some(product);
  }

  lemma ValidSane(m: Machine)
    requires m.Valid()
    ensures m.View().Sane()
  {}

  lemma MultiplyingSane(m: Machine, o: Mem, outer: set<int>, cells: seq<Word>, ds: seq<Word>, w: int, chain: set<int>)
    requires Multiplying(m, o, outer, cells, ds, w, chain)
    ensures m.View().Sane()
  {}

  lemma OperandIn(m: Machine, roots: set<int>, x: Word, v: int, chain: set<int>)
    requires m.View().Sane() && Operand(m.View(), roots, x, v, chain)
    ensures IntegerLo(m, x) == v % B && Operand(m.View(), roots, IntegerHi(m, x), v / B, chain)
    ensures x == ZERO <==> v == 0
  {
    OperandParts(m.View(), roots, x, v, chain);
  }

  lemma ProductStart(vx: nat, vy: int)
    ensures Join([], vx % B * vy + B * (vx / B * vy)) == vx * vy
  {
    assert vx == vx % B + B * (vx / B);
  }

  lemma ProductDigit(ds: seq<Word>, w: int, a: nat, vy: int)
    ensures Join(ds + [(w % B) as Word], w / B + a / B * vy) == Join(ds, w + B * (a / B * vy))
    ensures a / B * vy == a / B % B * vy + B * (a / B / B * vy)
  {
    JoinSnoc(ds, w % B, w / B + a / B * vy);
    var q := a / B;
    assert q == q % B + B * (q / B);
  }
}
