/** The numeric primitives and library procedures on top of the bignum routines
    (main/primitives-numeric.c, compiler/library.scm). */
module NumericPrimitives {
  import opened Cells
  import opened Wrappers
  import opened Numbers
  import opened Memory
  import opened Arithmetic
  import opened Bignum
  import opened BignumDivision
  import opened BignumProduct

  /** The condition under which the two 16-bit bit lengths are off by the same amount, or the
      dividend's by less. */
  ghost predicate LengthsFit(x: nat, y: nat) {
    BitLength(x) / B <= BitLength(y) / B
  }

  /** divnonneg is exact precisely when the lengths fit. */
  lemma DivExact(x: nat, y: nat)
    requires y > 0
    ensures DivResult(x, y) == x / y <==> LengthsFit(x, y)
  {
    var lx, ly, q := BitLength(x), BitLength(y), x / y;
    var a, b, lx', ly' := lx / B, ly / B, lx % B, ly % B;
    QuotientBounds(x, y);
    if a <= b {
      if lx' >= ly' && lx >= ly {
        assert lx - ly == lx' - ly';
      }
    } else {
      assert lx > ly && q >= Pow2(lx - ly - 1);
      if lx' >= ly' {
        Pow2Monotone(lx' - ly' + 1, lx - ly - 1);
      }
    }
  }

  /** In particular for every dividend of fewer than 65536 bits. */
  lemma DivShort(x: nat, y: nat)
    requires y > 0 && BitLength(x) < B
    ensures DivResult(x, y) == x / y
  {
    DivExact(x, y);
  }

  /** The shortest dividend of 65536 bits, divided by one, gives zero. */
  lemma DivTooLong()
    ensures DivResult(Pow2(B - 1), 1) == 0 && Pow2(B - 1) / 1 != 0
  {
    BitLengthPow2(B - 1);
  }

  /** Dividing by zero is reported but carried through. */
  lemma DivByZero(x: nat)
    ensures DivResult(x, 0) == Pow2(BitLength(x) % B + 1) - 1
  {
    hide Pow2, BitLength;
    BitLengthHalf(0);
  }

  /** What no numeric primitive touches. */
  ghost function Bystanders(m: Machine): set<int>
    reads m
  {
    m.Globals() + {m.cont, m.env}
  }

  ghost predicate Number(m: Machine, x: Word, v: int)
    reads m, m.ram
  {
    m.Valid() && Rep(m.View(), x, v)
  }

  /** reg3 = divnonneg(reg1, reg2) */
  method RemQuotient(m: Machine, ghost vx: nat, ghost vy: nat) returns (ok: Option<Word>)
    requires Number(m, m.reg1, vx) && Number(m, m.reg2, vy) && m.tmp1 == NIL
    modifies m.ram, m`freeCells, m`free, m`usedCells, m`freeCount
    modifies m`tmp1, m`tmp2, m`tmp3, m`tmp4, m`tmp5, m`reg3
    ensures Intact(old(m.ram[..]), m.ram[..], Bystanders(m))
    ensures ok.None? ==> Exhausted(m)
    ensures ok.Some? ==>
      Number(m, m.reg1, vx) && Number(m, m.reg2, vy) && Number(m, m.reg3, DivResult(vx, vy)) && m.tmp1 == NIL
  {
    hide Reach, Rep, DigitCells, Intact, DivResult;
    ghost var o, rest := m.View(), Bystanders(m);
    HeldChain(m, m.reg1, vx);
    HeldChain(m, m.reg2, vy);
    ok := DivNonNeg(m, m.reg1, m.reg2, vx, vy);
    ghost var g := m.View();
    IntactLess(o.ram, g.ram, Outer(m), rest);
    if ok.None? { return; }
    StillThere(o, g, Outer(m), m.reg1, vx);
    StillThere(o, g, Outer(m), m.reg2, vy);
    SetReg3(m, ok.value, DivResult(vx, vy));
    assert m.View() == g;
  }

  /** reg4 = mulnonneg(reg2, reg3) */
  method RemProduct(m: Machine, ghost vx: nat, ghost vy: nat, ghost q: nat) returns (ok: Option<Word>)
    requires Number(m, m.reg1, vx) && Number(m, m.reg2, vy) && Number(m, m.reg3, q) && m.tmp1 == NIL
    modifies m.ram, m`freeCells, m`free, m`usedCells, m`freeCount
    modifies m`tmp1, m`tmp2, m`tmp3, m`tmp4, m`reg4
    ensures Intact(old(m.ram[..]), m.ram[..], Bystanders(m))
    ensures ok.None? ==> Exhausted(m)
    ensures ok.Some? ==> Number(m, m.reg1, vx) && Number(m, m.reg4, vy * q) && m.tmp1 == NIL
  {
    hide Reach, Rep, DigitCells, Intact;
    ghost var o, rest, beyond := m.View(), Bystanders(m), Beyond(m);
    ghost var chain := DigitCells(o, m.reg2, vy) + DigitCells(o, m.reg3, q);
    RegisteredAs(m, beyond, m.reg2, vy, chain);
    RegisteredAs(m, beyond, m.reg3, q, chain);
    ok := MulNonNeg(m, m.reg2, m.reg3, vy, q, chain);
    ghost var g := m.View();
    IntactLess(o.ram, g.ram, beyond, rest);
    if ok.None? { return; }
    StillThere(o, g, beyond, m.reg1, vx);
    SetReg4(m, ok.value, vy * q);
    assert m.View() == g;
  }

  /** reg1 = sub(reg1, reg4) */
  method RemDifference(m: Machine, ghost vx: int, ghost p: int) returns (ok: Option<Word>)
    requires Number(m, m.reg1, vx) && Number(m, m.reg4, p)
    modifies m.ram, m`freeCells, m`free, m`usedCells, m`freeCount, m`tmp1, m`reg1
    ensures Intact(old(m.ram[..]), m.ram[..], Bystanders(m))
    ensures ok.None? ==> Exhausted(m)
    ensures ok.Some? ==> Number(m, m.reg1, vx - p) && m.tmp1 == NIL
  {
    hide Reach, Rep, DigitCells, Intact;
    ghost var o, rest, roots := m.View(), Bystanders(m), RootsBut1(m);
    ghost var both := DigitCells(o, m.reg1, vx) + DigitCells(o, m.reg4, p);
    RegisteredAs(m, roots, m.reg1, vx, both);
    RegisteredAs(m, roots, m.reg4, p, both);
    ok := Sub(m, m.reg1, m.reg4, vx, p, both);
    ghost var g := m.View();
    IntactLess(o.ram, g.ram, roots, rest);
    if ok.None? { return; }
    SetReg1(m, ok.value, vx - p);
    assert m.View() == g;
  }

  /** #%rem-non-neg: x - y * quotient, through three routines and four registers. */
  method RemNonNeg(m: Machine, ghost vx: nat, ghost vy: nat) returns (ok: Option<Word>)
    requires Number(m, m.reg1, vx) && Number(m, m.reg2, vy) && m.tmp1 == NIL
    modifies m.ram, m`freeCells, m`free, m`usedCells, m`freeCount
    modifies m`tmp1, m`tmp2, m`tmp3, m`tmp4, m`tmp5, m`reg1, m`reg2, m`reg3, m`reg4
    ensures Intact(old(m.ram[..]), m.ram[..], Bystanders(m))
    ensures ok.None? ==> Exhausted(m)
    ensures ok.Some? ==> Number(m, m.reg1, vx - vy * DivResult(vx, vy))
    ensures ok.Some? ==> m.reg2 == m.reg3 == m.reg4 == NIL && m.tmp1 == NIL
  {
    hide Intact, DivResult, Number, Exhausted;
    ghost var o, rest, q := m.ram[..], Bystanders(m), DivResult(vx, vy);
    ok := RemQuotient(m, vx, vy);
    if ok.None? { return; }
    ghost var g1 := m.ram[..];
    ok := RemProduct(m, vx, vy, q);
    IntactTrans(o, g1, m.ram[..], rest);
    if ok.None? { return; }
    ghost var g2 := m.ram[..];
    ok := RemDifference(m, vx, vy * q);
    IntactTrans(o, g2, m.ram[..], rest);
    if ok.None? { return; }
    ClearRegisters(m, vx - vy * q);
  }

  /** reg3 = NIL; reg4 = NIL; reg2 = NIL */
  method ClearRegisters(m: Machine, ghost v: int)
    requires Number(m, m.reg1, v)
    modifies m`reg2, m`reg3, m`reg4
    ensures Number(m, m.reg1, v) && m.reg2 == m.reg3 == m.reg4 == NIL
  {
    hide Rep;
    ghost var all, g := m.Roots(), m.View();
    m.reg3 := NIL;
    m.reg4 := NIL;
    m.reg2 := NIL;
    Cleared(m, all);
    assert m.View() == g;
  }

  lemma RegisteredAs(m: Machine, roots: set<int>, x: Word, v: int, chain: set<int>)
    requires m.Valid() && x as int in roots && Rep(m.View(), x, v) && DigitCells(m.View(), x, v) <= chain
    ensures Operand(m.View(), roots, x, v, chain) && DigitCells(m.View(), x, v) <= Reach(m.ram[..], roots)
  {
    ReachClosed(m.ram[..], roots);
    assert m.View().InRam(x) ==> Open(m.ram[..], x);
    ChainHeld(m.View(), x, v, Reach(m.ram[..], roots));
  }

  method SetReg1(m: Machine, x: Word, ghost v: int)
    requires m.Valid() && Safe(m, x, v)
    modifies m`reg1
    ensures m.reg1 == x && m.Valid()
  {
    ghost var roots := m.Roots();
    m.reg1 := x;
    Adopted(m, roots, x, v);
  }

  method SetReg3(m: Machine, x: Word, ghost v: int)
    requires m.Valid() && Safe(m, x, v)
    modifies m`reg3
    ensures m.reg3 == x && m.Valid()
  {
    ghost var roots := m.Roots();
    m.reg3 := x;
    Adopted(m, roots, x, v);
  }

  method SetReg4(m: Machine, x: Word, ghost v: int)
    requires m.Valid() && Safe(m, x, v)
    modifies m`reg4
    ensures m.reg4 == x && m.Valid()
  {
    ghost var roots := m.Roots();
    m.reg4 := x;
    Adopted(m, roots, x, v);
  }

  /** The remainder is the true one precisely when the quotient is. */
  lemma RemainderExact(x: nat, y: nat)
    requires y > 0
    ensures x - y * DivResult(x, y) == x % y <==> LengthsFit(x, y)
    ensures 0 <= x % y < y
  {
    hide DivResult, LengthsFit;
    DivExact(x, y);
    SameProduct(y, DivResult(x, y), x / y);
    assert x == y * (x / y) + x % y;
  }

  lemma SameProduct(y: nat, a: int, b: int)
    requires y > 0
    ensures y * a == y * b <==> a == b
  {
    assert y * a - y * b == y * (a - b);
    if a != b {
      MulAtLeast(if a > b then a - b else b - a, y);
      assert y * (b - a) == -(y * (a - b));
    }
  }

  ghost function Abs(v: int): nat {
    if v < 0 then -v else v
  }

  /** quotient of library.scm: the primitive on absolute values, then the sign. */
  ghost function LibraryQuotient(x: int, y: int): int {
    var xNeg, yNeg := x < 0, y < 0;
    var quot := DivResult(Abs(x), Abs(y));
    if xNeg && yNeg then quot else if xNeg || yNeg then 0 - quot else quot
  }

  /** Signed division truncates towards zero (section 6.2.5 of R5RS): the remainder it leaves is
      smaller than the divisor and has the sign of the dividend. */
  lemma QuotientTruncates(x: int, y: int)
    requires y != 0 && LengthsFit(Abs(x), Abs(y))
    ensures var r := x - y * LibraryQuotient(x, y); Abs(r) < Abs(y) && (r == 0 || (r < 0 <==> x < 0))
  {
    hide DivResult, LengthsFit;
    var a: nat, b: nat := Abs(x), Abs(y);
    DivExact(a, b);
    var q, r := a / b, a % b;
    assert a == b * q + r;
    var s := LibraryQuotient(x, y);
    assert s == q || s == -q;
    SignedProduct(y, s, b, q);
  }

  lemma SignedProduct(y: int, s: int, b: nat, q: nat)
    requires (y == b || y == 0 - b) && (s == q || s == 0 - q)
    ensures y * s == if (y == b) == (s == q) || b * q == 0 then b * q else -(b * q)
  {}
}
