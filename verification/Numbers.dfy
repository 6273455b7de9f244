/** How integers are kept in memory (main/bignum.c): chains of 16-bit digits, least significant
    first, ending in a small integer. */
module Numbers {
  import opened Cells
  import Marking

  const B := 0x10000

  /** What an address means: RAM cells, ROM cells, and where the globals end. */
  datatype Mem = Mem(ram: seq<Cell>, rom: seq<Cell>, reserved: nat) {
    predicate InRam(x: Word) { reserved <= x < |ram| }

    predicate InRom(x: Word) { ROM_START <= x < SMALL_INT_START && x - ROM_START < |rom| }

    function At(x: Word): Cell
      requires InRam(x) || InRom(x)
    {
      if InRam(x) then ram[x] else rom[x - ROM_START]
    }

    /** integer_lo */
    function Lo(x: Word): Word {
      if InRam(x) || InRom(x) then At(x).cdr else (x % 512 - 1) % B
    }

    /** integer_hi */
    function Hi(x: Word): Word {
      if InRam(x) || InRom(x) then At(x).car else if x == NEG1 then NEG1 else ZERO
    }

    ghost predicate Sane() {
      reserved < |ram| < ROM_START && Marking.Blank(ram)
    }
  }

  /** ENCODE_SMALL_INT, on digits as well as on small integers. */
  function Small(v: int): (x: Word)
    requires (v + 1) % B <= 256
    ensures -1 <= v <= 255 ==> x == SMALL_INT_START + v + 1
  {
    SMALL_INT_START + (v + 1) % B
  }

  ghost predicate IsBignum(m: Mem, x: Word) {
    && (m.InRam(x) || m.InRom(x))
    && m.At(x).typ == BIGNUM
    && (m.InRom(x) ==> m.At(x).car >= ROM_START)
  }

  /** x is the canonical form of the integer v. */
  ghost predicate Rep(m: Mem, x: Word, v: int)
    decreases if v < 0 then -v else v
  {
    if -1 <= v <= 255 then
      x == Small(v)
    else
      IsBignum(m, x) && m.At(x).cdr == v % B && Rep(m, m.At(x).car, v / B)
  }

  /** The RAM cells of that form. */
  ghost function DigitCells(m: Mem, x: Word, v: int): set<int>
    requires Rep(m, x, v)
    decreases if v < 0 then -v else v
  {
    if -1 <= v <= 255 then {} else (if m.InRam(x) then {x as int} else {}) + DigitCells(m, m.At(x).car, v / B)
  }

  /** The integer whose low digits are ds and whose rest is n. */
  ghost function Join(ds: seq<Word>, n: int): int {
    if ds == [] then n else Join(ds[..|ds| - 1], ds[|ds| - 1] + B * n)
  }

  lemma JoinSnoc(ds: seq<Word>, d: Word, n: int)
    ensures Join(ds + [d], n) == Join(ds, d + B * n)
  {
    assert (ds + [d])[..|ds|] == ds;
  }

  /** Canonical forms are unique: a number has one value, and small ones one address. */
  lemma {:induction false} RepUnique(m: Mem, x: Word, v: int, w: int)
    requires m.Sane() && Rep(m, x, v) && Rep(m, x, w)
    ensures v == w
    decreases if v < 0 then -v else v
  {
    if !(-1 <= v <= 255) && !(-1 <= w <= 255) {
      RepUnique(m, m.At(x).car, v / B, w / B);
    }
  }

  /** The low digit and the rest, for every integer, small or not. */
  lemma RepParts(m: Mem, x: Word, v: int)
    requires m.Sane() && Rep(m, x, v)
    ensures m.Lo(x) == v % B && Rep(m, m.Hi(x), v / B)
    ensures DigitCells(m, m.Hi(x), v / B) <= DigitCells(m, x, v)
    ensures (x == ZERO <==> v == 0) && (x == NEG1 <==> v == -1)
  {
    if -1 <= v <= 255 {
      assert v / B == (if v == -1 then -1 else 0);
    }
  }

  /** Only the chain matters. */
  lemma {:induction false} RepFrame(m: Mem, g: Mem, x: Word, v: int)
    requires |g.ram| == |m.ram| && g.rom == m.rom && g.reserved == m.reserved
    requires Rep(m, x, v) && forall i | i in DigitCells(m, x, v) :: 0 <= i < |m.ram| && g.ram[i].Same(m.ram[i])
    ensures Rep(g, x, v) && DigitCells(g, x, v) == DigitCells(m, x, v)
    decreases if v < 0 then -v else v
  {
    if !(-1 <= v <= 255) {
      assert DigitCells(m, m.At(x).car, v / B) <= DigitCells(m, x, v);
      assert m.InRam(x) ==> x in DigitCells(m, x, v);
      RepFrame(m, g, m.At(x).car, v / B);
    }
  }

  lemma {:induction false} ChainInRam(m: Mem, x: Word, v: int)
    requires Rep(m, x, v)
    ensures forall i | i in DigitCells(m, x, v) :: m.reserved <= i < |m.ram|
    decreases if v < 0 then -v else v
  {
    if !(-1 <= v <= 255) {
      ChainInRam(m, m.At(x).car, v / B);
    }
  }

  /** A closed set that holds x holds its whole chain. */
  lemma {:induction false} ChainHeld(m: Mem, x: Word, v: int, k: set<int>)
    requires m.Sane() && Rep(m, x, v) && Closed(m.ram, k) && (m.InRam(x) ==> x in k)
    ensures DigitCells(m, x, v) <= k
    decreases if v < 0 then -v else v
  {
    if !(-1 <= v <= 255) {
      var y := m.At(x).car;
      if m.InRam(x) && m.InRam(y) {
        assert y in m.ram[x].Links() && Open(m.ram, y);
      }
      ChainHeld(m, y, v / B, k);
    }
  }

  /** A list of digits under construction, most significant one at its head q. */
  ghost predicate Prefix(m: Mem, q: Word, cells: seq<Word>, ds: seq<Word>) {
    && |cells| == |ds|
    && q == Up(cells, |cells|)
    && Distinct(cells)
    && forall k | 0 <= k < |cells| :: Digit(m, cells, ds, k)
  }

  ghost predicate Digit(m: Mem, cells: seq<Word>, ds: seq<Word>, k: int)
    requires 0 <= k < |cells| == |ds|
  {
    m.InRam(cells[k]) && m.ram[cells[k]].typ == BIGNUM && m.ram[cells[k]].cdr == ds[k]
      && m.ram[cells[k]].car == Up(cells, k)
  }

  lemma PrefixFrame(m: Mem, g: Mem, q: Word, cells: seq<Word>, ds: seq<Word>)
    requires |g.ram| == |m.ram| && g.reserved == m.reserved && Prefix(m, q, cells, ds)
    requires forall c | c in cells && c < |m.ram| :: g.ram[c].Same(m.ram[c])
    ensures Prefix(g, q, cells, ds)
  {
    forall k | 0 <= k < |cells| ensures Digit(g, cells, ds, k) {
      assert Digit(m, cells, ds, k);
    }
  }

  lemma PrefixSnoc(m: Mem, q: Word, cells: seq<Word>, ds: seq<Word>, p: Word, d: Word)
    requires Prefix(m, q, cells, ds) && p !in cells
    requires m.InRam(p) && m.ram[p].typ == BIGNUM && m.ram[p].cdr == d && m.ram[p].car == q
    ensures Prefix(m, p, cells + [p], ds + [d])
  {
    forall k | 0 <= k <= |cells| ensures Digit(m, cells + [p], ds + [d], k) {
      assert k < |cells| ==> Digit(m, cells, ds, k);
    }
  }

  lemma PrefixPop(m: Mem, q: Word, cells: seq<Word>, ds: seq<Word>)
    requires Prefix(m, q, cells, ds) && |cells| > 0
    ensures var n := |cells| - 1;
      && q == cells[n] && m.InRam(q) && m.ram[q].typ == BIGNUM && m.ram[q].cdr == ds[n]
      && q !in cells[..n] && Prefix(m, m.ram[q].car, cells[..n], ds[..n])
  {
    var n := |cells| - 1;
    assert Digit(m, cells, ds, n);
    forall k | 0 <= k < n ensures Digit(m, cells[..n], ds[..n], k) {
      assert Digit(m, cells, ds, k);
    }
  }

  /** The cells of a list of digits form a closed set together with any closed set. */
  lemma PrefixClosed(m: Mem, q: Word, cells: seq<Word>, ds: seq<Word>, k: set<int>)
    requires m.Sane() && Prefix(m, q, cells, ds) && Closed(m.ram, k)
    ensures Closed(m.ram, k + Elements(cells))
  {
    var s := k + Elements(cells);
    forall p | p in s ensures 0 <= p < |m.ram| {
      if i :| 0 <= i < |cells| && cells[i] == p {
        assert Digit(m, cells, ds, i);
      }
    }
    forall p, r | p in s && r in m.ram[p].Links() && Open(m.ram, r) ensures r in s {
      if i :| 0 <= i < |cells| && cells[i] == p {
        assert Digit(m, cells, ds, i);
      }
    }
  }

  ghost function Elements(cells: seq<Word>): set<int> {
    set i | 0 <= i < |cells| :: cells[i] as int
  }

  /** Every cell of the list can be reached from its head. */
  lemma {:induction false} PrefixReached(m: Mem, q: Word, cells: seq<Word>, ds: seq<Word>, k: set<int>)
    requires m.Sane() && Prefix(m, q, cells, ds) && Closed(m.ram, k) && (q != NIL ==> q in k)
    ensures Elements(cells) <= k
    decreases |cells|
  {
    if |cells| > 0 {
      PrefixPop(m, q, cells, ds);
      var n := |cells| - 1;
      var up := m.ram[q].car;
      if n > 0 {
        assert Digit(m, cells, ds, n - 1) && Digit(m, cells, ds, n);
        assert up in m.ram[q].Links() && Open(m.ram, up);
      }
      PrefixReached(m, up, cells[..n], ds[..n], k);
      assert cells == cells[..n] + [q];
    }
  }
}
