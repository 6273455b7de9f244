/** The virtual machine's memory: heap, free list, roots and collector
    (main/mm.c, main/vm-arch.c). */
module Memory {
  import opened Cells
  import opened Wrappers
  import Marking
  import Numbers

  /** The free list, starting at head, visits exactly the cells of free, in that order, and ends
      with NIL. */
  ghost predicate FreeList(h: seq<Cell>, reserved: nat, head: Word, free: seq<Word>) {
    && head == Next(free, 0)
    && (forall k | 0 <= k < |free| :: Threaded(h, reserved, free, k))
    && Distinct(free)
  }

  ghost predicate Threaded(h: seq<Cell>, reserved: nat, free: seq<Word>, k: nat)
    requires k < |free|
  {
    reserved <= free[k] < |h| && h[free[k]].cdr == Next(free, k + 1)
  }

  function Next(free: seq<Word>, k: nat): Word
    requires k <= |free|
  {
    if k == |free| then NIL else free[k]
  }

  /** Putting a cell in front of the list. */
  lemma FreePush(h: seq<Cell>, reserved: nat, head: Word, free: seq<Word>, i: Word, c: Cell)
    requires FreeList(h, reserved, head, free) && reserved <= i < |h| && i !in free && c.cdr == head
    ensures FreeList(h[i := c], reserved, i, [i] + free)
  {
    var g, free' := h[i := c], [i] + free;
    forall k | 0 <= k < |free'| ensures Threaded(g, reserved, free', k) {
      if k > 0 {
        assert Threaded(h, reserved, free, k - 1) && free[k - 1] in free;
      }
    }
  }

  lemma FreeTake(h: seq<Cell>, reserved: nat, head: Word, free: seq<Word>)
    requires FreeList(h, reserved, head, free) && |free| > 0
    ensures head < |h| && FreeList(h, reserved, h[head].cdr, free[1..])
  {
    assert Threaded(h, reserved, free, 0);
    var rest := free[1..];
    forall k | 0 <= k < |rest| ensures Threaded(h, reserved, rest, k) {
      assert Threaded(h, reserved, free, k + 1);
    }
  }

  /** The unmarked cells from address i up, in ascending order. */
  ghost function FreeFrom(h: seq<Cell>, i: nat): (free: seq<Word>)
    requires |h| < ROM_START
    ensures forall w :: w in free <==> i <= w < |h| && !h[w].mark
    ensures forall j, k | 0 <= j < k < |free| :: free[j] < free[k]
    decreases |h| - i
  {
    if i >= |h| then
      []
    else
      var rest := FreeFrom(h, i + 1);
      assert forall k | 0 <= k < |rest| :: rest[k] in rest;
      if h[i].mark then rest else [i] + rest
  }

  /** With nothing marked all cells from i on are free. */
  lemma {:induction false} AllFree(h: seq<Cell>, i: nat)
    requires i <= |h| < ROM_START && forall k | 0 <= k < |h| :: !h[k].mark
    ensures |FreeFrom(h, i)| == |h| - i
    decreases |h| - i
  {
    if i < |h| {
      AllFree(h, i + 1);
    }
  }

  /** A sweep of heap o that has done the cells from i up and leaves them as they are in h. */
  ghost predicate Swept(o: seq<Cell>, h: seq<Cell>, reserved: nat, i: int, head: Word, free: seq<Word>) {
    && |o| == |h| < ROM_START && 0 <= i <= |o| && reserved <= |o|
    && free == FreeFrom(o, if i < reserved then reserved else i)
    && FreeList(h, reserved, head, free)
    && (forall k | 0 <= k < i :: h[k] == o[k])
    && (forall k | i <= k < |h| :: !h[k].mark && h[k].flip == o[k].flip)
    && (forall k | i <= k < |h| && (o[k].mark || k < reserved) :: h[k].Same(o[k]))
  }

  lemma SweepStart(o: seq<Cell>, reserved: nat)
    requires reserved <= |o| < ROM_START
    ensures Swept(o, o, reserved, |o|, NIL, [])
  {}

  lemma SweepAt(o: seq<Cell>, h: seq<Cell>, reserved: nat, i: int, head: Word, free: seq<Word>)
    requires Swept(o, h, reserved, i, head, free)
    ensures |o| == |h| && forall k | 0 <= k < i :: h[k] == o[k]
  {}

  lemma SweepDone(o: seq<Cell>, h: seq<Cell>, reserved: nat, head: Word, free: seq<Word>)
    requires Swept(o, h, reserved, 0, head, free)
    ensures |o| == |h| && free == FreeFrom(o, reserved) && FreeList(h, reserved, head, free)
    ensures forall i | 0 <= i < |h| :: !h[i].mark && h[i].flip == o[i].flip
    ensures forall i | 0 <= i < |h| && (o[i].mark || i < reserved) :: h[i].Same(o[i])
  {}

  lemma FreeLinks(h: seq<Cell>, g: seq<Cell>, reserved: nat, head: Word, free: seq<Word>)
    requires FreeList(h, reserved, head, free) && |g| == |h| && forall i | 0 <= i < |h| :: g[i].cdr == h[i].cdr
    ensures FreeList(g, reserved, head, free)
  {
    forall k | 0 <= k < |free| ensures Threaded(g, reserved, free, k) {
      assert Threaded(h, reserved, free, k);
    }
  }

  lemma SweepKeeps(o: seq<Cell>, h: seq<Cell>, reserved: nat, i: int, head: Word, free: seq<Word>)
    requires Swept(o, h, reserved, i + 1, head, free)
    requires 0 <= i && (o[i].mark || i < reserved)
    ensures Swept(o, h[i := h[i].(mark := false)], reserved, i, head, free)
  {
    var g := h[i := h[i].(mark := false)];
    assert free == FreeFrom(o, if i < reserved then reserved else i);
    hide FreeList, FreeFrom;
    FreeLinks(h, g, reserved, head, free);
    assert forall k | 0 <= k < i :: g[k] == o[k];
    assert forall k | i <= k < |h| :: !g[k].mark && g[k].flip == o[k].flip;
    assert forall k | i <= k < |h| && (o[k].mark || k < reserved) :: g[k].Same(o[k]);
  }

  lemma SweepFrees(o: seq<Cell>, h: seq<Cell>, reserved: nat, i: int, head: Word, free: seq<Word>, typ: Tag)
    requires Swept(o, h, reserved, i + 1, head, free)
    requires reserved <= i && !o[i].mark
    ensures Swept(o, h[i := h[i].(typ := typ, cdr := head)], reserved, i, i, [i as Word] + free)
  {
    hide FreeList, FreeFrom;
    var g := h[i := h[i].(typ := typ, cdr := head)];
    FreeAt(o, i);
    FreePush(h, reserved, head, free, i, g[i]);
    assert forall k | 0 <= k < i :: g[k] == o[k];
    assert forall k | i <= k < |h| :: !g[k].mark && g[k].flip == o[k].flip;
    assert forall k | i <= k < |h| && (o[k].mark || k < reserved) :: g[k].Same(o[k]);
  }

  lemma FreeAt(o: seq<Cell>, i: Word)
    requires i < |o| < ROM_START && !o[i].mark
    ensures FreeFrom(o, i) == [i] + FreeFrom(o, i + 1) && i !in FreeFrom(o, i + 1)
  {}

  /** Filling in a cell that is not free leaves the free list alone. */
  lemma FreeWrite(h: seq<Cell>, g: seq<Cell>, reserved: nat, head: Word, free: seq<Word>, p: Word)
    requires |g| == |h| && p !in free && (forall i | 0 <= i < |h| && i != p :: g[i] == h[i])
    requires FreeList(h, reserved, head, free)
    ensures FreeList(g, reserved, head, free)
  {
    forall k: nat | k < |free| ensures Threaded(g, reserved, free, k) {
      assert Threaded(h, reserved, free, k) && free[k] in free;
    }
  }

  /** Filling in a cell that is neither live nor free disturbs nothing. */
  lemma WriteDead(h: seq<Cell>, g: seq<Cell>, roots: set<int>, reserved: nat, head: Word, free: seq<Word>, p: Word)
    requires p < |h| == |g| && p !in Reach(h, roots) && p !in free
    requires forall i | 0 <= i < |h| && i != p :: g[i] == h[i]
    requires !h[p].mark && !g[p].mark
    requires FreeList(h, reserved, head, free)
    ensures FreeList(g, reserved, head, free)
    ensures Reach(g, roots) == Reach(h, roots) && forall i | i in Reach(h, roots) :: g[i] == h[i]
  {
    FreeWrite(h, g, reserved, head, free, p);
    ReachClosed(h, roots);
    ReachFrame(h, g, roots);
  }

  /** A field of a live cell may be given the address of a live cell, or one outside the heap: the free
      list is untouched, and links still do not lead out of the live set. */
  lemma WriteLive(h: seq<Cell>, g: seq<Cell>, reserved: nat, head: Word, free: seq<Word>, live: set<int>, p: Word)
    requires |g| == |h| && p in live && p < |h| && (forall i | 0 <= i < |h| && i != p :: g[i] == h[i])
    requires FreeList(h, reserved, head, free) && (forall f | f in free :: f !in live) && Closed(h, live)
    requires forall q | q in g[p].Links() && q < |h| :: q in h[p].Links() || q in live
    requires g[p].mark == h[p].mark
    ensures FreeList(g, reserved, head, free) && Closed(g, live)
  {
    forall k: nat | k < |free| ensures Threaded(g, reserved, free, k) {
      assert Threaded(h, reserved, free, k) && free[k] in free;
    }
    forall a, b | a in live && b in g[a].Links() && Open(g, b) ensures b in live {
      assert Open(h, b);
    }
  }

  /** A popped cell f stays unreachable in the new heap exactly when it was unreachable from the
      remaining roots in the old one. */
  lemma PopIff(h: seq<Cell>, g: seq<Cell>, roots: set<int>, f: Word)
    requires f < |h| == |g| && Marking.Blank(h) && Marking.Blank(g)
    requires forall i | 0 <= i < |h| && i != f :: g[i] == h[i]
    ensures f in Reach(g, roots) <==> f in Reach(h, roots)
    ensures f !in Reach(h, roots) ==> Reach(g, roots) == Reach(h, roots)
  {
    ReachClosed(h, roots);
    ReachClosed(g, roots);
    hide Reach;
    if f !in Reach(h, roots) {
      ReachFrame(h, g, roots);
    }
    if f !in Reach(g, roots) {
      ReachFrame(g, h, roots);
    }
  }

  lemma PopLess(h: seq<Cell>, oldRoots: set<int>, roots: set<int>, f: Word)
    requires f < |h| && Marking.Blank(h) && h[f].typ == CONS
    requires f in oldRoots && roots <= oldRoots + {h[f].cdr as int}
    ensures Reach(h, roots) <= Reach(h, oldRoots)
  {
    ReachClosed(h, oldRoots);
    assert Open(h, f) && h[f].cdr in h[f].Links();
    ReachLeast(h, roots, Reach(h, oldRoots));
  }

  class Machine {
    const ram: array<Cell>
    const rom: seq<Cell>
    const reserved: nat  // the first cells hold the global variables, two a cell

    var freeCells: Word
    ghost var free: seq<Word>

    var reg1: Word
    var reg2: Word
    var reg3: Word
    var reg4: Word
    var cont: Word
    var env: Word
    // the roots of the bignum routines
    var tmp1: Word
    var tmp2: Word
    var tmp3: Word
    var tmp4: Word
    var tmp5: Word

    // statistics of the last collection
    var usedCells: int
    var freeCount: int

    /** mm_init, for a program with this many globals: everything is free. */
    constructor (ramSize: nat, globalCount: Byte, rom: seq<Cell>)
      requires (globalCount + 1) / 2 < ramSize < ROM_START
      ensures fresh(ram) && ram.Length == ramSize && this.rom == rom && reserved == (globalCount + 1) / 2
      ensures Valid() && Live() == Globals() && reg1 == reg2 == reg3 == reg4 == cont == env == NIL
      ensures tmp1 == tmp2 == tmp3 == tmp4 == tmp5 == NIL
      ensures |free| == ramSize - reserved && forall w: Word :: w in free <==> reserved <= w < ramSize
      ensures forall i | 0 <= i < reserved :: ram[i] == Cell(NIL, NIL, CONS, false, false)
    {
      hide FreeFrom, FreeList;
      ram := new Cell[ramSize](_ => Cell(0, 0, CONS, false, false));
      this.rom := rom;
      reserved := (globalCount + 1) / 2;
      reg1, reg2, reg3, reg4, cont, env := NIL, NIL, NIL, NIL, NIL, NIL;
      tmp1, tmp2, tmp3, tmp4, tmp5 := NIL, NIL, NIL, NIL, NIL;
      freeCells, free, usedCells, freeCount := NIL, [], 0, 0;
      new;
      for i := 0 to reserved
        modifies ram
        invariant forall k | 0 <= k < ramSize :: !ram[k].mark && !ram[k].flip
        invariant forall k | 0 <= k < i :: ram[k] == Cell(NIL, NIL, CONS, false, false)
      {
        ram[i] := ram[i].(typ := CONS);
        ram[i] := ram[i].(car := NIL);
        ram[i] := ram[i].(cdr := NIL);
      }
      AllFree(ram[..], reserved);
      Sweep();
      OnlyGlobals();
    }

    lemma OnlyGlobals()
      requires reserved < ram.Length < ROM_START && (forall i | 0 <= i < ram.Length :: !ram[i].mark)
      requires reg1 == reg2 == reg3 == reg4 == cont == env == tmp1 == tmp2 == tmp3 == tmp4 == tmp5 == NIL
      requires forall i | 0 <= i < reserved :: ram[i].car == ram[i].cdr == NIL
      ensures Live() == Globals()
    {
      hide Reach;
      ReachClosed(ram[..], Roots());
      forall i | i in Globals() ensures i in Live() {
        assert Open(ram[..], i);
      }
      ReachLeast(ram[..], Roots(), Globals());
    }

    /** check_free_list: the free list is as long as the heap without the globals. */
    method CheckFreeList(count: int) returns (ok: bool)
      requires FreeList(ram[..], reserved, freeCells, free) && ram.Length <= NIL
      ensures ok <==> count == |free| + reserved
    {
      var left, next := count, freeCells;
      ghost var k := 0;
      while next != NIL
        invariant k <= |free| && next == Next(free, k) && left == count - k
        decreases |free| - k
      {
        assert k < |free| ==> Threaded(ram[..], reserved, free, k);
        left := left - 1;
        next := ram[next].cdr;
        k := k + 1;
      }
      assert k < |free| ==> Threaded(ram[..], reserved, free, k);
      ok := left == reserved;
    }

    ghost predicate Global(i: int) { 0 <= i < reserved }

    ghost function Globals(): set<int> {
      set i | 0 <= i < reserved && Global(i)
    }

    ghost function Roots(): set<int>
      reads this
    {
      Globals() + {reg1, reg2, reg3, reg4, cont, env, tmp1, tmp2, tmp3, tmp4, tmp5}
    }

    /** Every cell the program can still get at. */
    ghost function Live(): set<int>
      reads this, ram
    {
      Reach(ram[..], Roots())
    }

    /** Memory is exhausted: a collection would give nothing back. */
    ghost predicate Full()
      reads this, ram
    {
      forall i | reserved <= i < ram.Length :: i in Live()
    }

    ghost function View(): Numbers.Mem
      reads this, ram
    {
      Numbers.Mem(ram[..], rom, reserved)
    }

    /** The shape of memory between two instructions. */
    ghost predicate Shaped()
      reads `freeCells, `free, ram
    {
      && reserved < ram.Length < ROM_START
      && (forall i | 0 <= i < ram.Length :: !ram[i].mark && !ram[i].flip)
      && FreeList(ram[..], reserved, freeCells, free)
    }

    /** ... and no live cell is on the free list. */
    ghost predicate Valid()
      reads this, ram
    {
      Shaped() && forall f | f in free :: f !in Live()
    }

    /** A set of cells that links do not lead out of, and no cell of which is free.  As long as
        registers and fields only ever receive addresses in it, memory stays valid. */
    ghost predicate Kept(live: set<int>)
      reads `free, ram
    {
      Closed(ram[..], live) && forall f | f in free :: f !in live
    }

    ghost predicate Held(live: set<int>, w: Word) {
      w < ram.Length ==> w in live
    }

    ghost predicate RegistersHeld(live: set<int>)
      reads `reg1, `reg2, `reg3, `reg4, `cont, `env, `tmp1, `tmp2, `tmp3, `tmp4, `tmp5
    {
      && (forall i | 0 <= i < reserved :: i in live)
      && Held(live, reg1) && Held(live, reg2) && Held(live, reg3) && Held(live, reg4) && Held(live, cont)
        && Held(live, env)
      && Held(live, tmp1) && Held(live, tmp2) && Held(live, tmp3) && Held(live, tmp4) && Held(live, tmp5)
    }

    lemma KeptLive()
      requires Valid()
      ensures Kept(Live()) && RegistersHeld(Live())
    {
      hide Reach;
      ReachClosed(ram[..], Roots());
      forall w: Word | w in Roots() ensures Held(Live(), w) {
        assert w < ram.Length ==> Open(ram[..], w);
      }
      forall i | 0 <= i < reserved ensures i in Live() {
        assert Open(ram[..], i);
      }
    }

    lemma KeptValid(live: set<int>)
      requires Shaped() && Kept(live) && RegistersHeld(live)
      ensures Valid() && Live() <= live
    {
      ReachLeast(ram[..], Roots(), live);
    }

    /** A new cell joins the set, links and all. */
    lemma KeptMore(live: set<int>, p: Word)
      requires Kept(live) && p < ram.Length && p !in free
      requires forall q: Word | q in ram[p].Links() :: q == p || Held(live, q)
      ensures Kept(live + {p as int})
    {}

    /** RAM_SET_CAR */
    method SetCar(p: Word, v: Word, ghost live: set<int>)
      requires Shaped() && Kept(live) && p in live && Held(live, v)
      modifies ram
      ensures Shaped() && Kept(live) && ram[..] == old(ram[..])[p := old(ram[p]).(car := v)]
    {
      ghost var h := ram[..];
      ram[p] := ram[p].(car := v);
      WriteLive(h, ram[..], reserved, freeCells, free, live, p);
    }

    /** RAM_SET_CDR */
    method SetCdr(p: Word, v: Word, ghost live: set<int>)
      requires Shaped() && Kept(live) && p in live && Held(live, v)
      modifies ram
      ensures Shaped() && Kept(live) && ram[..] == old(ram[..])[p := old(ram[p]).(cdr := v)]
    {
      ghost var h := ram[..];
      ram[p] := ram[p].(cdr := v);
      WriteLive(h, ram[..], reserved, freeCells, free, live, p);
    }

    /** mm_mark: pointer-reversing marking from p. */
    method Mark(p: Word)
      requires ram.Length < ROM_START
      requires Marking.Upright(ram[..])
      modifies ram, `usedCells
      ensures Marking.Marked(old(ram[..]), ram[..], {p})
      ensures usedCells + |Marking.Unmarked(ram[..])| == old(usedCells + |Marking.Unmarked(ram[..])|)
    {
      hide Marking.Upright, Marking.Inv, Marking.Marked, Marking.Unmarked, Marking.Unflipped;
      ghost var o := ram[..];
      ghost var st: seq<Word> := [];
      ghost var count := usedCells + |Marking.Unmarked(o)|;
      var current: Word, prev: Word := p, NIL;
      var next: Word;
      Marking.Start(o, p);
      while true
        invariant Marking.Inv(o, ram[..], p, st, current) && prev == Up(st, |st|)
        invariant usedCells + |Marking.Unmarked(ram[..])| == count
        decreases Marking.Unmarked(ram[..]), |st|, Marking.Unflipped(ram[..], st)
      {
        ghost var h0, st0 := ram[..], st;
        while current < ram.Length && !ram[current].mark
          invariant Marking.Inv(o, ram[..], p, st, current) && prev == Up(st, |st|)
          invariant usedCells + |Marking.Unmarked(ram[..])| == count
          invariant Marking.Unmarked(ram[..]) < Marking.Unmarked(h0) || (st == st0 && ram[..] == h0)
          decreases Marking.Unmarked(ram[..])
        {
          ghost var h := ram[..];
          ram[current] := ram[current].(mark := true);
          usedCells := usedCells + 1;
          if ram[current].HasLeftLink() {
            next := ram[current].car;
            ram[current] := ram[current].(car := prev);
            assert ram[..] == h[current := h[current].(mark := true, car := prev)];
            Marking.Push(o, h, p, st, current, ram[..]);
            st := st + [current];
            prev := current;
            current := next;
          } else {
            Marking.Visit(o, h, p, st, current, ram[..]);
          }
        }
        while prev < ram.Length && ram[prev].flip
          invariant Marking.Inv(o, ram[..], p, st, current) && prev == Up(st, |st|)
          invariant Marking.Settled(ram[..], current)
          invariant usedCells + |Marking.Unmarked(ram[..])| == count
          invariant Marking.Less(ram[..], st, h0, st0) || (st == st0 && ram[..] == h0)
          decreases |st|
        {
          ghost var h := ram[..];
          ram[prev] := ram[prev].(flip := false);
          next := ram[prev].cdr;
          ram[prev] := ram[prev].(cdr := current);
          assert ram[..] == h[prev := h[prev].(flip := false, cdr := current)];
          Marking.Leave(o, h, p, st, current, ram[..]);
          st := st[..|st| - 1];
          current := prev;
          prev := next;
        }
        if prev >= ram.Length { break; }
        if ram[prev].HasRightLink() {
          ghost var h, cur := ram[..], current;
          next := ram[prev].car;
          ram[prev] := ram[prev].(car := current);
          ram[prev] := ram[prev].(flip := true);
          current := ram[prev].cdr;
          ram[prev] := ram[prev].(cdr := next);
          assert ram[..] == h[prev := h[prev].(car := cur, flip := true, cdr := next)];
          Marking.Turn(o, h, p, st, cur, ram[..]);
        } else {
          ghost var h1, st1 := ram[..], st;
          while prev < ram.Length && !ram[prev].HasRightLink()
            invariant Marking.Inv(o, ram[..], p, st, current) && prev == Up(st, |st|)
            invariant Marking.Settled(ram[..], current)
            invariant Marking.Unmarked(ram[..]) == Marking.Unmarked(h1)
            invariant usedCells + |Marking.Unmarked(ram[..])| == count
            invariant |st| < |st1| || (st == st1 && ram[..] == h1)
            decreases |st|
          {
            ghost var h := ram[..];
            Marking.Flipped(o, h, p, st, current);
            next := ram[prev].car;
            ram[prev] := ram[prev].(car := current);
            Marking.Leave(o, h, p, st, current, ram[..]);
            st := st[..|st| - 1];
            current := prev;
            prev := next;
          }
        }
      }
      Marking.Finish(o, ram[..], p, st, current);
    }

    /** One more root of the collection that started in heap o. */
    method MarkRoot(p: Word, ghost o: seq<Cell>, ghost roots: set<int>)
      requires ram.Length < ROM_START && Marking.Blank(o) && Marking.Marked(o, ram[..], roots)
      modifies ram, `usedCells
      ensures Marking.Marked(o, ram[..], roots + {p as int})
      ensures usedCells + |Marking.Unmarked(ram[..])| == old(usedCells + |Marking.Unmarked(ram[..])|)
    {
      ghost var h := ram[..];
      Mark(p);
      Marking.MarkMore(o, h, ram[..], roots, p);
    }

    /** bignum_gc_mark: the bignum routines' own roots. */
    method BignumGcMark(ghost o: seq<Cell>, ghost roots: set<int>)
      requires ram.Length < ROM_START && Marking.Blank(o) && Marking.Marked(o, ram[..], roots)
      modifies ram, `usedCells
      ensures Marking.Marked(o, ram[..], roots + {tmp1, tmp2, tmp3, tmp4, tmp5})
      ensures usedCells + |Marking.Unmarked(ram[..])| == old(usedCells + |Marking.Unmarked(ram[..])|)
    {
      hide Marking.Blank, Marking.Marked, Marking.Unmarked;
      MarkRoot(tmp1, o, roots);
      MarkRoot(tmp2, o, roots + {tmp1});
      MarkRoot(tmp3, o, roots + {tmp1} + {tmp2});
      MarkRoot(tmp4, o, roots + {tmp1} + {tmp2} + {tmp3});
      MarkRoot(tmp5, o, roots + {tmp1} + {tmp2} + {tmp3} + {tmp4});
      assert roots + {tmp1} + {tmp2} + {tmp3} + {tmp4} + {tmp5} == roots + {tmp1, tmp2, tmp3, tmp4, tmp5};
    }

    /** mm_sweep: every unmarked cell above the globals goes on the free list. */
    method Sweep()
      requires reserved < ram.Length < ROM_START
      modifies ram, `freeCells, `free, `freeCount
      ensures free == FreeFrom(old(ram[..]), reserved) && freeCount == |free|
      ensures FreeList(ram[..], reserved, freeCells, free)
      ensures forall i | 0 <= i < ram.Length :: !ram[i].mark && ram[i].flip == old(ram[i].flip)
      ensures forall i | 0 <= i < ram.Length && (old(ram[i].mark) || i < reserved) :: ram[i].Same(old(ram[i]))
    {
      hide Swept, FreeFrom, FreeList;
      ghost var o := ram[..];
      freeCells := NIL;
      free := [];
      freeCount := 0;
      SweepStart(o, reserved);
      var p := ram.Length - 1;
      var more := true;
      while more
        invariant reserved - 1 <= p < ram.Length && more == (p >= reserved)
        invariant Swept(o, ram[..], reserved, p + 1, freeCells, free) && freeCount == |free|
        decreases p
      {
        ghost var h := ram[..];
        SweepAt(o, h, reserved, p + 1, freeCells, free);
        if ram[p].mark {
          ram[p] := ram[p].(mark := false);
          SweepKeeps(o, h, reserved, p, freeCells, free);
        } else {
          SweepFrees(o, h, reserved, p, freeCells, free, if ram[p].typ == VECTOR then CONS else ram[p].typ);
          if ram[p].typ == VECTOR {
            ram[p] := ram[p].(typ := CONS);
          }
          ram[p] := ram[p].(cdr := freeCells);
          freeCells := p;
          free := [p as Word] + free;
          freeCount := freeCount + 1;
        }
        assert ram[..] == h[p := ram[p]];
        more := p > reserved;
        p := p - 1;
      }
      if reserved > 0 {
        more := true;
        while more
          invariant -1 <= p < reserved && more == (p >= 0)
          invariant Swept(o, ram[..], reserved, p + 1, freeCells, free) && freeCount == |free|
          decreases p
        {
          ghost var h := ram[..];
          ram[p] := ram[p].(mark := false);
          SweepKeeps(o, h, reserved, p, freeCells, free);
          assert ram[..] == h[p := ram[p]];
          more := p > 0;
          p := p - 1;
        }
      }
      SweepDone(o, ram[..], reserved, freeCells, free);
    }

    /** mm_gc: what is left on the free list is exactly what the roots do not reach, lowest
        address first; live cells are untouched; used and free cells add up to the heap. */
    method Gc()
      requires reserved < ram.Length < ROM_START
      requires Marking.Blank(ram[..]) && Marking.Upright(ram[..])
      modifies ram, `freeCells, `free, `usedCells, `freeCount
      ensures Valid() && Live() == old(Live())
      ensures forall i | i in Live() :: ram[i] == old(ram[i])
      ensures forall w: Word :: w in free <==> reserved <= w < ram.Length && w !in Live()
      ensures forall j, k | 0 <= j < k < |free| :: free[j] < free[k]
      ensures usedCells == |Live()| && freeCount == |free| && usedCells + freeCount == ram.Length
    {
      ghost var o := ram[..];
      MarkPhase();
      ghost var h := ram[..];
      Sweep();
      AfterSweep(o, h, ram[..], Roots(), Globals(), reserved, free);
    }

    lemma IsGlobals(roots: set<int>)
      requires forall k :: k in roots <==> 0 <= k < reserved
      ensures roots == Globals()
    {}

    method MarkPhase()
      requires reserved < ram.Length < ROM_START
      requires Marking.Blank(ram[..]) && Marking.Upright(ram[..])
      modifies ram, `usedCells
      ensures Marking.Marked(old(ram[..]), ram[..], Roots())
      ensures usedCells + |Marking.Unmarked(ram[..])| == ram.Length
    {
      ghost var o := ram[..];
      Marking.MarkNone(o);
      hide Marking.Blank, Marking.Marked, Marking.Upright, Marking.Unmarked, Globals;
      usedCells := 0;
      ghost var roots: set<int> := {};
      for i := 0 to reserved
        invariant Marking.Marked(o, ram[..], roots)
        invariant forall k :: k in roots <==> 0 <= k < i
        invariant usedCells + |Marking.Unmarked(ram[..])| == ram.Length
      {
        MarkRoot(i, o, roots);
        roots := roots + {i};
      }
      IsGlobals(roots);
      roots := Globals();
      MarkRoot(reg1, o, roots);
      MarkRoot(reg2, o, roots + {reg1});
      MarkRoot(reg3, o, roots + {reg1} + {reg2});
      MarkRoot(reg4, o, roots + {reg1} + {reg2} + {reg3});
      MarkRoot(cont, o, roots + {reg1} + {reg2} + {reg3} + {reg4});
      MarkRoot(env, o, roots + {reg1} + {reg2} + {reg3} + {reg4} + {cont});
      BignumGcMark(o, roots + {reg1} + {reg2} + {reg3} + {reg4} + {cont} + {env});
      assert roots + {reg1} + {reg2} + {reg3} + {reg4} + {cont} + {env} + {tmp1, tmp2, tmp3, tmp4, tmp5} == Roots();
    }

    /** mm_new_ram_cell: a cell that no live cell leads to, collecting first when the free list
        is empty; None stands for the fatal end when that gives nothing back.  A list that is not empty
        just loses its first cell, whatever the state of the rest. */
    method NewRamCell() returns (r: Option<Word>)
      requires Valid() || (Shaped() && freeCells != NIL)
      modifies ram, `freeCells, `free, `usedCells, `freeCount
      ensures Shaped()
      ensures old(Valid()) ==> Valid() && Live() == old(Live()) && forall i | i in Live() :: ram[i] == old(ram[i])
      ensures r.None? ==> Full()
      ensures r.Some? ==> reserved <= r.value < ram.Length && r.value !in free && (old(Valid()) ==> r.value !in Live())
      ensures old(freeCells) != NIL ==>
        r == Some(old(freeCells)) && ram[..] == old(ram[..]) && old(free) == [old(freeCells)] + free
    {
      hide Reach, FreeList, Next;
      if freeCells == NIL {
        Gc();
        if freeCells == NIL {
          NothingFree();
          return None;
        }
      }
      var p := TakeFree();
      return Some(p);
    }

    lemma NothingFree()
      requires Shaped() && freeCells == NIL
      requires forall w: Word :: w in free <==> reserved <= w < ram.Length && w !in Live()
      ensures Full()
    {
      hide Reach;
      assert free != [] ==> Threaded(ram[..], reserved, free, 0);
      forall i | reserved <= i < ram.Length ensures i in Live() {
        assert i as Word !in free;
      }
    }

    /** The first cell of the free list, taken off it. */
    method TakeFree() returns (p: Word)
      requires Shaped() && freeCells != NIL
      modifies `freeCells, `free
      ensures Shaped() && p == old(freeCells) && old(free) == [p] + free
      ensures reserved <= p < ram.Length && p !in free && forall f | f in free :: f in old(free)
    {
      p := freeCells;
      assert Threaded(ram[..], reserved, free, 0);
      freeCells := ram[freeCells].cdr;
      FreeTake(ram[..], reserved, p, free);
      ghost var rest := free[1..];
      assert p !in rest && free == [p] + rest && forall f | f in rest :: f in free;
      free := rest;
    }

    /** What a constructor of cells delivers: everything live is as it was, and the new cell is
        neither live nor free. */
    twostate predicate Allocated(new r: Option<Word>, typ: Tag, car: Word, cdr: Word)
      reads this, ram
    {
      && Valid() && Live() == old(Live())
      && (forall i | i in Live() :: 0 <= i < ram.Length && ram[i] == old(ram[i]))
      && match r {
        case None => Full()
        case Some(p) =>
          && reserved <= p < ram.Length && p !in Live() && p !in free
          && ram[p] == Cell(car, cdr, typ, false, false)
      }
    }

    method NewPair(car: Word, cdr: Word) returns (r: Option<Word>)
      requires Valid() || (Shaped() && freeCells != NIL)
      modifies ram, `freeCells, `free, `usedCells, `freeCount
      ensures Shaped() && (old(Valid()) ==> Allocated(r, CONS, car, cdr))
      ensures old(freeCells) != NIL ==>
        && r == Some(old(freeCells)) && old(free) == [old(freeCells)] + free && old(freeCells) < ram.Length
        && ram[..] == old(ram[..])[old(freeCells) := Cell(car, cdr, CONS, false, false)]
    {
      ghost var valid := Valid();
      r := NewRamCell();
      if r.Some? {
        ghost var h := ram[..];
        var p := r.value;
        ram[p] := ram[p].(typ := CONS);
        ram[p] := ram[p].(car := car);
        ram[p] := ram[p].(cdr := cdr);
        FreeWrite(h, ram[..], reserved, freeCells, free, p);
        if valid {
          WriteDead(h, ram[..], Roots(), reserved, freeCells, free, p);
        }
      }
    }

    method NewBignum(value: Word, high: Word) returns (r: Option<Word>)
      requires Valid()
      modifies ram, `freeCells, `free, `usedCells, `freeCount
      ensures Allocated(r, BIGNUM, high, value)
    {
      r := NewRamCell();
      if r.Some? {
        ghost var h := ram[..];
        var p := r.value;
        ram[p] := ram[p].(typ := BIGNUM);
        ram[p] := ram[p].(cdr := value);
        ram[p] := ram[p].(car := high);
        WriteDead(h, ram[..], Roots(), reserved, freeCells, free, p);
      }
    }

    method NewClosure(env: Word, code: Word) returns (r: Option<Word>)
      requires Valid()
      modifies ram, `freeCells, `free, `usedCells, `freeCount
      ensures Allocated(r, CLOSURE, env, code)
    {
      r := NewRamCell();
      if r.Some? {
        ghost var h := ram[..];
        var p := r.value;
        ram[p] := ram[p].(typ := CLOSURE);
        ram[p] := ram[p].(car := env);
        ram[p] := ram[p].(cdr := code);
        WriteDead(h, ram[..], Roots(), reserved, freeCells, free, p);
      }
    }

    method NewCont(parent: Word, closure: Word) returns (r: Option<Word>)
      requires Valid()
      modifies ram, `freeCells, `free, `usedCells, `freeCount
      ensures Allocated(r, CONTINUATION, parent, closure)
    {
      r := NewRamCell();
      if r.Some? {
        ghost var h := ram[..];
        var p := r.value;
        ram[p] := ram[p].(typ := CONTINUATION);
        ram[p] := ram[p].(cdr := closure);
        ram[p] := ram[p].(car := parent);
        WriteDead(h, ram[..], Roots(), reserved, freeCells, free, p);
      }
    }

    /** The roots as they will be once env has been moved to e. */
    ghost function RootsButEnv(e: Word): set<int>
      reads this
    {
      Globals() + {reg1, reg2, reg3, reg4, cont, e, tmp1, tmp2, tmp3, tmp4, tmp5}
    }

    method ReturnToFreeList(p: Word)
      requires Shaped() && reserved <= p < ram.Length && p !in free
      modifies ram, `freeCells, `free
      ensures Shaped() && free == [p] + old(free)
      ensures ram[..] == old(ram[..])[p := old(ram[p]).(typ := CONS, cdr := old(freeCells))]
    {
      ghost var h := ram[..];
      ram[p] := ram[p].(typ := CONS);
      ram[p] := ram[p].(cdr := freeCells);
      FreePush(h, reserved, freeCells, free, p, ram[p]);
      freeCells := p;
      free := [p] + free;
    }

    /** pop: the top of the stack, whose cell goes straight back to the free list.  That is safe
        exactly when nothing else leads to the cell. */
    method Pop() returns (p: Word)
      requires Valid() && (env == NIL || (reserved <= env < ram.Length && ram[env].typ == CONS))
      modifies ram, `env, `freeCells, `free
      ensures old(env) == NIL ==> p == NIL && env == NIL && free == old(free) && ram[..] == old(ram[..])
      ensures old(env) != NIL ==>
        && p == old(ram[env].car) && env == old(ram[env].cdr) && free == [old(env)] + old(free)
        && ram[..] == old(ram[..])[old(env) := old(ram[env]).(cdr := old(freeCells))]
      ensures Shaped()
      ensures Valid() <==> (old(env) == NIL || old(env) !in old(Reach(ram[..], RootsButEnv(ram[env].cdr))))
    {
      if env == NIL {
        return NIL;
      }
      ghost var h, o := ram[..], Roots();
      EnvLive();
      p := ram[env].car;
      var f := env;
      env := ram[env].cdr;
      PopLess(h, o, Roots(), f);
      ReturnToFreeList(f);
      PopIff(h, ram[..], Roots(), f);
      assert Roots() == old(RootsButEnv(ram[env].cdr));
      assert free[0] == f;
      assert forall x | x in free :: x == f || x in old(free);
      assert old(ram[..]) == h;
      if f !in Reach(h, Roots()) {
        assert Live() <= old(Live());
        assert forall x | x in old(free) :: x !in Live();
      } else {
        assert f in Live();
      }
    }

    lemma EnvLive()
      requires Valid() && env < ram.Length
      ensures env in Live() && env !in free
    {
      ReachClosed(ram[..], Roots());
      assert Open(ram[..], env);
    }
  }

  lemma AfterSweep(o: seq<Cell>, h: seq<Cell>, g: seq<Cell>, roots: set<int>, globals: set<int>, reserved: nat,
                   free: seq<Word>)
    requires |g| == |o| < ROM_START && Marking.Blank(o) && Marking.Upright(o) && Marking.Marked(o, h, roots)
    requires globals <= roots && forall i | 0 <= i < reserved :: i in globals
    requires free == FreeFrom(h, reserved)
    requires forall i | 0 <= i < |g| :: !g[i].mark && g[i].flip == h[i].flip
    requires forall i | 0 <= i < |g| && h[i].mark :: g[i].Same(h[i])
    ensures Reach(g, roots) == Reach(o, roots) && forall i | i in Reach(o, roots) :: g[i] == o[i]
    ensures forall w: Word :: w in free <==> reserved <= w < |o| && w !in Reach(o, roots)
    ensures forall j, k | 0 <= j < k < |free| :: free[j] < free[k]
    ensures |free| == |Marking.Unmarked(h)| && |Reach(o, roots)| + |free| == |o|
    ensures forall i | 0 <= i < |g| :: !g[i].mark && !g[i].flip
  {
    ReachClosed(o, roots);
    ReachFrame(o, g, roots);
    forall i | 0 <= i < reserved && i < |o| ensures i in Reach(o, roots) {
      assert Open(o, i);
    }
    forall w: Word ensures w in Marking.Unmarked(h) <==> w in free {
      assert w in FreeFrom(h, reserved) <==> reserved <= w < |h| && !h[w].mark;
    }
    AscendingSize(free, Marking.Unmarked(h));
    Marking.CountUp(|o|, Reach(o, roots) + Marking.Unmarked(h));
  }

  lemma {:induction false} AscendingSize(s: seq<Word>, t: set<int>)
    requires forall j, k | 0 <= j < k < |s| :: s[j] < s[k]
    requires forall w: Word :: w in t <==> w in s
    requires forall w | w in t :: 0 <= w < 0x10000
    ensures |s| == |t|
  {
    if s == [] {
      forall w | w in t ensures (w as Word) in s {
        var v: Word := w;
      }
      assert t == {};
    } else {
      var n := |s| - 1;
      forall w: Word ensures w in t - {s[n] as int} <==> w in s[..n] {
        if w in s[..n] {
          var j :| 0 <= j < n && s[j] == w;
        }
      }
      AscendingSize(s[..n], t - {s[n] as int});
    }
  }
}
