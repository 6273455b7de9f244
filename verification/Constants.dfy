/** Constants: collecting them, encoding them, and the ROM image the machine reads them from
    (compiler/assembler.rkt, main/include/vm-arch.h). */
module Constants {
  import opened Cells
  import opened Numbers
  import opened Wrappers
  import Relaxation

  const STRING: Tag := 6

  datatype Datum =
    | Bool(b: bool)
    | Nil
    | Int(v: int)
    | Char(code: nat)
    | Pair(car: Datum, cdr: Datum)
    | Str(codes: seq<nat>)
    | Vec(elems: seq<Datum>)

  function ListOf(ds: seq<Datum>): Datum {
    if ds == [] then Nil else Pair(ds[0], ListOf(ds[1..]))
  }

  /** The characters of a string, as the list of integers that stands for them. */
  function CharList(codes: seq<nat>): Datum {
    if codes == [] then Nil else Pair(Int(codes[0]), CharList(codes[1..]))
  }

  function Weight(d: Datum): nat {
    match d
    case Bool(_) => 1
    case Nil => 1
    case Int(v) => 1 + if v < 0 then -v else v
    case Char(c) => 1 + c
    case Pair(a, b) => 1 + Weight(a) + Weight(b)
    case Str(codes) => 1 + CodesWeight(codes)
    case Vec(elems) => 1 + ElemsWeight(elems)
  }

  function CodesWeight(codes: seq<nat>): nat {
    if codes == [] then 1 else 2 + codes[0] + CodesWeight(codes[1..])
  }

  function ElemsWeight(ds: seq<Datum>): nat {
    if ds == [] then 1 else 1 + Weight(ds[0]) + ElemsWeight(ds[1..])
  }

  lemma {:induction false} CharListWeight(codes: seq<nat>)
    ensures Weight(CharList(codes)) == CodesWeight(codes)
  {
    if codes != [] {
      CharListWeight(codes[1..]);
    }
  }

  lemma {:induction false} ListWeight(ds: seq<Datum>)
    ensures Weight(ListOf(ds)) == ElemsWeight(ds)
  {
    if ds != [] {
      ListWeight(ds[1..]);
    }
  }

  // ---- encodings

  const MIN_ROM_ENCODING := 260

  /** translate-constant */
  function Translate(d: Datum): Datum {
    if d.Char? then Int(d.code) else d
  }

  /** encode-direct */
  function EncodeDirect(d: Datum): Option<nat> {
    if d == Bool(false) then Some(0)
    else if d == Bool(true) then Some(1)
    else if d == Nil then Some(2)
    else if d.Int? && -1 <= d.v <= 255 then Some(d.v + 4)
    else None
  }

  /** An entry of the list of constants: how often the code refers to it, too. */
  datatype Constant = Constant(obj: Datum, count: nat)

  function Find(cs: seq<Constant>, o: Datum): (r: Option<nat>)
    ensures r.Some? ==> r.value < |cs| && cs[r.value].obj == o
    ensures r.None? ==> forall i | 0 <= i < |cs| :: cs[i].obj != o
  {
    if cs == [] then None
    else if cs[0].obj == o then Some(0)
    else
      var r := Find(cs[1..], o);
      assert r.None? ==> forall i | 0 < i < |cs| :: cs[i] == cs[1..][i - 1];
      if r.Some? then Some(r.value + 1) else None
  }

  /** encode-constant, once the constants have their order. */
  function EncodeConstant(d: Datum, cs: seq<Constant>): Option<nat> {
    var o := Translate(d);
    if EncodeDirect(o).Some? then EncodeDirect(o)
    else match Find(cs, o)
      case Some(i) => Some(MIN_ROM_ENCODING + i)
      case None => None
  }

  ghost predicate Encodable(d: Datum, cs: seq<Constant>) {
    EncodeDirect(Translate(d)).Some? || exists i :: 0 <= i < |cs| && cs[i].obj == Translate(d)
  }

  lemma EncodableIff(d: Datum, cs: seq<Constant>)
    ensures Encodable(d, cs) <==> EncodeConstant(d, cs).Some?
  {}

  /** to_rom_index */
  function ToRomIndex(x: nat): (w: Word)
    requires x < MIN_ROM_ENCODING + 0x2000
  {
    if x < 3 then x + 0xFFFD else if x < MIN_ROM_ENCODING then x - 3 + 0xFE00 else x - MIN_ROM_ENCODING + 0xE000
  }

  // ---- collecting

  /** add-constant: the object and all it is made of. */
  function AddConstant(obj: Datum, cs: seq<Constant>, fromCode: bool): seq<Constant>
    decreases Weight(obj), 1
  {
    var o := Translate(obj);
    if EncodeDirect(o).Some? then cs
    else match Find(cs, o)
      case Some(i) => if fromCode then cs[i := cs[i].(count := cs[i].count + 1)] else cs
      case None => AddParts(o, cs + [Constant(o, if fromCode then 1 else 0)])
  }

  function AddParts(o: Datum, cs: seq<Constant>): seq<Constant>
    decreases Weight(o), 0
  {
    match o
    case Pair(a, b) => AddConstant(b, AddConstant(a, cs, false), false)
    case Str(codes) => CharListWeight(codes); AddConstant(CharList(codes), cs, false)
    case Vec(elems) => ListWeight(elems); AddConstant(ListOf(elems), cs, false)
    case Int(v) => if -1 <= v <= 0 then cs else AddConstant(Int(v / B), cs, false)
    case _ => cs
  }

  /** What the cell of an object refers to. */
  function Parts(o: Datum): seq<Datum> {
    match o
    case Pair(a, b) => [a, b]
    case Str(codes) => [CharList(codes)]
    case Vec(elems) => [ListOf(elems)]
    case Int(v) => [Int(v / B)]
    case _ => []
  }

  /** Of every object that is not in pending, the parts can be encoded. */
  ghost predicate Complete(cs: seq<Constant>, pending: seq<Datum>) {
    forall i, d | 0 <= i < |cs| && cs[i].obj !in pending && d in Parts(cs[i].obj) :: Encodable(d, cs)
  }

  ghost predicate Includes(cs: seq<Constant>, more: seq<Constant>) {
    |cs| <= |more| && forall i | 0 <= i < |cs| :: more[i].obj == cs[i].obj
  }

  ghost predicate NoneTwice(cs: seq<Constant>) {
    forall i, j | 0 <= i < j < |cs| :: cs[i].obj != cs[j].obj
  }

  lemma {:induction false} AddedComplete(obj: Datum, cs: seq<Constant>, fromCode: bool, pending: seq<Datum>)
    requires Complete(cs, pending) && NoneTwice(cs)
    ensures var r := AddConstant(obj, cs, fromCode);
      Complete(r, pending) && NoneTwice(r) && Includes(cs, r) && Encodable(obj, r)
    decreases Weight(obj), 1
  {
    hide Complete;
    var o := Translate(obj);
    if EncodeDirect(o).None? {
      var r := AddConstant(obj, cs, fromCode);
      match Find(cs, o)
      case Some(i) =>
        assert r[i].obj == o;
        SameObjects(cs, r, pending);
      case None =>
        var more := cs + [Constant(o, if fromCode then 1 else 0)];
        assert more[|cs|].obj == o;
        MoreComplete(cs, more, o, pending);
        AddedParts(o, more, pending + [o]);
        Finished(cs, r, o, pending);
    }
  }

  lemma {:induction false} AddedParts(o: Datum, cs: seq<Constant>, pending: seq<Datum>)
    requires Complete(cs, pending) && NoneTwice(cs) && EncodeDirect(o).None?
    ensures var r := AddParts(o, cs);
      Complete(r, pending) && NoneTwice(r) && Includes(cs, r) && forall d | d in Parts(o) :: Encodable(d, r)
    decreases Weight(o), 0
  {
    hide Complete, NoneTwice;
    match o
    case Pair(a, b) =>
      AddedComplete(a, cs, false, pending);
      var left := AddConstant(a, cs, false);
      AddedComplete(b, left, false, pending);
      StillEncodable(a, left, AddConstant(b, left, false));
    case Str(codes) =>
      CharListWeight(codes);
      AddedComplete(CharList(codes), cs, false, pending);
    case Vec(elems) =>
      ListWeight(elems);
      AddedComplete(ListOf(elems), cs, false, pending);
    case Int(v) =>
      AddedComplete(Int(v / B), cs, false, pending);
    case _ =>
  }

  lemma StillEncodable(d: Datum, cs: seq<Constant>, more: seq<Constant>)
    requires Encodable(d, cs) && Includes(cs, more)
    ensures Encodable(d, more)
  {
    if EncodeDirect(Translate(d)).None? {
      var i :| 0 <= i < |cs| && cs[i].obj == Translate(d);
      assert more[i].obj == Translate(d);
    }
  }

  lemma SameObjects(cs: seq<Constant>, r: seq<Constant>, pending: seq<Datum>)
    requires Complete(cs, pending) && |r| == |cs| && forall i | 0 <= i < |cs| :: r[i].obj == cs[i].obj
    ensures Complete(r, pending)
  {
    forall i, d | 0 <= i < |r| && r[i].obj !in pending && d in Parts(r[i].obj) ensures Encodable(d, r) {
      assert Encodable(d, cs);
      StillEncodable(d, cs, r);
    }
  }

  lemma MoreComplete(cs: seq<Constant>, more: seq<Constant>, o: Datum, pending: seq<Datum>)
    requires Complete(cs, pending) && |more| == |cs| + 1 && cs == more[..|cs|] && more[|cs|].obj == o
    ensures Complete(more, pending + [o])
  {
    forall i, d | 0 <= i < |more| && more[i].obj !in pending + [o] && d in Parts(more[i].obj)
      ensures Encodable(d, more)
    {
      assert i < |cs| && cs[i] == more[i];
      assert Encodable(d, cs);
      StillEncodable(d, cs, more);
    }
  }

  lemma Finished(cs: seq<Constant>, r: seq<Constant>, o: Datum, pending: seq<Datum>)
    requires Complete(r, pending + [o]) && forall d | d in Parts(o) :: Encodable(d, r)
    ensures Complete(r, pending)
  {}

  /** All the constants of a program, in the order they come in. */
  function Collect(objs: seq<Datum>): seq<Constant> {
    if objs == [] then [] else AddConstant(objs[|objs| - 1], Collect(objs[..|objs| - 1]), true)
  }

  lemma {:induction false} CollectedComplete(objs: seq<Datum>)
    ensures Complete(Collect(objs), []) && NoneTwice(Collect(objs))
    ensures forall o | o in objs :: Encodable(o, Collect(objs))
  {
    if objs != [] {
      var before, last := objs[..|objs| - 1], objs[|objs| - 1];
      CollectedComplete(before);
      AddedComplete(last, Collect(before), true, []);
      forall o | o in objs ensures Encodable(o, Collect(objs)) {
        assert o == last || o in before;
        if o in before {
          StillEncodable(o, Collect(before), Collect(objs));
        }
      }
    }
  }

  /** sort-constants: most often referred to first, otherwise in the order they came in. */
  function Sort(cs: seq<Constant>): seq<Constant> {
    if cs == [] then [] else Insert(cs[0], Sort(cs[1..]))
  }

  function Insert(c: Constant, cs: seq<Constant>): seq<Constant> {
    if cs == [] || c.count >= cs[0].count then [c] + cs else [cs[0]] + Insert(c, cs[1..])
  }

  ghost predicate Descending(cs: seq<Constant>) {
    forall i, j | 0 <= i < j < |cs| :: cs[i].count >= cs[j].count
  }

  lemma {:induction false} InsertBelow(c: Constant, cs: seq<Constant>, bound: nat)
    requires c.count <= bound && forall i | 0 <= i < |cs| :: cs[i].count <= bound
    ensures forall i | 0 <= i < |Insert(c, cs)| :: Insert(c, cs)[i].count <= bound
  {
    if cs != [] {
      InsertBelow(c, cs[1..], bound);
    }
  }

  lemma {:induction false} InsertSorts(c: Constant, cs: seq<Constant>)
    requires Descending(cs)
    ensures Descending(Insert(c, cs)) && multiset(Insert(c, cs)) == multiset([c]) + multiset(cs)
  {
    if cs == [] || c.count >= cs[0].count {
      assert [c] + cs == Insert(c, cs);
    } else {
      InsertSorts(c, cs[1..]);
      InsertBelow(c, cs[1..], cs[0].count);
      assert cs == [cs[0]] + cs[1..];
    }
  }

  lemma {:induction false} Sorts(cs: seq<Constant>)
    ensures Descending(Sort(cs)) && multiset(Sort(cs)) == multiset(cs)
  {
    if cs != [] {
      Sorts(cs[1..]);
      InsertSorts(cs[0], Sort(cs[1..]));
      assert cs == [cs[0]] + cs[1..];
    }
  }

  /** How often the code refers to an object. */
  ghost function References(o: Datum, objs: seq<Datum>): nat {
    if objs == [] then 0
    else References(o, objs[..|objs| - 1]) + if Translate(objs[|objs| - 1]) == o then 1 else 0
  }

  ghost function CountOf(o: Datum, cs: seq<Constant>): nat {
    match Find(cs, o)
    case Some(i) => cs[i].count
    case None => 0
  }

  lemma {:induction false} FindFirst(cs: seq<Constant>, more: seq<Constant>, o: Datum)
    ensures Find(cs, o).Some? ==> Find(cs + more, o) == Find(cs, o)
    ensures Find(cs, o).None? ==> CountOf(o, cs + more) == CountOf(o, more)
  {
    if cs == [] {
      assert cs + more == more;
    } else {
      assert (cs + more)[1..] == cs[1..] + more;
      FindFirst(cs[1..], more, o);
    }
  }

  lemma {:induction false} SameFind(cs: seq<Constant>, r: seq<Constant>, o: Datum)
    requires |cs| == |r| && forall i | 0 <= i < |cs| :: cs[i].obj == r[i].obj
    ensures Find(cs, o) == Find(r, o)
  {
    if cs != [] {
      SameFind(cs[1..], r[1..], o);
    }
  }

  lemma NewCount(cs: seq<Constant>, c: Constant, o: Datum)
    requires Find(cs, c.obj).None?
    ensures CountOf(o, cs + [c]) == CountOf(o, cs) + if c.obj == o then c.count else 0
  {
    FindFirst(cs, [c], o);
    assert [c][1..] == [] && CountOf(o, [c]) == if c.obj == o then c.count else 0;
  }

  /** Only a reference from the code counts, and it counts once. */
  lemma {:induction false} AddedCount(obj: Datum, cs: seq<Constant>, fromCode: bool, o: Datum)
    requires EncodeDirect(o).None?
    ensures CountOf(o, AddConstant(obj, cs, fromCode)) ==
            CountOf(o, cs) + if fromCode && Translate(obj) == o then 1 else 0
    decreases Weight(obj), 1
  {
    hide CountOf;
    var t := Translate(obj);
    if EncodeDirect(t).None? {
      match Find(cs, t)
      case Some(i) =>
        OneMore(cs, AddConstant(obj, cs, fromCode), i, o, fromCode);
      case None =>
        var c := Constant(t, if fromCode then 1 else 0);
        NewCount(cs, c, o);
        PartsCount(t, cs + [c], o);
    }
  }

  lemma OneMore(cs: seq<Constant>, r: seq<Constant>, i: nat, o: Datum, more: bool)
    requires i < |cs| && Find(cs, cs[i].obj) == Some(i)
    requires r == if more then cs[i := cs[i].(count := cs[i].count + 1)] else cs
    ensures CountOf(o, r) == CountOf(o, cs) + if more && cs[i].obj == o then 1 else 0
  {
    SameFind(cs, r, o);
  }

  lemma {:induction false} PartsCount(t: Datum, cs: seq<Constant>, o: Datum)
    requires EncodeDirect(o).None? && EncodeDirect(t).None?
    ensures CountOf(o, AddParts(t, cs)) == CountOf(o, cs)
    decreases Weight(t), 0
  {
    hide CountOf;
    match t
    case Pair(a, b) =>
      AddedCount(a, cs, false, o);
      AddedCount(b, AddConstant(a, cs, false), false, o);
    case Str(codes) =>
      CharListWeight(codes);
      AddedCount(CharList(codes), cs, false, o);
    case Vec(elems) =>
      ListWeight(elems);
      AddedCount(ListOf(elems), cs, false, o);
    case Int(v) =>
      AddedCount(Int(v / B), cs, false, o);
    case _ =>
  }

  lemma {:induction false} CountsReferences(objs: seq<Datum>, o: Datum)
    requires EncodeDirect(o).None?
    ensures CountOf(o, Collect(objs)) == References(o, objs)
  {
    hide CountOf, AddConstant;
    if objs == [] {
      NoCount(o);
    } else {
      CountsReferences(objs[..|objs| - 1], o);
      AddedCount(objs[|objs| - 1], Collect(objs[..|objs| - 1]), true, o);
    }
  }

  lemma NoCount(o: Datum)
    ensures CountOf(o, []) == 0
  {}

  /** None of the constants could have been encoded directly. */
  ghost predicate Indirect(cs: seq<Constant>) {
    forall i | 0 <= i < |cs| :: EncodeDirect(cs[i].obj).None?
  }

  lemma {:induction false} AddedIndirect(obj: Datum, cs: seq<Constant>, fromCode: bool)
    requires Indirect(cs)
    ensures Indirect(AddConstant(obj, cs, fromCode))
    decreases Weight(obj), 1
  {
    var t := Translate(obj);
    if EncodeDirect(t).None? && Find(cs, t).None? {
      var c := Constant(t, if fromCode then 1 else 0);
      PartsIndirect(t, cs + [c]);
    }
  }

  lemma {:induction false} PartsIndirect(t: Datum, cs: seq<Constant>)
    requires Indirect(cs) && EncodeDirect(t).None?
    ensures Indirect(AddParts(t, cs))
    decreases Weight(t), 0
  {
    hide Indirect;
    match t
    case Pair(a, b) =>
      AddedIndirect(a, cs, false);
      AddedIndirect(b, AddConstant(a, cs, false), false);
    case Str(codes) =>
      CharListWeight(codes);
      AddedIndirect(CharList(codes), cs, false);
    case Vec(elems) =>
      ListWeight(elems);
      AddedIndirect(ListOf(elems), cs, false);
    case Int(v) =>
      AddedIndirect(Int(v / B), cs, false);
    case _ =>
  }

  lemma {:induction false} CollectedIndirect(objs: seq<Datum>)
    ensures Indirect(Collect(objs))
  {
    hide AddConstant;
    if objs != [] {
      CollectedIndirect(objs[..|objs| - 1]);
      AddedIndirect(objs[|objs| - 1], Collect(objs[..|objs| - 1]), true);
    }
  }

  /** In the image the constants stand by falling number of references in the code. */
  lemma ByReferences(objs: seq<Datum>)
    ensures var cs := Sort(Collect(objs));
      && (forall c | c in cs :: c.count == References(c.obj, objs))
      && forall i, j | 0 <= i < j < |cs| :: References(cs[i].obj, objs) >= References(cs[j].obj, objs)
  {
    hide Collect, Sort, References, Complete;
    var all := Collect(objs);
    var cs := Sort(all);
    Sorts(all);
    CollectedComplete(objs);
    CollectedIndirect(objs);
    forall c | c in cs ensures c.count == References(c.obj, objs) {
      assert c in multiset(cs) && c in multiset(all);
      var i :| 0 <= i < |all| && all[i] == c;
      assert CountOf(c.obj, all) == c.count;
      CountsReferences(objs, c.obj);
    }
    assert forall i | 0 <= i < |cs| :: cs[i] in cs;
  }

  /** Constants with the same number of references, in order. */
  ghost function OfCount(cs: seq<Constant>, n: nat): seq<Constant> {
    if cs == [] then [] else (if cs[0].count == n then [cs[0]] else []) + OfCount(cs[1..], n)
  }

  lemma OfCons(c: Constant, cs: seq<Constant>, n: nat)
    ensures OfCount([c] + cs, n) == (if c.count == n then [c] else []) + OfCount(cs, n)
  {
    assert ([c] + cs)[1..] == cs;
  }

  lemma {:induction false} InsertStable(c: Constant, cs: seq<Constant>, n: nat)
    ensures OfCount(Insert(c, cs), n) == (if c.count == n then [c] else []) + OfCount(cs, n)
  {
    hide OfCount;
    OfCons(c, cs, n);
    if cs != [] && c.count < cs[0].count {
      InsertStable(c, cs[1..], n);
      assert cs == [cs[0]] + cs[1..];
      OfCons(cs[0], cs[1..], n);
      OfCons(cs[0], Insert(c, cs[1..]), n);
    }
  }

  /** Among those the order is the one they came in. */
  lemma {:induction false} SortStable(cs: seq<Constant>, n: nat)
    ensures OfCount(Sort(cs), n) == OfCount(cs, n)
  {
    if cs != [] {
      SortStable(cs[1..], n);
      InsertStable(cs[0], Sort(cs[1..]), n);
      assert cs == [cs[0]] + cs[1..];
      OfCons(cs[0], cs[1..], n);
    }
  }

  /** Sorting changes encodings, not what can be encoded. */
  lemma SortedEncodable(cs: seq<Constant>)
    ensures |Sort(cs)| == |cs| && forall d :: Encodable(d, Sort(cs)) <==> Encodable(d, cs)
    ensures Complete(cs, []) ==> Complete(Sort(cs), [])
  {
    Sorts(cs);
    assert |multiset(cs)| == |cs| && |multiset(Sort(cs))| == |Sort(cs)|;
    forall c: Constant ensures c in cs <==> c in Sort(cs) {
      assert c in multiset(cs) <==> c in multiset(Sort(cs));
    }
    SameMembers(cs, Sort(cs));
    SameMembers(Sort(cs), cs);
    if Complete(cs, []) {
      var r := Sort(cs);
      forall i, d | 0 <= i < |r| && d in Parts(r[i].obj) ensures Encodable(d, r) {
        assert r[i] in r && r[i] in cs;
        var j :| 0 <= j < |cs| && cs[j] == r[i];
        assert Encodable(d, cs);
      }
    }
  }

  lemma SameMembers(a: seq<Constant>, b: seq<Constant>)
    requires forall c: Constant :: c in a ==> c in b
    ensures forall d :: Encodable(d, a) ==> Encodable(d, b)
  {
    forall d | Encodable(d, a) ensures Encodable(d, b) {
      if EncodeDirect(Translate(d)).None? {
        var i :| 0 <= i < |a| && a[i].obj == Translate(d);
        assert a[i] in b;
      }
    }
  }

  // ---- the image

  /** A reference to an object, as a cell holds it. */
  function Reference(d: Datum, cs: seq<Constant>): Option<Word> {
    match EncodeConstant(d, cs)
    case Some(e) => if e < MIN_ROM_ENCODING + 0x2000 then Some(ToRomIndex(e)) else None
    case None => None
  }

  function Asm8(n: int): seq<Byte> { Relaxation.Asm8(n) }

  function Asm16(n: int): seq<Byte> { Relaxation.Asm16(n) }

  /** assemble-constant: five bytes; None where the source raises an error. */
  function AssembleConstant(obj: Datum, cs: seq<Constant>): (r: Option<seq<Byte>>)
    ensures r.Some? ==> |r.value| == 5
  {
    match obj
    case Int(v) =>
      var hi :- Reference(Int(v / B), cs);
      Some(Asm16(v) + Asm16(hi) + Asm8(0x14))
    case Pair(a, b) =>
      var car :- Reference(a, cs);
      var cdr :- Reference(b, cs);
      Some(Asm16(cdr) + Asm16(car) + Asm8(0))
    case Str(codes) =>
      var enc :- Reference(CharList(codes), cs);
      Some(Asm16(0xFFFF) + Asm16(enc) + Asm8(0x18))
    case Vec(elems) =>
      if elems == [] then None else
        var car :- Reference(elems[0], cs);
        var cdr :- Reference(ListOf(elems[1..]), cs);
        Some(Asm16(cdr) + Asm16(car) + Asm8(0))
    case _ => None
  }

  /** The cells of the first i constants. */
  function Cells5(cs: seq<Constant>, i: nat): (r: Option<seq<Byte>>)
    requires i <= |cs|
    ensures r.Some? ==> |r.value| == 5 * i
  {
    if i == 0 then Some([]) else
      var before :- Cells5(cs, i - 1);
      var cell :- AssembleConstant(cs[i - 1].obj, cs);
      Some(before + cell)
  }

  /** Header and constants; more than 257 constants are an error. */
  function Image(cs: seq<Constant>, globals: nat): Option<seq<Byte>> {
    if |cs| > 257 then None else
      var cells :- Cells5(cs, |cs|);
      Some(Asm16(0xfbd7) + Asm8(|cs|) + Asm8(globals) + cells)
  }

  // ---- reading it

  /** rom_heap[i], for rom_heap at offset 4 of the program. */
  function RomCell(program: seq<Byte>, i: nat): Cell
    requires 9 + 5 * i <= |program|
  {
    var p := 4 + 5 * i;
    var b1: nat, b3: nat, b4: nat := program[p + 1], program[p + 3], program[p + 4];
    Cell(program[p + 2] + 256 * b3, program[p] + 256 * b1, (b4 / 4) % 16, b4 % 2 == 1, b4 % 4 >= 2)
  }

  /** Where the interpreter starts: behind as many cells as byte 2 says. */
  function CodeStart(program: seq<Byte>): nat
    requires |program| > 2
  {
    var n: nat := program[2];
    n * 5 + 4
  }

  /** The machine finds the code behind the constants exactly if they number at most 255; the compiler
      lets 256 and 257 pass. */
  lemma CodeStartIff(cs: seq<Constant>, globals: nat)
    requires Image(cs, globals).Some?
    ensures var image := Image(cs, globals).value;
      |image| == 4 + 5 * |cs| && |cs| <= 257 && (CodeStart(image) == |image| <==> |cs| <= 255)
  {}

  /** What an address stands for. */
  ghost predicate Denotes(m: Mem, w: Word, d: Datum)
    decreases Weight(d), d
  {
    match d
    case Bool(b) => w == if b then TRUE else FALSE
    case Nil => w == NIL
    case Int(v) => Rep(m, w, v)
    case Char(c) => Rep(m, w, c)
    case Pair(a, b) => m.InRom(w) && m.At(w).typ == CONS && Denotes(m, m.At(w).car, a) && Denotes(m, m.At(w).cdr, b)
    case Str(codes) =>
      CharListWeight(codes);
      m.InRom(w) && m.At(w).typ == STRING && m.At(w).cdr == NIL && Denotes(m, m.At(w).car, CharList(codes))
    case Vec(elems) =>
      ListWeight(elems);
      Denotes(m, w, ListOf(elems))
  }

  /** Memory whose ROM is what the image holds. */
  ghost predicate Loaded(m: Mem, program: seq<Byte>, n: nat) {
    && 4 + 5 * n <= |program| && |m.rom| == n <= 0x1E00 && m.Sane()
    && forall i: nat | i < n :: m.rom[i] == RomCell(program, i)
  }

  lemma {:induction false} CellsAt(cs: seq<Constant>, n: nat, i: nat)
    requires i < n <= |cs| && Cells5(cs, n).Some?
    ensures var cell := AssembleConstant(cs[i].obj, cs);
      cell.Some? && Cells5(cs, n).value[5 * i..5 * i + 5] == cell.value
  {
    if i < n - 1 {
      CellsAt(cs, n - 1, i);
      assert Cells5(cs, n).value[..5 * (n - 1)] == Cells5(cs, n - 1).value;
    }
  }

  lemma ImageAt(cs: seq<Constant>, globals: nat, i: nat)
    requires Image(cs, globals).Some? && i < |cs|
    ensures var cell := AssembleConstant(cs[i].obj, cs);
      cell.Some? && 9 + 5 * i <= |Image(cs, globals).value|
      && forall k | 0 <= k < 5 :: Image(cs, globals).value[4 + 5 * i + k] == cell.value[k]
  {
    hide AssembleConstant;
    CellsAt(cs, |cs|, i);
    var cells := Cells5(cs, |cs|).value;
    var cell := AssembleConstant(cs[i].obj, cs).value;
    assert Image(cs, globals).value[4..] == cells;
    forall k | 0 <= k < 5 ensures Image(cs, globals).value[4 + 5 * i + k] == cell[k] {
      assert cells[5 * i..5 * i + 5][k] == cells[5 * i + k];
    }
  }

  /** The two references and the type of an assembled cell. */
  ghost predicate Holds(cell: seq<Byte>, car: Word, cdr: Word, flags: Byte) {
    cell == Asm16(cdr) + Asm16(car) + Asm8(flags)
  }

  lemma ReadCell(program: seq<Byte>, i: nat, cell: seq<Byte>, car: Word, cdr: Word, flags: Byte)
    requires 9 + 5 * i <= |program| && Holds(cell, car, cdr, flags)
    requires forall k | 0 <= k < 5 :: program[4 + 5 * i + k] == cell[k]
    ensures var c := RomCell(program, i); c.car == car && c.cdr == cdr && c.typ == (flags / 4) % 16
  {
    assert cell[0] == cdr % 256 && cell[1] == (cdr / 256) % 256 && cell[2] == car % 256 && cell[3] == (car / 256) % 256;
    assert program[4 + 5 * i + 0] == cell[0] && program[4 + 5 * i + 1] == cell[1];
    assert program[4 + 5 * i + 2] == cell[2] && program[4 + 5 * i + 3] == cell[3] && program[4 + 5 * i + 4] == cell[4];
  }

  /** What the machine finds at the address of constant i. */
  lemma ConstantAt(m: Mem, cs: seq<Constant>, globals: nat, i: nat)
    requires Image(cs, globals).Some? && Loaded(m, Image(cs, globals).value, |cs|) && i < |cs|
    ensures var w, o := ToRomIndex(MIN_ROM_ENCODING + i), cs[i].obj;
      && m.InRom(w) && !m.InRam(w) && w == ROM_START + i
      && match o
         case Int(v) =>
           && Reference(Int(v / B), cs).Some? && m.At(w).typ == BIGNUM && m.At(w).cdr == v % B
           && m.At(w).car == Reference(Int(v / B), cs).value
         case Pair(a, b) =>
           && Reference(a, cs) == Some(m.At(w).car) && Reference(b, cs) == Some(m.At(w).cdr) && m.At(w).typ == CONS
         case Str(codes) =>
           Reference(CharList(codes), cs) == Some(m.At(w).car) && m.At(w).cdr == NIL && m.At(w).typ == STRING
         case Vec(elems) =>
           && elems != [] && Reference(elems[0], cs) == Some(m.At(w).car)
           && Reference(ListOf(elems[1..]), cs) == Some(m.At(w).cdr) && m.At(w).typ == CONS
         case _ => false
  {
    hide Reference, Image;
    var image, o := Image(cs, globals).value, cs[i].obj;
    ImageAt(cs, globals, i);
    var cell := AssembleConstant(o, cs).value;
    match o
    case Int(v) =>
      AsmLow(v);
      ReadCell(image, i, cell, Reference(Int(v / B), cs).value, v % B, 0x14);
    case Pair(a, b) =>
      ReadCell(image, i, cell, Reference(a, cs).value, Reference(b, cs).value, 0);
    case Str(codes) =>
      ReadCell(image, i, cell, Reference(CharList(codes), cs).value, NIL, 0x18);
    case Vec(elems) =>
      ReadCell(image, i, cell, Reference(elems[0], cs).value, Reference(ListOf(elems[1..]), cs).value, 0);
    case _ =>
  }

  lemma AsmLow(v: int)
    ensures Asm16(v) == Asm16(v % B)
  {
    var q, r := v / B, v % B;
    assert v == 256 * (256 * q) + r;
    assert v / 256 == 256 * q + r / 256;
  }

  /** Reading from the encoded address of an object gives the object, however nested; integers come out
      in the form the bignum routines rely on. */
  lemma {:induction false} ReadBack(m: Mem, cs: seq<Constant>, globals: nat, d: Datum)
    requires Image(cs, globals).Some? && Loaded(m, Image(cs, globals).value, |cs|) && Reference(d, cs).Some?
    ensures Denotes(m, Reference(d, cs).value, d)
    decreases Weight(d)
  {
    hide Image, Loaded;
    var o := Translate(d);
    if EncodeDirect(o).None? {
      var i := Find(cs, o).value;
      ConstantAt(m, cs, globals, i);
      var w := Reference(d, cs).value;
      match o
      case Int(v) => ReadBack(m, cs, globals, Int(v / B));
      case Pair(a, b) =>
        ReadBack(m, cs, globals, a);
        ReadBack(m, cs, globals, b);
      case Str(codes) =>
        CharListWeight(codes);
        ReadBack(m, cs, globals, CharList(codes));
      case Vec(elems) =>
        ListWeight(elems);
        ListWeight(elems[1..]);
        ReadBack(m, cs, globals, elems[0]);
        ReadBack(m, cs, globals, ListOf(elems[1..]));
    }
  }

  /** Characters are integers and vectors are lists at run time. */
  function Plain(d: Datum): Datum
    decreases Weight(d)
  {
    match d
    case Char(c) => Int(c)
    case Pair(a, b) => Pair(Plain(a), Plain(b))
    case Vec(elems) => ListWeight(elems); Plain(ListOf(elems))
    case _ => d
  }

  /** Up to that, an address stands for one object only. */
  lemma {:induction false} DenotesOne(m: Mem, w: Word, d: Datum, e: Datum)
    requires m.Sane() && |m.rom| <= 0x1E00 && Denotes(m, w, d) && Denotes(m, w, e)
    ensures Plain(d) == Plain(e)
    decreases Weight(d) + Weight(e)
  {
    if d.Vec? {
      ListWeight(d.elems);
      DenotesOne(m, w, ListOf(d.elems), e);
    } else if e.Vec? {
      ListWeight(e.elems);
      DenotesOne(m, w, d, ListOf(e.elems));
    } else if d.Pair? && e.Pair? {
      DenotesOne(m, m.At(w).car, d.car, e.car);
      DenotesOne(m, m.At(w).cdr, d.cdr, e.cdr);
    } else if d.Str? && e.Str? {
      CharListWeight(d.codes);
      CharListWeight(e.codes);
      DenotesOne(m, m.At(w).car, CharList(d.codes), CharList(e.codes));
      SameCodes(d.codes, e.codes);
    } else if (d.Int? || d.Char?) && (e.Int? || e.Char?) {
      RepUnique(m, w, if d.Int? then d.v else d.code, if e.Int? then e.v else e.code);
    }
  }

  lemma {:induction false} SameCodes(a: seq<nat>, b: seq<nat>)
    requires Plain(CharList(a)) == Plain(CharList(b))
    ensures a == b
  {
    if a != [] && b != [] {
      SameCodes(a[1..], b[1..]);
      assert a == [a[0]] + a[1..] && b == [b[0]] + b[1..];
    }
  }

  // ---- when it works

  /** No empty vector anywhere inside. */
  predicate NoEmpty(d: Datum)
    decreases Weight(d)
  {
    match d
    case Pair(a, b) => NoEmpty(a) && NoEmpty(b)
    case Vec(elems) => elems != [] && (ListWeight(elems); NoEmpty(ListOf(elems)))
    case _ => true
  }

  lemma {:induction false} CharsNoEmpty(codes: seq<nat>)
    ensures NoEmpty(CharList(codes))
  {
    if codes != [] {
      CharsNoEmpty(codes[1..]);
    }
  }

  ghost predicate NoneEmpty(cs: seq<Constant>) {
    forall i | 0 <= i < |cs| :: NoEmpty(cs[i].obj)
  }

  lemma {:induction false} AddedNoEmpty(obj: Datum, cs: seq<Constant>, fromCode: bool)
    requires NoneEmpty(cs) && NoEmpty(obj)
    ensures NoneEmpty(AddConstant(obj, cs, fromCode))
    decreases Weight(obj)
  {
    var o := Translate(obj);
    if EncodeDirect(o).None? && Find(cs, o).None? {
      var more := cs + [Constant(o, if fromCode then 1 else 0)];
      match o
      case Pair(a, b) =>
        AddedNoEmpty(a, more, false);
        AddedNoEmpty(b, AddConstant(a, more, false), false);
      case Str(codes) =>
        CharListWeight(codes);
        CharsNoEmpty(codes);
        AddedNoEmpty(CharList(codes), more, false);
      case Vec(elems) =>
        ListWeight(elems);
        AddedNoEmpty(ListOf(elems), more, false);
      case Int(v) => AddedNoEmpty(Int(v / B), more, false);
    }
  }

  lemma {:induction false} CollectedNoEmpty(objs: seq<Datum>)
    requires forall o | o in objs :: NoEmpty(o)
    ensures NoneEmpty(Collect(objs))
  {
    if objs != [] {
      CollectedNoEmpty(objs[..|objs| - 1]);
      AddedNoEmpty(objs[|objs| - 1], Collect(objs[..|objs| - 1]), true);
    }
  }

  /** An empty vector inside an object is itself collected. */
  lemma {:induction false} EmptyFound(d: Datum, cs: seq<Constant>) returns (i: nat)
    requires Complete(cs, []) && Encodable(d, cs) && !NoEmpty(d)
    ensures i < |cs| && cs[i].obj == Vec([])
    decreases Weight(d)
  {
    i :| 0 <= i < |cs| && cs[i].obj == d;
    match d
    case Pair(a, b) =>
      assert a in Parts(d) && b in Parts(d);
      if NoEmpty(a) {
        i := EmptyFound(b, cs);
      } else {
        i := EmptyFound(a, cs);
      }
    case Vec(elems) =>
      if elems != [] {
        ListWeight(elems);
        assert ListOf(elems) in Parts(d);
        i := EmptyFound(ListOf(elems), cs);
      }
  }

  lemma ReferenceIff(d: Datum, cs: seq<Constant>)
    requires |cs| <= 257
    ensures Reference(d, cs).Some? <==> Encodable(d, cs)
  {
    EncodableIff(d, cs);
  }

  lemma OneAssembles(cs: seq<Constant>, i: nat)
    requires Complete(cs, []) && |cs| <= 257 && i < |cs| && cs[i].obj != Vec([])
    requires EncodeDirect(cs[i].obj).None? && !cs[i].obj.Char?
    ensures AssembleConstant(cs[i].obj, cs).Some?
  {
    hide Reference;
    var o := cs[i].obj;
    match o
    case Int(v) =>
      assert Int(v / B) in Parts(o);
      ReferenceIff(Int(v / B), cs);
    case Pair(a, b) =>
      assert a in Parts(o) && b in Parts(o);
      ReferenceIff(a, cs);
      ReferenceIff(b, cs);
    case Str(codes) =>
      assert CharList(codes) in Parts(o);
      ReferenceIff(CharList(codes), cs);
    case Vec(elems) =>
      var l := ListOf(elems);
      assert l in Parts(o) && l == Pair(elems[0], ListOf(elems[1..]));
      assert Encodable(l, cs);
      var j :| 0 <= j < |cs| && cs[j].obj == l;
      assert elems[0] in Parts(l) && ListOf(elems[1..]) in Parts(l);
      ReferenceIff(elems[0], cs);
      ReferenceIff(ListOf(elems[1..]), cs);
    case _ =>
  }

  /** Only objects that need a cell are collected. */
  ghost predicate Cellular(cs: seq<Constant>) {
    forall i | 0 <= i < |cs| :: EncodeDirect(cs[i].obj).None? && !cs[i].obj.Char?
  }

  lemma {:induction false} AddedCellular(obj: Datum, cs: seq<Constant>, fromCode: bool)
    requires Cellular(cs)
    ensures Cellular(AddConstant(obj, cs, fromCode))
    decreases Weight(obj)
  {
    var o := Translate(obj);
    if EncodeDirect(o).None? && Find(cs, o).None? {
      var more := cs + [Constant(o, if fromCode then 1 else 0)];
      match o
      case Pair(a, b) =>
        AddedCellular(a, more, false);
        AddedCellular(b, AddConstant(a, more, false), false);
      case Str(codes) =>
        CharListWeight(codes);
        AddedCellular(CharList(codes), more, false);
      case Vec(elems) =>
        ListWeight(elems);
        AddedCellular(ListOf(elems), more, false);
      case Int(v) => AddedCellular(Int(v / B), more, false);
    }
  }

  lemma {:induction false} CollectedCellular(objs: seq<Datum>)
    ensures Cellular(Collect(objs))
  {
    if objs != [] {
      CollectedCellular(objs[..|objs| - 1]);
      AddedCellular(objs[|objs| - 1], Collect(objs[..|objs| - 1]), true);
    }
  }

  lemma {:induction false} AllAssemble(cs: seq<Constant>, n: nat)
    requires n <= |cs| && forall i | 0 <= i < |cs| :: AssembleConstant(cs[i].obj, cs).Some?
    ensures Cells5(cs, n).Some?
  {
    if n > 0 {
      AllAssemble(cs, n - 1);
    }
  }

  /** The objects of a program can be assembled exactly if none has an empty vector in it and there are
      no more than 257 constants. */
  lemma AssemblesIff(objs: seq<Datum>, globals: nat)
    ensures Image(Sort(Collect(objs)), globals).Some? <==> |Collect(objs)| <= 257 && forall o | o in objs :: NoEmpty(o)
  {
    hide Image, Collect, Sort, Complete, Cellular, NoEmpty, Encodable;
    var c := Collect(objs);
    var cs := Sort(c);
    CollectedComplete(objs);
    CollectedCellular(objs);
    SortedEncodable(c);
    if |cs| <= 257 {
      if o :| o in objs && !NoEmpty(o) {
        var i := EmptyFound(o, cs);
        Unassembled(cs, globals, i);
      } else {
        CollectedNoEmpty(objs);
        SortedAlike(c);
        Assembled(cs, globals);
      }
    } else {
      TooMany(cs, globals);
    }
  }

  /** Different integers, none of them small. */
  function Many(n: nat): (r: seq<Datum>)
    ensures |r| == n
  {
    seq(n, i => Int(256 + i))
  }

  lemma {:induction false} ManyCollected(n: nat)
    requires n <= 0xff00
    ensures Collect(Many(n)) == seq(n, i => Constant(Int(256 + i), 1))
  {
    if n > 0 {
      ManyCollected(n - 1);
      var objs, cs := Many(n), Collect(Many(n - 1));
      assert objs[..n - 1] == Many(n - 1);
      assert Find(cs, Int(256 + n - 1)).None?;
      AddDigit(256 + n - 1, cs);
    }
  }

  lemma AddDigit(v: int, cs: seq<Constant>)
    requires 255 < v < B && Find(cs, Int(v)).None?
    ensures AddConstant(Int(v), cs, true) == cs + [Constant(Int(v), 1)]
  {
    var more := cs + [Constant(Int(v), 1)];
    assert v / B == 0 && AddConstant(Int(0), more, false) == more;
    assert AddParts(Int(v), more) == more;
  }

  /** A program with 256 or 257 constants: the compiler lets it pass, and the machine looks for its code
      in front of where it is. */
  lemma CodeMissed(n: nat, globals: nat)
    requires n == 256 || n == 257
    ensures Image(Sort(Collect(Many(n))), globals).Some?
    ensures var image := Image(Sort(Collect(Many(n))), globals).value; CodeStart(image) == 5 * (n - 256) + 4 < |image|
  {
    hide Sort, Collect, Image;
    ManyCollected(n);
    AssemblesIff(Many(n), globals);
    SortedEncodable(Collect(Many(n)));
    StartOf(Sort(Collect(Many(n))), globals);
  }

  lemma StartOf(cs: seq<Constant>, globals: nat)
    requires Image(cs, globals).Some?
    ensures var image := Image(cs, globals).value; |image| == 4 + 5 * |cs| && CodeStart(image) == 5 * (|cs| % 256) + 4
  {}

  lemma TooMany(cs: seq<Constant>, globals: nat)
    requires |cs| > 257
    ensures Image(cs, globals).None?
  {}

  lemma Unassembled(cs: seq<Constant>, globals: nat, i: nat)
    requires i < |cs| && cs[i].obj == Vec([])
    ensures Image(cs, globals).None?
  {
    if Image(cs, globals).Some? {
      CellsAt(cs, |cs|, i);
    }
  }

  lemma SortedAlike(c: seq<Constant>)
    requires NoneEmpty(c) && Cellular(c)
    ensures NoneEmpty(Sort(c)) && Cellular(Sort(c))
  {
    Sorts(c);
    var cs := Sort(c);
    forall i | 0 <= i < |cs| ensures NoEmpty(cs[i].obj) && EncodeDirect(cs[i].obj).None? && !cs[i].obj.Char? {
      assert cs[i] in multiset(cs) && cs[i] in multiset(c) && cs[i] in c;
    }
  }

  lemma Assembled(cs: seq<Constant>, globals: nat)
    requires Complete(cs, []) && Cellular(cs) && NoneEmpty(cs) && |cs| <= 257
    ensures Image(cs, globals).Some?
  {
    forall i | 0 <= i < |cs| ensures AssembleConstant(cs[i].obj, cs).Some? {
      assert NoEmpty(cs[i].obj);
      OneAssembles(cs, i);
    }
    AllAssemble(cs, |cs|);
  }

  /** From the compiler's objects to the machine's: every object the code refers to is found, in full,
      at the address the code is given for it. */
  lemma ConstantsReadBack(m: Mem, objs: seq<Datum>, globals: nat, d: Datum)
    requires var cs := Sort(Collect(objs));
      Image(cs, globals).Some? && Loaded(m, Image(cs, globals).value, |cs|)
    requires d in objs
    ensures var cs := Sort(Collect(objs));
      Reference(d, cs).Some? && Denotes(m, Reference(d, cs).value, d)
  {
    var cs := Sort(Collect(objs));
    CollectedComplete(objs);
    SortedEncodable(Collect(objs));
    ReferenceIff(d, cs);
    ReadBack(m, cs, globals, d);
  }

  // ---- the instruction that pushes a constant

  /** push-constant: one byte for the first 32 encodings, two for the rest. */
  function PushConstant(n: nat): seq<Byte> {
    if n <= 31 then Asm8(n) else Asm8(0xa0 + (n / 256) % 16) + Asm8(n % 256)
  }

  /** What LDCS and LDC push, and where the next instruction is. */
  function PushedConstant(code: seq<Byte>, pc: nat): Option<(Word, nat)>
    requires pc < |code|
  {
    var b: nat := code[pc];
    if b < 0x20 then
      Some((if b < 3 then b + 0xFFFD else b - 3 + 0xFE00, pc + 1))
    else if 0xa0 <= b < 0xb0 && pc + 1 < |code| then
      var high: nat, low: nat := b % 16, code[pc + 1];
      var r := high * 256 + low;
      Some((if r < 3 then r + 0xFFFD else if r < 260 then r - 3 + 0xFE00 else r - 260 + 0xE000, pc + 2))
    else None
  }

  /** The interpreter pushes the very address under which the image has the constant. */
  lemma PushedRight(code: seq<Byte>, pc: nat, d: Datum, cs: seq<Constant>)
    requires |cs| <= 257 && Reference(d, cs).Some?
    requires var p := PushConstant(EncodeConstant(d, cs).value);
      pc + |p| <= |code| && forall k | 0 <= k < |p| :: code[pc + k] == p[k]
    ensures pc < |code|
    ensures PushedConstant(code, pc) == Some((Reference(d, cs).value, pc + |PushConstant(EncodeConstant(d, cs).value)|))
  {
    hide PushConstant, PushedConstant, ToRomIndex;
    var n := EncodeConstant(d, cs).value;
    assert n < 517 && Reference(d, cs) == Some(ToRomIndex(n));
    PushedBack(code, pc, n);
  }

  lemma PushedBack(code: seq<Byte>, pc: nat, n: nat)
    requires n < 517
    requires var p := PushConstant(n); pc + |p| <= |code| && forall k | 0 <= k < |p| :: code[pc + k] == p[k]
    ensures pc < |code| && PushedConstant(code, pc) == Some((ToRomIndex(n), pc + |PushConstant(n)|))
  {
    var p := PushConstant(n);
    assert code[pc + 0] == p[0];
    if n > 31 {
      assert code[pc + 1] == p[1];
    }
  }
}
