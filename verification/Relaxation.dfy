/** Branch relaxation: which form each branch gets, and where its label ends up
    (compiler/asm.rkt, compiler/assembler.rkt). */
module Relaxation {
  import opened Wrappers

  /** The opcodes label-instr is given; None where it is given #f. */
  datatype Opcodes = Opcodes(rel4: Option<nat>, rel8: Option<nat>, rel12: Option<nat>, abs16: nat)

  const CALL_TOPLEVEL := Opcodes(None, Some(0xb5), None, 0xb0)
  const JUMP_TOPLEVEL := Opcodes(Some(0x80), Some(0xb6), None, 0xb1)
  const GOTO := Opcodes(None, Some(0xb7), None, 0xb2)
  const GOTO_IF_FALSE := Opcodes(Some(0x90), Some(0xb8), None, 0xb3)
  const CLOSURE := Opcodes(None, Some(0xb9), None, 0xb4)

  /** An item of the code stream. */
  datatype Entry = Raw(b: Byte) | Mark(name: nat) | Deferred(op: Opcodes, dest: nat)

  /** Which of the four pairs of procedures is in front: the earlier ones have been dropped. */
  type Form = x: nat | x < 4

  /** The check procedures. */
  function Check(op: Opcodes, form: Form, self: nat, dest: nat): Option<nat> {
    if form == 0 then if op.rel4.Some? && 0 <= dest - (self + 1) <= 15 then Some(1) else None
    else if form == 1 then if op.rel8.Some? && 0 <= 128 + (dest - (self + 2)) <= 255 then Some(2) else None
    else if form == 2 then if op.rel12.Some? && 0 <= 2048 + (dest - (self + 2)) <= 4095 then Some(2) else None
    else Some(3)
  }

  function SizeOf(form: Form): nat {
    if form == 0 then 1 else if form == 3 then 3 else 2
  }

  /** asm-8 and asm-16, little end first. */
  function Asm8(n: int): seq<Byte> { [n % 256] }

  function Asm16(n: int): seq<Byte> { [n % 256, (n / 256) % 256] }

  const CODE_START: nat := 0

  /** The production procedures. */
  function Produce(op: Opcodes, form: Form, self: nat, dest: nat): (r: seq<Byte>)
    ensures |r| == SizeOf(form) || (op.rel4.None? && form == 0) || (op.rel8.None? && form == 1) 
      || (op.rel12.None? && form == 2)
  {
    if form == 0 && op.rel4.Some? then Asm8(op.rel4.value + (dest - (self + 1)))
    else if form == 1 && op.rel8.Some? then Asm8(op.rel8.value) + Asm8(128 + (dest - (self + 2)))
    else if form == 2 && op.rel12.Some? then Asm16(op.rel12.value * 256 + (2048 + (dest - (self + 2))))
    else Asm8(op.abs16) + Asm16(dest - CODE_START)
  }

  /** loop3: the first form that still fits; the ones before it are gone for good. */
  function Settle(op: Opcodes, form: Form, self: nat, dest: nat): (r: Form)
    ensures form <= r && Check(op, r, self, dest) == Some(SizeOf(r))
    ensures forall f: Form | form <= f < r :: Check(op, f, self, dest).None?
    decreases 4 - form
  {
    if Check(op, form, self, dest).Some? then form else Settle(op, form + 1, self, dest)
  }

  function Width(e: Entry, size: nat): nat {
    match e
    case Raw(_) => 1
    case Mark(_) => 0
    case Deferred(_, _) => size
  }

  /** The position of item i when deferred items have these sizes. */
  function Pos(s: seq<Entry>, size: seq<nat>, i: nat): nat
    requires |size| == |s| && i <= |s|
  {
    if i == 0 then CODE_START else Pos(s, size, i - 1) + Width(s[i - 1], size[i - 1])
  }

  /** Labels are set once, and those that are used are set. */
  ghost predicate Labelled(s: seq<Entry>, n: nat) {
    && (forall i | 0 <= i < |s| && s[i].Mark? :: s[i].name < n)
    && (forall i, j | 0 <= i < j < |s| && s[i].Mark? && s[j].Mark? :: s[i].name != s[j].name)
    && (forall l: nat | l < n :: exists j: nat :: j < |s| && s[j] == Mark(l))
    && (forall i | 0 <= i < |s| && s[i].Deferred? :: s[i].dest < n)
  }

  ghost function Where(s: seq<Entry>, n: nat, l: nat): (j: nat)
    requires Labelled(s, n) && l < n
    ensures j < |s| && s[j] == Mark(l)
  {
    var j: nat :| j < |s| && s[j] == Mark(l);
    j
  }

  ghost function Labels(s: seq<Entry>, n: nat, size: seq<nat>): (r: seq<nat>)
    requires Labelled(s, n) && |size| == |s|
    ensures |r| == n && forall l: nat | l < n :: r[l] == Pos(s, size, Where(s, n, l))
  {
    seq(n, l requires 0 <= l < n => Pos(s, size, Where(s, n, l)))
  }

  /** loop2, item by item. */
  ghost function NextForms(s: seq<Entry>, n: nat, form: seq<Form>, size: seq<nat>): (r: seq<Form>)
    requires Labelled(s, n) && |size| == |form| == |s|
    ensures |r| == |s|
    ensures forall i | 0 <= i < |s| && s[i].Deferred? ::
      r[i] == Settle(s[i].op, form[i], Pos(s, size, i), Pos(s, size, Where(s, n, s[i].dest)))
    ensures forall i | 0 <= i < |s| && !s[i].Deferred? :: r[i] == form[i]
    ensures forall i | 0 <= i < |s| :: form[i] <= r[i]
  {
    seq(|s|, i requires 0 <= i < |s| =>
      if s[i].Deferred? then Settle(s[i].op, form[i], Pos(s, size, i), Pos(s, size, Where(s, n, s[i].dest)))
        else form[i])
  }

  function Sizes(s: seq<Entry>, form: seq<Form>): (r: seq<nat>)
    requires |form| == |s|
    ensures |r| == |s| && forall i | 0 <= i < |s| :: r[i] == if s[i].Deferred? then SizeOf(form[i]) else 0
  {
    seq(|s|, i requires 0 <= i < |s| => if s[i].Deferred? then SizeOf(form[i]) else 0)
  }

  /** How many forms can still be dropped. */
  function Left(form: seq<Form>): nat {
    if form == [] then 0 else 3 - form[0] + Left(form[1..])
  }

  lemma {:induction false} LeftShrinks(a: seq<Form>, b: seq<Form>)
    requires |a| == |b| && forall i | 0 <= i < |a| :: a[i] <= b[i]
    ensures Left(b) <= Left(a) && (a != b ==> Left(b) < Left(a))
  {
    if a != [] {
      var a', b' := a[1..], b[1..];
      LeftShrinks(a', b');
      if a[0] == b[0] && a' == b' {
        assert a == [a[0]] + a' == [b[0]] + b' == b;
      }
    }
  }

  /** loop1: rounds until no label moves. */
  ghost function Relax(s: seq<Entry>, n: nat, form: seq<Form>, size: seq<nat>): (r: (seq<Form>, seq<nat>))
    requires Labelled(s, n) && |size| == |form| == |s|
    ensures |r.0| == |r.1| == |s|
    decreases Left(form), if size == Sizes(s, form) then 0 else 1
  {
    var f := NextForms(s, n, form, size);
    var z := Sizes(s, f);
    LeftShrinks(form, f);
    if Labels(s, n, z) == Labels(s, n, size) then (f, z) else Relax(s, n, f, z)
  }

  /** As pass 1 leaves things: no form dropped, every size 0. */
  ghost function Relaxed(s: seq<Entry>, n: nat): (r: (seq<Form>, seq<nat>))
    requires Labelled(s, n)
    ensures |r.0| == |r.1| == |s|
  {
    Relax(s, n, seq(|s|, _ => 0), seq(|s|, _ => 0))
  }

  /** The round that moved no label: form and size come from the state before it. */
  ghost predicate LastRound(s: seq<Entry>, n: nat, form0: seq<Form>, size0: seq<nat>, form: seq<Form>, size: seq<nat>) {
    && Labelled(s, n) && |form0| == |size0| == |s|
    && form == NextForms(s, n, form0, size0) && size == Sizes(s, form)
    && Labels(s, n, size) == Labels(s, n, size0)
    && forall i | 0 <= i < |s| && s[i].Deferred? :: size0[i] <= size[i]
  }

  lemma {:induction false} RelaxEnds(s: seq<Entry>, n: nat, form: seq<Form>, size: seq<nat>)
      returns (form0: seq<Form>, size0: seq<nat>)
    requires Labelled(s, n) && |size| == |form| == |s|
    requires forall i | 0 <= i < |s| && s[i].Deferred? :: size[i] <= SizeOf(form[i])
    ensures LastRound(s, n, form0, size0, Relax(s, n, form, size).0, Relax(s, n, form, size).1)
    decreases Left(form), if size == Sizes(s, form) then 0 else 1
  {
    hide Pos, Left, Settle, Check;
    var f := NextForms(s, n, form, size);
    var z := Sizes(s, f);
    LeftShrinks(form, f);
    if Labels(s, n, z) == Labels(s, n, size) {
      form0, size0 := form, size;
    } else {
      form0, size0 := RelaxEnds(s, n, f, z);
    }
  }

  /** Sizes that differ move everything behind them. */
  lemma {:induction false} PosMonotone(s: seq<Entry>, a: seq<nat>, b: seq<nat>, i: nat, j: nat)
    requires |a| == |b| == |s| && i <= j <= |s|
    requires forall k | 0 <= k < |s| && s[k].Deferred? :: a[k] <= b[k]
    ensures Pos(s, b, i) - Pos(s, a, i) <= Pos(s, b, j) - Pos(s, a, j)
    ensures Pos(s, a, i) <= Pos(s, a, j) && Pos(s, b, i) <= Pos(s, b, j)
    ensures Pos(s, a, i) <= Pos(s, b, i)
    decreases j
  {
    if i < j {
      PosMonotone(s, a, b, i, j - 1);
    } else if j > 0 {
      PosMonotone(s, a, b, j - 1, j - 1);
    }
  }

  /** An item that has a label behind it, or no deferred item between it and the last label, was
      checked at the position it gets. */
  ghost predicate Steady(s: seq<Entry>, i: nat) {
    i < |s| && forall j | 0 <= j < i && s[j].Deferred? :: exists k: nat :: j < k < |s| && s[k].Mark?
  }

  lemma CheckedInPlace(s: seq<Entry>, n: nat, form0: seq<Form>, size0: seq<nat>, form: seq<Form>, size: seq<nat>,
                       i: nat)
    requires LastRound(s, n, form0, size0, form, size) && Steady(s, i)
    ensures Pos(s, size, i) == Pos(s, size0, i)
    decreases i
  {
    if i > 0 {
      assert Steady(s, i - 1) by {
        forall j | 0 <= j < i - 1 && s[j].Deferred? ensures exists k: nat :: j < k < |s| && s[k].Mark? {}
      }
      CheckedInPlace(s, n, form0, size0, form, size, i - 1);
      if s[i - 1].Deferred? {
        var k: nat :| i - 1 < k < |s| && s[k].Mark?;
        var l := s[k].name;
        assert Where(s, n, l) == k;
        assert Labels(s, n, size)[l] == Labels(s, n, size0)[l];
        PosMonotone(s, size0, size, i, k);
        PosMonotone(s, size0, size, i - 1, i);
      }
    }
  }

  /** The code up to item i. */
  ghost function Code(s: seq<Entry>, n: nat, form: seq<Form>, size: seq<nat>, i: nat): seq<Byte>
    requires Labelled(s, n) && |form| == |size| == |s| && i <= |s|
  {
    if i == 0 then [] else Code(s, n, form, size, i - 1) + Bytes(s, n, form, size, i - 1)
  }

  ghost function Bytes(s: seq<Entry>, n: nat, form: seq<Form>, size: seq<nat>, i: nat): seq<Byte>
    requires Labelled(s, n) && |form| == |size| == |s| && i < |s|
  {
    match s[i]
    case Raw(b) => [b]
    case Mark(_) => []
    case Deferred(op, dest) => Produce(op, form[i], Pos(s, size, i), Pos(s, size, Where(s, n, dest)))
  }

  /** A form in front has its opcode. */
  ghost predicate Chosen(s: seq<Entry>, form: seq<Form>) {
    && |form| == |s|
    && forall i | 0 <= i < |s| && s[i].Deferred? :: HasOpcode(s[i].op, form[i])
  }

  /** Positions are where the bytes are: the inconsistency that asm-assemble looks for cannot occur. */
  lemma {:induction false} CodeAt(s: seq<Entry>, n: nat, form: seq<Form>, size: seq<nat>, i: nat)
    requires Labelled(s, n) && Chosen(s, form) && size == Sizes(s, form) && i <= |s|
    ensures |Code(s, n, form, size, i)| == Pos(s, size, i)
  {
    hide Bytes;
    if i > 0 {
      CodeAt(s, n, form, size, i - 1);
      BytesWidth(s, n, form, size, i - 1);
    }
  }

  lemma BytesWidth(s: seq<Entry>, n: nat, form: seq<Form>, size: seq<nat>, i: nat)
    requires Labelled(s, n) && Chosen(s, form) && size == Sizes(s, form) && i < |s|
    ensures |Bytes(s, n, form, size, i)| == Width(s[i], size[i])
  {
    hide Pos, Where;
  }

  lemma {:induction false} CodePrefix(s: seq<Entry>, n: nat, form: seq<Form>, size: seq<nat>, i: nat, j: nat)
    requires Labelled(s, n) && |form| == |size| == |s| && i <= j <= |s|
    ensures Code(s, n, form, size, i) <= Code(s, n, form, size, j)
    decreases j
  {
    hide Bytes;
    if i < j {
      CodePrefix(s, n, form, size, i, j - 1);
    }
  }

  /** What the interpreter makes of a branch, call or closure instruction. */
  datatype Kind = CallTo | JumpTo | Branch | BranchOnFalse | MakeClosure

  datatype Decoded = Decoded(kind: Kind, entry: nat, next: nat)

  function Decode(code: seq<Byte>, pc: nat): Option<Decoded>
    requires pc < |code|
  {
    var b := code[pc];
    if 0x80 <= b < 0x90 then Some(Decoded(JumpTo, (pc + 1 + b % 16) % 0x10000, pc + 1))
    else if 0x90 <= b < 0xa0 then Some(Decoded(BranchOnFalse, pc + 1 + b % 16, pc + 1))
    else if 0xb0 <= b < 0xb5 then
      if pc + 2 >= |code| then None else
        var high: nat := code[pc + 2];
        Some(Decoded(KindAt(b - 0xb0), code[pc + 1] + 256 * high, pc + 3))
    else if 0xb5 <= b < 0xba then
      if pc + 1 >= |code| then None
        else Some(Decoded(KindAt(b - 0xb5), (pc + 2 + code[pc + 1] - 128) % 0x10000, pc + 2))
    else None
  }

  function KindAt(k: nat): Kind {
    if k == 0 then CallTo else if k == 1 then JumpTo else if k == 2 then Branch else if k == 3 then BranchOnFalse
    else MakeClosure
  }

  function KindOf(op: Opcodes): Option<Kind> {
    if op == CALL_TOPLEVEL then Some(CallTo)
    else if op == JUMP_TOPLEVEL then Some(JumpTo)
    else if op == GOTO then Some(Branch)
    else if op == GOTO_IF_FALSE then Some(BranchOnFalse)
    else if op == CLOSURE then Some(MakeClosure)
    else None
  }

  ghost predicate Holds(code: seq<Byte>, at: nat, p: seq<Byte>) {
    at + |p| <= |code| && forall k | 0 <= k < |p| :: code[at + k] == p[k]
  }

  ghost predicate HasOpcode(op: Opcodes, form: Form) {
    (form == 0 ==> op.rel4.Some?) && (form == 1 ==> op.rel8.Some?) && (form == 2 ==> op.rel12.Some?)
  }

  /** The interpreter goes where it should if the form passes its own check at the place where it is
      produced, and only if, short of addresses that wrap around. */
  lemma FormDecodes(code: seq<Byte>, pc: nat, op: Opcodes, form: Form, dest: nat)
    requires KindOf(op).Some? && |code| < 0x10000 && dest <= |code|
    requires HasOpcode(op, form) && Holds(code, pc, Produce(op, form, pc, dest))
    ensures pc < |code|
    ensures Check(op, form, pc, dest).Some? ==>
      Decode(code, pc) == Some(Decoded(KindOf(op).value, dest, pc + SizeOf(form)))
    ensures |code| <= 0xff00 && Decode(code, pc) == Some(Decoded(KindOf(op).value, dest, pc + SizeOf(form))) ==>
      Check(op, form, pc, dest).Some?
  {
    var p := Produce(op, form, pc, dest);
    assert code[pc + 0] == p[0];
    if form == 1 || form == 3 {
      assert code[pc + 1] == p[1];
    }
    if form == 3 {
      assert code[pc + 2] == p[2] && dest / 256 < 256;
    } else if form == 1 {
      RelDecodes(pc, dest, p[1]);
    } else if form == 0 {
      NibbleDecodes(code, pc, op, dest);
    }
  }

  lemma NibbleDecodes(code: seq<Byte>, pc: nat, op: Opcodes, dest: nat)
    requires (op == JUMP_TOPLEVEL || op == GOTO_IF_FALSE) && |code| < 0x10000 && dest <= |code|
    requires pc < |code| && code[pc] == (op.rel4.value + (dest - (pc + 1))) % 256
    ensures Check(op, 0, pc, dest).Some? ==> Decode(code, pc) == Some(Decoded(KindOf(op).value, dest, pc + 1))
    ensures |code| <= 0xff00 && Decode(code, pc) == Some(Decoded(KindOf(op).value, dest, pc + 1)) ==>
      Check(op, 0, pc, dest).Some?
  {}

  lemma RelDecodes(pc: nat, dest: nat, x: nat)
    requires pc + 2 < 0x10000 && dest < 0x10000 && x == (128 + (dest - (pc + 2))) % 256
    ensures 0 <= 128 + (dest - (pc + 2)) <= 255 ==> (pc + 2 + x - 128) % 0x10000 == dest
    ensures pc + 2 <= 0xff00 && dest <= 0xff00 && (pc + 2 + x - 128) % 0x10000 == dest ==>
      0 <= 128 + (dest - (pc + 2)) <= 255
  {}

  ghost predicate Branches(s: seq<Entry>) {
    forall i | 0 <= i < |s| && s[i].Deferred? :: KindOf(s[i].op).Some?
  }

  /** The bytes of a program and the position of item i in it. */
  ghost function Program(s: seq<Entry>, n: nat): seq<Byte>
    requires Labelled(s, n)
  {
    Code(s, n, Relaxed(s, n).0, Relaxed(s, n).1, |s|)
  }

  ghost function Place(s: seq<Entry>, n: nat, i: nat): nat
    requires Labelled(s, n) && i <= |s|
  {
    Pos(s, Relaxed(s, n).1, i)
  }

  /** The form that item i got would be chosen again at its final position. */
  ghost predicate StillFits(s: seq<Entry>, n: nat, i: nat)
    requires Labelled(s, n) && i < |s| && s[i].Deferred?
  {
    Check(s[i].op, Relaxed(s, n).0[i], Place(s, n, i), Place(s, n, Where(s, n, s[i].dest))).Some?
  }

  /** The interpreter, at item i, decodes the instruction and goes to the final position of its label. */
  ghost predicate Reaches(s: seq<Entry>, n: nat, i: nat)
    requires Labelled(s, n) && i < |s| && s[i].Deferred?
  {
    && Place(s, n, i) < |Program(s, n)| && KindOf(s[i].op).Some?
    && Decode(Program(s, n), Place(s, n, i)) ==
       Some(Decoded(KindOf(s[i].op).value, Place(s, n, Where(s, n, s[i].dest)), Place(s, n, i + 1)))
  }

  lemma RelaxedEnds(s: seq<Entry>, n: nat) returns (form0: seq<Form>, size0: seq<nat>)
    requires Labelled(s, n)
    ensures LastRound(s, n, form0, size0, Relaxed(s, n).0, Relaxed(s, n).1) && Chosen(s, Relaxed(s, n).0)
  {
    hide LastRound, Chosen, Labelled, NextForms, Sizes, Relax;
    form0, size0 := RelaxEnds(s, n, seq(|s|, _ => 0), seq(|s|, _ => 0));
    LastChosen(s, n, form0, size0, Relaxed(s, n).0, Relaxed(s, n).1);
  }

  /** Forms that pass their check have an opcode. */
  lemma LastChosen(s: seq<Entry>, n: nat, form0: seq<Form>, size0: seq<nat>, form: seq<Form>, size: seq<nat>)
    requires LastRound(s, n, form0, size0, form, size)
    ensures Chosen(s, form)
  {
    hide Pos, Labels, Sizes;
  }

  lemma BytesAt(s: seq<Entry>, n: nat, form: seq<Form>, size: seq<nat>, i: nat)
    requires Labelled(s, n) && Chosen(s, form) && size == Sizes(s, form) && i < |s|
    ensures Holds(Code(s, n, form, size, |s|), Pos(s, size, i), Bytes(s, n, form, size, i))
    ensures Pos(s, size, i + 1) == Pos(s, size, i) + |Bytes(s, n, form, size, i)|
  {
    hide Bytes;
    CodeAt(s, n, form, size, i);
    CodeAt(s, n, form, size, i + 1);
    CodePrefix(s, n, form, size, i + 1, |s|);
    assert Code(s, n, form, size, i + 1) == Code(s, n, form, size, i) + Bytes(s, n, form, size, i);
  }

  lemma ItemPlaced(s: seq<Entry>, n: nat, form: seq<Form>, size: seq<nat>, i: nat)
    requires Labelled(s, n) && Chosen(s, form) && size == Sizes(s, form) && i < |s|
    ensures Pos(s, size, i + 1) <= |Code(s, n, form, size, |s|)|
    ensures match s[i]
      case Raw(b) => Pos(s, size, i + 1) == Pos(s, size, i) + 1 && Code(s, n, form, size, |s|)[Pos(s, size, i)] == b
      case Mark(_) => Pos(s, size, i + 1) == Pos(s, size, i)
      case Deferred(_, _) => Pos(s, size, i) < Pos(s, size, i + 1) <= Pos(s, size, i) + 3
  {
    hide Labelled, Sizes, Code;
    BytesAt(s, n, form, size, i);
    BytesWidth(s, n, form, size, i);
    SizeIs(s, form, i);
    CodeAt(s, n, form, size, i + 1);
    CodePrefix(s, n, form, size, i + 1, |s|);
    if s[i].Raw? {
      assert Bytes(s, n, form, size, i)[0] == s[i].b;
    }
  }

  /** The program holds every plain byte of the stream at its place; labels take no room, and deferred items
      as much as their form says. */
  lemma RawPlaced(s: seq<Entry>, n: nat, i: nat)
    requires Labelled(s, n) && i < |s|
    ensures Place(s, n, 0) == 0 && Place(s, n, i + 1) <= |Program(s, n)| == Place(s, n, |s|)
    ensures match s[i]
      case Raw(b) => Place(s, n, i + 1) == Place(s, n, i) + 1 && Program(s, n)[Place(s, n, i)] == b
      case Mark(_) => Place(s, n, i + 1) == Place(s, n, i)
      case Deferred(_, _) => Place(s, n, i) < Place(s, n, i + 1) <= Place(s, n, i) + 3
  {
    hide Relaxed, Labelled, Chosen, Sizes, Code, Pos, Bytes;
    var form, size := Relaxed(s, n).0, Relaxed(s, n).1;
    var form0, size0 := RelaxedEnds(s, n);
    PlacesEnd(s, n);
    ItemPlaced(s, n, form, size, i);
  }

  lemma SizeIs(s: seq<Entry>, form: seq<Form>, i: nat)
    requires |form| == |s| && i < |s|
    ensures s[i].Deferred? ==> 1 <= Sizes(s, form)[i] <= 3
  {}

  /** And it holds nothing else: every byte is one of these or in a deferred item. */
  lemma NothingElse(s: seq<Entry>, n: nat, p: nat) returns (i: nat)
    requires Labelled(s, n) && p < |Program(s, n)|
    ensures i < |s| && Place(s, n, i) <= p < Place(s, n, i + 1) && !s[i].Mark?
    ensures s[i].Raw? ==> p == Place(s, n, i) && Program(s, n)[p] == s[i].b
  {
    hide Labelled, Program, Place;
    PlacesEnd(s, n);
    i := |s|;
    while p < Place(s, n, i)
      invariant i <= |s| && (i < |s| ==> p < Place(s, n, i + 1))
      invariant p < Place(s, n, i) || i < |s|
      decreases i
    {
      i := i - 1;
    }
    RawPlaced(s, n, i);
  }

  lemma PlacesEnd(s: seq<Entry>, n: nat)
    requires Labelled(s, n)
    ensures Place(s, n, 0) == 0 && Place(s, n, |s|) == |Program(s, n)|
  {
    var form, size := Relaxed(s, n).0, Relaxed(s, n).1;
    var form0, size0 := RelaxedEnds(s, n);
    CodeAt(s, n, form, size, |s|);
  }

  /** For any program: an instruction whose form still fits reaches its label, and no other does. */
  lemma ReachesIff(s: seq<Entry>, n: nat, i: nat)
    requires Labelled(s, n) && Branches(s) && |Program(s, n)| < 0x10000 && i < |s| && s[i].Deferred?
    ensures StillFits(s, n, i) ==> Reaches(s, n, i)
    ensures |Program(s, n)| <= 0xff00 && Reaches(s, n, i) ==> StillFits(s, n, i)
  {
    hide Code, Pos, Decode, Produce, Check;
    var form, size := Relaxed(s, n).0, Relaxed(s, n).1;
    var form0, size0 := RelaxedEnds(s, n);
    var t := Where(s, n, s[i].dest);
    BytesAt(s, n, form, size, i);
    CodeAt(s, n, form, size, t);
    CodePrefix(s, n, form, size, t, |s|);
    FormDecodes(Program(s, n), Place(s, n, i), s[i].op, form[i], Place(s, n, t));
  }

  /** So every instruction up to the second after the last label reaches its label. */
  lemma AllReach(s: seq<Entry>, n: nat, i: nat)
    requires Labelled(s, n) && Branches(s) && |Program(s, n)| < 0x10000
    requires Steady(s, i) && s[i].Deferred?
    ensures Reaches(s, n, i)
  {
    var form0, size0 := RelaxedEnds(s, n);
    CheckedInPlace(s, n, form0, size0, Relaxed(s, n).0, Relaxed(s, n).1, i);
    var l := s[i].dest;
    assert Labels(s, n, Relaxed(s, n).1)[l] == Labels(s, n, size0)[l];
    ReachesIff(s, n, i);
  }

  /** Behind the last label that can fail: three calls back to the entry label at 4, behind the header, at
      128, 130 and 132.  All are checked as if at 128, where a one-byte distance is enough; the third is then
      out of its range and calls address 260. */
  lemma LateCall()
    ensures var s := LateCalls(); Labelled(s, 1) && Branches(s) && |Program(s, 1)| == 134 && !Reaches(s, 1, 131)
  {
    hide LateCalls, Pos, Decode, Branches, Code, NextForms, Relaxed;
    var s := LateCalls();
    LateForms();
    var form, size := Relaxed(s, 1).0, Relaxed(s, 1).1;
    LatePositions(size);
    CodeAt(s, 1, form, size, 132);
    ReachesIff(s, 1, 131);
  }

  /** The header of a program without constants and globals, its code, and the calls. */
  ghost function LateCalls(): (s: seq<Entry>)
    ensures Labelled(s, 1) && Branches(s) && Where(s, 1, 0) == 4
    ensures |s| == 132 && s[129] == s[130] == s[131] == Deferred(CALL_TOPLEVEL, 0)
  {
    var s := [Raw(0xd7), Raw(0xfb), Raw(0), Raw(0), Mark(0)] + seq(124, _ => Raw(0)) 
      + seq(3, _ => Deferred(CALL_TOPLEVEL, 0));
    assert s[4] == Mark(0);
    s
  }

  lemma LatePositions(size: seq<nat>)
    requires |size| == 132 && size[129] == size[130] == size[131]
    ensures Pos(LateCalls(), size, 4) == 4 && Pos(LateCalls(), size, 129) == 128
    ensures Pos(LateCalls(), size, 130) == 128 + size[129] && Pos(LateCalls(), size, 131) == 128 + 2 * size[129]
    ensures Pos(LateCalls(), size, 132) == 128 + 3 * size[129]
  {
    PosRaw(LateCalls(), size, 4);
    PosRaw(LateCalls(), size, 129);
  }

  /** The calls are the only deferred items. */
  lemma LateDeferred(i: nat)
    requires i < 132 && LateCalls()[i].Deferred?
    ensures i == 129 || i == 130 || i == 131
  {}

  /** The first round, from forms and sizes that are all 0, */
  lemma LateRound(form: seq<Form>, size: seq<nat>)
    requires |form| == |size| == 132 && size[129] == size[130] == size[131] == 0
    requires form[129] == form[130] == form[131] == 0
    ensures var f := NextForms(LateCalls(), 1, form, size); f[129] == f[130] == f[131] == 1
  {
    hide LateCalls, Pos, Labelled, NextForms;
    LatePositions(size);
    assert Check(CALL_TOPLEVEL, 0, 128, 4).None? && Check(CALL_TOPLEVEL, 1, 128, 4) == Some(2);
  }

  /** moves no label, so it is the last. */
  lemma LateForms()
    ensures var form, size := Relaxed(LateCalls(), 1).0, Relaxed(LateCalls(), 1).1;
      form[129] == form[130] == form[131] == 1 && size == Sizes(LateCalls(), form) && Chosen(LateCalls(), form)
  {
    hide LateCalls, Pos, NextForms, Settle;
    var s := LateCalls();
    var none: seq<Form> := seq(|s|, _ => 0);
    var zero: seq<nat> := seq(|s|, _ => 0);
    LateRound(none, zero);
    var f := NextForms(s, 1, none, zero);
    LatePositions(zero);
    LatePositions(Sizes(s, f));
    assert Labels(s, 1, Sizes(s, f)) == Labels(s, 1, zero);
    assert Relaxed(s, 1) == (f, Sizes(s, f));
    forall i | 0 <= i < |s| && s[i].Deferred? ensures HasOpcode(s[i].op, f[i]) {
      LateDeferred(i);
    }
  }

  /** Up to position i there are only bytes, and the label behind the header. */
  lemma {:induction false} PosRaw(s: seq<Entry>, size: seq<nat>, i: nat)
    requires 4 < |s| == |size| && i <= |s| && s[4].Mark? && forall j | 0 <= j < i && j != 4 :: s[j].Raw?
    ensures Pos(s, size, i) == if i <= 4 then i else i - 1
  {
    if i > 0 {
      PosRaw(s, size, i - 1);
    }
  }
}
