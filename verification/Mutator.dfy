/** Whole runs of a program against the allocator (main/mm.c:234-393, main/vm-arch.c:13-116).

    A State is memory as a programmer thinks of it: cells have names, no name is used twice and
    nothing is ever taken back.  Run drives the machine, with its collections and its stack cells
    given straight back, through any sequence of commands that obeys the rooting rules, and
    shows that it cannot be told from a State. */
module Mutator {
  import opened Cells
  import opened Wrappers
  import Memory

  type Machine = Memory.Machine

  datatype Value = Plain(w: Word) | Ref(id: nat)

  datatype Node = Node(car: Value, cdr: Value, typ: Tag) {
    ghost function Refs(): set<nat> {
      (if typ < 8 && car.Ref? then {car.id} else {}) + (if typ < 4 && cdr.Ref? then {cdr.id} else {})
    }
  }

  /** The names below globals are those of the cells of global variables. */
  datatype State = State(regs: seq<Value>, nodes: seq<Node>, globals: nat) {
    ghost predicate Ok() {
      |regs| == COUNT && globals <= |nodes| && forall i | 0 <= i < globals :: nodes[i].typ == CONS
    }

    ghost predicate IsCell(r: Reg, limit: Tag)
      requires Ok()
    {
      regs[r].Ref? && regs[r].id < |nodes| && nodes[regs[r].id].typ < limit
    }
  }

  const COUNT: nat := 6
  const ENV: Reg := 5
  type Reg = r: nat | r < 6

  datatype Command =
    | Load(to: Reg, w: Word)
    | Move(to: Reg, from: Reg)
    | NewPair(to: Reg, car: Reg, cdr: Reg)
    | NewClosure(to: Reg, car: Reg, code: Word)
    | NewCont(to: Reg, car: Reg, cdr: Reg)
    | NewBignum(to: Reg, digit: Word, car: Reg)
    | Car(to: Reg, from: Reg)
    | Cdr(to: Reg, from: Reg)
    | SetCar(cell: Reg, from: Reg)
    | SetCdr(cell: Reg, from: Reg)
    | GetGlobal(to: Reg, index: nat)
    | SetGlobal(index: nat, from: Reg)
    | Pop(to: Reg)
    | Collect

  /** A set of cells that a program can do with: globals, registers, and what they lead to. */
  ghost predicate Enough(s: State, keep: set<nat>) {
    && (forall i | 0 <= i < s.globals :: i in keep)
    && (forall v | v in s.regs && v.Ref? :: v.id in keep)
    && (forall i, j | i in keep && i < |s.nodes| && j in s.nodes[i].Refs() :: j in keep)
  }

  ghost predicate Unneeded(s: State, i: nat) {
    exists keep :: Enough(s, keep) && i !in keep
  }

  /** What a program may do.  Addresses that are loaded are constants; code addresses and digits
      may be anything; only cells with the field in question are asked for it; and a stack cell
      may be popped if the program has no other way to it. */
  ghost predicate Allowed(s: State, c: Command)
    requires s.Ok()
  {
    match c
    case Load(_, w) => w >= ROM_START
    case Car(_, q) => s.IsCell(q, 8)
    case Cdr(_, q) => s.IsCell(q, 4)
    case SetCar(q, _) => s.IsCell(q, 8)
    case SetCdr(q, _) => s.IsCell(q, 4)
    case GetGlobal(_, k) => k / 2 < s.globals
    case SetGlobal(k, _) => k / 2 < s.globals
    case Pop(r) => MayPop(s, r)
    case _ => true
  }

  ghost function Made(s: State, r: Reg, n: Node): State
    requires s.Ok()
  {
    State(s.regs[r := Ref(|s.nodes|)], s.nodes + [n], s.globals)
  }

  ghost function Given(s: State, r: Reg, v: Value): State
    requires s.Ok()
  {
    s.(regs := s.regs[r := v])
  }

  ghost function WithCar(s: State, i: nat, v: Value): State {
    if i < |s.nodes| then s.(nodes := s.nodes[i := s.nodes[i].(car := v)]) else s
  }

  ghost function WithCdr(s: State, i: nat, v: Value): State {
    if i < |s.nodes| then s.(nodes := s.nodes[i := s.nodes[i].(cdr := v)]) else s
  }

  ghost function At(s: State, v: Value): Node {
    if v.Ref? && v.id < |s.nodes| then s.nodes[v.id] else Node(Plain(NIL), Plain(NIL), CONS)
  }

  ghost function Popped(s: State, r: Reg): State
    requires s.Ok()
  {
    Given(Given(s, ENV, At(s, s.regs[ENV]).cdr), r, At(s, s.regs[ENV]).car)
  }

  /** What a command means when memory is unlimited and never reused. */
  ghost function Step(s: State, c: Command): (t: State)
    requires s.Ok()
    ensures t.Ok()
  {
    var v := s.regs;
    match c
    case Load(r, w) => Given(s, r, Plain(w))
    case Move(r, q) => Given(s, r, v[q])
    case NewPair(r, a, b) => Made(s, r, Node(v[a], v[b], CONS))
    case NewClosure(r, a, code) => Made(s, r, Node(v[a], Plain(code), CLOSURE))
    case NewCont(r, a, b) => Made(s, r, Node(v[a], v[b], CONTINUATION))
    case NewBignum(r, digit, a) => Made(s, r, Node(v[a], Plain(digit), BIGNUM))
    case Car(r, q) => Given(s, r, At(s, v[q]).car)
    case Cdr(r, q) => Given(s, r, At(s, v[q]).cdr)
    case SetCar(q, a) => if v[q].Ref? then WithCar(s, v[q].id, v[a]) else s
    case SetCdr(q, a) => if v[q].Ref? then WithCdr(s, v[q].id, v[a]) else s
    case GetGlobal(r, k) => Given(s, r, if k % 2 == 1 then At(s, Ref(k / 2)).car else At(s, Ref(k / 2)).cdr)
    case SetGlobal(k, q) => if k % 2 == 1 then WithCar(s, k / 2, v[q]) else WithCdr(s, k / 2, v[q])
    case Pop(r) => Popped(s, r)
    case Collect => s
  }

  /** A run; None if some command in it is against the rules. */
  ghost function Meaning(s: State, program: seq<Command>): (t: Option<State>)
    requires s.Ok()
    ensures t.Some? ==> t.value.Ok()
  {
    if program == [] then
      Some(s)
    else
      var n := |program| - 1;
      match Meaning(s, program[..n])
      case None => None
      case Some(t) => if Allowed(t, program[n]) then Some(Step(t, program[n])) else None
  }

  /** Where the cells of a State are in memory. */
  type Places = map<nat, Word>

  ghost predicate Stands(at: Places, v: Value, w: Word) {
    match v
    case Plain(x) => w == x >= ROM_START
    case Ref(i) => i in at && at[i] == w
  }

  ghost predicate CellStands(at: Places, n: Node, c: Cell) {
    && n.typ == c.typ < 8 && Stands(at, n.car, c.car)
    && if c.typ < 4 then Stands(at, n.cdr, c.cdr) else n.cdr == Plain(c.cdr)
  }

  /** Heap h and registers w are a picture of s. */
  ghost predicate Pictured(h: seq<Cell>, w: seq<Word>, s: State, at: Places) {
    && s.Ok() && |w| == COUNT && |h| <= ROM_START
    && Apart(at) && CellsPictured(h, s.nodes, at) && RegsPictured(w, s.regs, at)
    && (forall i | 0 <= i < s.globals :: i in at && at[i] == i)
  }

  ghost predicate CellsPictured(h: seq<Cell>, nodes: seq<Node>, at: Places) {
    forall i | i in at :: i < |nodes| && at[i] < |h| && CellStands(at, nodes[i], h[at[i]])
  }

  ghost predicate RegsPictured(w: seq<Word>, regs: seq<Value>, at: Places)
    requires |w| == |regs| == COUNT
  {
    forall r: Reg :: Stands(at, regs[r], w[r])
  }

  ghost predicate Apart(at: Places) {
    forall i, j | i in at && j in at && at[i] == at[j] :: i == j
  }

  ghost function Used(at: Places): set<int> {
    set i | i in at :: at[i] as int
  }

  /** A program that asks whether two registers are eq, or what is in one, gets the same answer. */
  lemma SameAnswers(h: seq<Cell>, w: seq<Word>, s: State, at: Places, a: Reg, b: Reg)
    requires Pictured(h, w, s, at)
    ensures w[a] == w[b] <==> s.regs[a] == s.regs[b]
    ensures w[a] < |h| <==> s.regs[a].Ref?
    ensures s.regs[a].Plain? ==> w[a] == s.regs[a].w
    ensures s.regs[a].Ref? ==> h[w[a]].typ == At(s, s.regs[a]).typ
  {
    assert Stands(at, s.regs[a], w[a]) && Stands(at, s.regs[b], w[b]);
  }

  ghost predicate Other(j: nat, i: nat) { j != i }

  /** A cell whose only reference is in the stack register is not needed once it is popped. */
  lemma OnlyOnStack(s: State, r: Reg, i: nat)
    requires s.Ok() && s.regs[ENV] == Ref(i) && s.globals <= i < |s.nodes|
    requires forall q: Reg | q != ENV && q != r :: s.regs[q] != Ref(i)
    requires forall j | 0 <= j < |s.nodes| :: i !in s.nodes[j].Refs()
    requires s.nodes[i].typ == CONS
    requires forall j, k | 0 <= j < |s.nodes| && k in s.nodes[j].Refs() :: k < |s.nodes|
    requires forall q: Reg | s.regs[q].Ref? :: s.regs[q].id < |s.nodes|
    ensures Unneeded(Popped(s, r), i)
  {
    var keep := set j | 0 <= j < |s.nodes| && Other(j, i);
    var t := Popped(s, r);
    forall v | v in t.regs && v.Ref? ensures v.id in keep {
      var q: Reg :| t.regs[q] == v;
      if v == s.nodes[i].car || v == s.nodes[i].cdr {
        assert v.id in s.nodes[i].Refs();
      }
    }
    assert Enough(t, keep);
  }

  lemma InRange(h: seq<Cell>, w: seq<Word>, s: State, at: Places)
    requires Pictured(h, w, s, at)
    ensures s.Ok() && forall i | i in at :: i < |s.nodes| && at[i] < |h|
  {}

  // What the machine's invariant has to do with pictures.

  lemma PictureKept(h: seq<Cell>, w: seq<Word>, s: State, at: Places)
    requires Pictured(h, w, s, at)
    ensures Closed(h, Used(at))
    ensures forall i | 0 <= i < s.globals :: i in Used(at)
    ensures forall r: Reg | w[r] < |h| :: w[r] as int in Used(at)
  {
    forall p, q | p in Used(at) && q in h[p].Links() && Open(h, q) ensures q in Used(at) {
      var i :| i in at && at[i] == p;
      assert CellStands(at, s.nodes[i], h[at[i]]);
    }
    forall r: Reg | w[r] < |h| ensures w[r] as int in Used(at) {
      assert Stands(at, s.regs[r], w[r]);
    }
    forall i | 0 <= i < s.globals ensures i in Used(at) {
      assert i in at && at[i] == i;
    }
  }

  ghost function Only(at: Places, keep: set<nat>): Places {
    map i | i in at && i in keep :: at[i]
  }

  lemma Forget(h: seq<Cell>, w: seq<Word>, s: State, at: Places, keep: set<nat>)
    requires Pictured(h, w, s, at)
    requires forall i | 0 <= i < s.globals :: i in keep
    requires forall v | v in s.regs && v.Ref? :: v.id in keep
    requires forall i, j | i in keep && i in at && j in s.nodes[i].Refs() :: j in keep
    ensures Pictured(h, w, s, Only(at, keep))
  {
    var few := Only(at, keep);
    forall i | i in few ensures CellStands(few, s.nodes[i], h[few[i]]) {
      assert CellStands(at, s.nodes[i], h[at[i]]);
    }
    forall r: Reg ensures Stands(few, s.regs[r], w[r]) {
      assert Stands(at, s.regs[r], w[r]) && s.regs[r] in s.regs;
    }
  }

  /** The names of the cells that are live. */
  ghost function Names(at: Places, live: set<int>): set<nat> {
    set i | i in at && at[i] as int in live
  }

  lemma ForgetDead(h: seq<Cell>, w: seq<Word>, s: State, at: Places, live: set<int>)
    requires Pictured(h, w, s, at) && Closed(h, live)
    requires forall i | 0 <= i < |h| :: !h[i].mark
    requires forall i | 0 <= i < s.globals :: i in live
    requires forall r: Reg | w[r] < |h| :: w[r] as int in live
    ensures Pictured(h, w, s, Only(at, Names(at, live)))
  {
    var keep := Names(at, live);
    forall v | v in s.regs && v.Ref? ensures v.id in keep {
      var r: Reg :| s.regs[r] == v;
      assert Stands(at, s.regs[r], w[r]);
    }
    forall i, j | i in keep && i in at && j in s.nodes[i].Refs() ensures j in keep {
      assert CellStands(at, s.nodes[i], h[at[i]]) && Open(h, at[j]);
      assert at[j] in h[at[i]].Links();
    }
    Forget(h, w, s, at, keep);
  }

  // The steps.

  lemma Gave(h: seq<Cell>, w: seq<Word>, s: State, at: Places, r: Reg, v: Value, x: Word)
    requires Pictured(h, w, s, at) && Stands(at, v, x)
    ensures Pictured(h, w[r := x], Given(s, r, v), at)
  {
    forall q: Reg ensures Stands(at, Given(s, r, v).regs[q], w[r := x][q]) {
      assert Stands(at, s.regs[q], w[q]);
    }
  }

  lemma Fetch(h: seq<Cell>, w: seq<Word>, s: State, at: Places, i: nat)
    requires Pictured(h, w, s, at) && i in at
    ensures CellStands(at, s.nodes[i], h[at[i]])
  {}

  /** Heap g differs from h outside the pictured cells only. */
  lemma Elsewhere(h: seq<Cell>, g: seq<Cell>, w: seq<Word>, s: State, at: Places)
    requires Pictured(h, w, s, at) && |g| == |h|
    requires forall i | i in at :: g[at[i]] == h[at[i]]
    ensures Pictured(g, w, s, at)
  {
    forall i | i in at ensures CellStands(at, s.nodes[i], g[at[i]]) {
      Fetch(h, w, s, at, i);
    }
  }

  lemma MakeCells(h: seq<Cell>, nodes: seq<Node>, at: Places, n: Node, p: Word)
    requires CellsPictured(h, nodes, at) && Apart(at) && p < |h| && p as int !in Used(at) && CellStands(at, n, h[p])
    ensures |nodes| !in at && Apart(at[|nodes| := p]) && CellsPictured(h, nodes + [n], at[|nodes| := p])
  {
    var k := |nodes|;
    var more := at[k := p];
    assert k !in at;
    assert forall i | i in at :: at[i] as int in Used(at);
    forall i | i in more ensures CellStands(more, (nodes + [n])[i], h[more[i]]) {
      StillStands(at, more, (nodes + [n])[i], h[more[i]]);
    }
  }

  /** A new cell at an address that nothing pictured has. */
  lemma Make(h: seq<Cell>, w: seq<Word>, s: State, at: Places, r: Reg, n: Node, p: Word)
    requires Pictured(h, w, s, at) && p < |h| <= ROM_START && p as int !in Used(at) && CellStands(at, n, h[p])
    ensures Pictured(h, w[r := p], Made(s, r, n), at[|s.nodes| := p])
  {
    hide CellsPictured, CellStands, Apart;
    MakeCells(h, s.nodes, at, n, p);
    assert forall q: Reg :: Stands(at, s.regs[q], w[q]);
  }

  lemma StillStands(at: Places, more: Places, n: Node, c: Cell)
    requires CellStands(at, n, c) && forall i | i in at :: i in more && more[i] == at[i]
    ensures CellStands(more, n, c)
  {}

  lemma Wrote(h: seq<Cell>, w: seq<Word>, s: State, at: Places, i: nat, n: Node, c: Cell)
    requires Pictured(h, w, s, at) && i in at && CellStands(at, n, c) && n.typ == s.nodes[i].typ
    ensures Pictured(h[at[i] := c], w, s.(nodes := s.nodes[i := n]), at)
  {
    hide CellStands, RegsPictured;
    var g, nodes := h[at[i] := c], s.nodes[i := n];
    assert CellsPictured(g, nodes, at);
  }

  lemma WroteCar(h: seq<Cell>, w: seq<Word>, s: State, at: Places, i: nat, v: Value, x: Word)
    requires Pictured(h, w, s, at) && i in at && Stands(at, v, x)
    ensures Pictured(h[at[i] := h[at[i]].(car := x)], w, WithCar(s, i, v), at)
    ensures x < |h| ==> x as int in Used(at)
  {
    Fetch(h, w, s, at, i);
    Wrote(h, w, s, at, i, s.nodes[i].(car := v), h[at[i]].(car := x));
    assert x < |h| ==> v.Ref? && at[v.id] == x;
  }

  lemma WroteCdr(h: seq<Cell>, w: seq<Word>, s: State, at: Places, i: nat, v: Value, x: Word)
    requires Pictured(h, w, s, at) && i in at && i < |s.nodes| && s.nodes[i].typ < 4 && Stands(at, v, x)
    ensures Pictured(h[at[i] := h[at[i]].(cdr := x)], w, WithCdr(s, i, v), at)
    ensures x < |h| ==> x as int in Used(at)
  {
    Fetch(h, w, s, at, i);
    Wrote(h, w, s, at, i, s.nodes[i].(cdr := v), h[at[i]].(cdr := x));
    assert x < |h| ==> v.Ref? && at[v.id] == x;
  }

  /** The two moves of a pop. */
  lemma Moved(h: seq<Cell>, w: seq<Word>, s: State, at: Places, r: Reg)
    requires Pictured(h, w, s, at) && s.IsCell(ENV, 1)
    ensures w[ENV] < |h| && h[w[ENV]].typ == CONS && (s.regs[ENV].id >= s.globals ==> s.globals <= w[ENV])
    ensures s.regs[ENV].id in at && at[s.regs[ENV].id] == w[ENV]
    ensures Pictured(h, w[ENV := h[w[ENV]].cdr][r := h[w[ENV]].car], Popped(s, r), at)
  {
    hide Apart, CellsPictured, RegsPictured;
    var i := s.regs[ENV].id;
    FetchReg(h, w, s, at, ENV);
    var c, n := h[at[i]], s.nodes[i];
    Gave(h, w, s, at, ENV, n.cdr, c.cdr);
    Gave(h, w[ENV := c.cdr], Given(s, ENV, n.cdr), at, r, n.car, c.car);
  }

  lemma FetchReg(h: seq<Cell>, w: seq<Word>, s: State, at: Places, r: Reg)
    requires Pictured(h, w, s, at) && s.regs[r].Ref?
    ensures s.regs[r].id in at && at[s.regs[r].id] == w[r] < |h| && s.regs[r].id < |s.nodes|
    ensures CellStands(at, s.nodes[s.regs[r].id], h[w[r]])
    ensures s.regs[r].id >= s.globals ==> s.globals <= w[r]
  {
    var i := s.regs[r].id;
    assert Stands(at, s.regs[r], w[r]);
    if at[i] < s.globals {
      assert at[at[i] as nat] == at[i];
    }
  }

  /** The picture without a cell that is not needed. */
  lemma Without(h: seq<Cell>, w: seq<Word>, s: State, at: Places, i: nat) returns (few: Places)
    requires Pictured(h, w, s, at) && Unneeded(s, i) && i in at
    ensures Pictured(h, w, s, few) && Used(few) <= Used(at) - {at[i] as int}
  {
    var keep :| Enough(s, keep) && i !in keep;
    few := Only(at, keep);
    assert forall i, j | i in keep && i < |s.nodes| && j in s.nodes[i].Refs() :: j in keep;
    assert forall i | i in at :: i < |s.nodes|;
    Forget(h, w, s, at, keep);
  }

  lemma Standing(h: seq<Cell>, w: seq<Word>, s: State, at: Places, few: Places, v: Value, x: Word)
    requires Pictured(h, w, s, at) && Pictured(h, w, s, few) && v in s.regs && Stands(at, v, x)
    ensures Stands(few, v, x)
  {
    var r: Reg :| s.regs[r] == v;
    assert Stands(at, s.regs[r], w[r]) && Stands(few, s.regs[r], w[r]);
  }

  // The machine.

  ghost function Registers(m: Machine): (w: seq<Word>)
    reads m
    ensures |w| == COUNT
  {
    [m.reg1, m.reg2, m.reg3, m.reg4, m.cont, m.env]
  }

  /** The machine's memory is a picture of s, and what is pictured is not free. */
  ghost predicate Represents(m: Machine, s: State, at: Places)
    reads m, m.ram
  {
    && m.Shaped() && s.globals == m.reserved && Pictured(m.ram[..], Registers(m), s, at)
    && (forall f: Word | f in m.free :: f as int !in Used(at))
    && m.tmp1 >= ROM_START && m.tmp2 >= ROM_START && m.tmp3 >= ROM_START && m.tmp4 >= ROM_START && m.tmp5 >= ROM_START
  }

  lemma EachHeld(m: Machine, live: set<int>)
    ensures (forall r: Reg :: m.Held(live, Registers(m)[r])) <==>
            && m.Held(live, m.reg1) && m.Held(live, m.reg2) && m.Held(live, m.reg3) && m.Held(live, m.reg4)
            && m.Held(live, m.cont) && m.Held(live, m.env)
  {
    var w := Registers(m);
    assert w[0] == m.reg1 && w[1] == m.reg2 && w[2] == m.reg3 && w[3] == m.reg4 && w[4] == m.cont && w[5] == m.env;
  }

  /** So the free list and all that the program can get at are apart. */
  lemma RepresentsValid(m: Machine, s: State, at: Places)
    requires Represents(m, s, at)
    ensures m.Valid() && m.Kept(Used(at)) && m.RegistersHeld(Used(at)) && m.Live() <= Used(at)
  {
    hide Reach, Closed, Pictured, CellsPictured, RegsPictured, Memory.FreeList;
    PictureKept(m.ram[..], Registers(m), s, at);
    EachHeld(m, Used(at));
    m.KeptValid(Used(at));
  }

  /** Cells that are not live need no picture. */
  lemma LiveOnly(m: Machine, s: State, at: Places) returns (few: Places)
    requires Represents(m, s, at)
    ensures Represents(m, s, few) && Used(few) <= m.Live()
  {
    hide Reach, Closed, Pictured, CellsPictured, RegsPictured, Memory.FreeList;
    RepresentsValid(m, s, at);
    m.KeptLive();
    EachHeld(m, m.Live());
    few := Only(at, Names(at, m.Live()));
    ForgetDead(m.ram[..], Registers(m), s, at, m.Live());
  }

  function Get(m: Machine, r: Reg): (w: Word)
    reads m
    ensures w == Registers(m)[r]
  {
    match r
    case 0 => m.reg1
    case 1 => m.reg2
    case 2 => m.reg3
    case 3 => m.reg4
    case 4 => m.cont
    case _ => m.env
  }

  method Put(m: Machine, r: Reg, w: Word)
    modifies m`reg1, m`reg2, m`reg3, m`reg4, m`cont, m`env
    ensures Registers(m) == old(Registers(m))[r := w]
  {
    match r {
      case 0 => m.reg1 := w;
      case 1 => m.reg2 := w;
      case 2 => m.reg3 := w;
      case 3 => m.reg4 := w;
      case 4 => m.cont := w;
      case _ => m.env := w;
    }
  }

  /** A register receives a value that the program has. */
  method Receive(m: Machine, r: Reg, w: Word, ghost s: State, ghost at: Places, ghost v: Value)
    requires Represents(m, s, at) && Stands(at, v, w)
    modifies m
    ensures Represents(m, Given(s, r, v), at)
  {
    Gave(m.ram[..], Registers(m), s, at, r, v, w);
    Put(m, r, w);
  }

  /** A register receives a new cell, if there was one. */
  method Place(m: Machine, r: Reg, p: Option<Word>, ghost n: Node, ghost s: State, ghost at: Places)
    returns (ok: bool, ghost more: Places)
    requires Represents(m, s, at) && Used(at) <= m.Live()
    requires p.None? ==> m.Full()
    requires p.Some? ==>
      && p.value < m.ram.Length && p.value !in m.Live() && p.value !in m.free && CellStands(at, n, m.ram[p.value])
    modifies m
    ensures ok ==> Represents(m, Made(s, r, n), more)
    ensures !ok ==> Represents(m, s, more) && m.Full()
  {
    match p {
      case None =>
        ok, more := false, at;
      case Some(w) =>
        Make(m.ram[..], Registers(m), s, at, r, n, w);
        ok, more := true, at[|s.nodes| := w];
        Put(m, r, w);
    }
  }

  /** The picture after an allocation or a collection, which leave live cells alone. */
  lemma LeftAlone(m: Machine, h: seq<Cell>, s: State, at: Places)
    requires m.Valid() && Used(at) <= m.Live() && |h| == m.ram.Length && s.globals == m.reserved
    requires Pictured(h, Registers(m), s, at)
    requires forall i | i in m.Live() :: 0 <= i < |h| && m.ram[i] == h[i]
    requires m.tmp1 >= ROM_START && m.tmp2 >= ROM_START && m.tmp3 >= ROM_START
    requires m.tmp4 >= ROM_START && m.tmp5 >= ROM_START
    ensures Represents(m, s, at)
  {
    hide Pictured, Reach, Memory.FreeList;
    forall i | i in at ensures m.ram[..][at[i]] == h[at[i]] {
      assert at[i] as int in Used(at);
    }
    Elsewhere(h, m.ram[..], Registers(m), s, at);
  }

  /** The four constructors of cells. */
  method NewCell(m: Machine, typ: Tag, car: Word, cdr: Word) returns (p: Option<Word>)
    requires m.Valid() && typ in {CONS, CLOSURE, CONTINUATION, BIGNUM}
    modifies m.ram, m`freeCells, m`free, m`usedCells, m`freeCount
    ensures m.Valid() && m.Live() == old(m.Live())
    ensures forall i | i in m.Live() :: 0 <= i < m.ram.Length && m.ram[i] == old(m.ram[i])
    ensures p.None? ==> m.Full()
    ensures p.Some? ==>
      && p.value < m.ram.Length && p.value !in m.Live() && p.value !in m.free
      && m.ram[p.value] == Cell(car, cdr, typ, false, false)
  {
    hide Reach, Memory.Machine.Valid;
    match typ {
      case 0 => p := m.NewPair(car, cdr);
      case 1 => p := m.NewCont(car, cdr);
      case 4 => p := m.NewClosure(car, cdr);
      case _ => p := m.NewBignum(cdr, car);
    }
  }

  method Construct(m: Machine, r: Reg, typ: Tag, car: Word, cdr: Word, ghost n: Node, ghost s: State, ghost at: Places)
    returns (ok: bool, ghost more: Places)
    requires Represents(m, s, at) && typ in {CONS, CLOSURE, CONTINUATION, BIGNUM}
    requires n.typ == typ && n.car in s.regs && Stands(at, n.car, car)
    requires if typ < 4 then n.cdr in s.regs && Stands(at, n.cdr, cdr) else n.cdr == Plain(cdr)
    modifies m, m.ram
    ensures ok ==> Represents(m, Made(s, r, n), more)
    ensures !ok ==> Represents(m, s, more) && m.Full()
  {
    hide Pictured, Reach, Memory.Machine.Valid, Memory.FreeList;
    RepresentsValid(m, s, at);
    ghost var few := LiveOnly(m, s, at);
    Standing(m.ram[..], Registers(m), s, at, few, n.car, car);
    if typ < 4 {
      Standing(m.ram[..], Registers(m), s, at, few, n.cdr, cdr);
    }
    ghost var h := m.ram[..];
    var p := NewCell(m, typ, car, cdr);
    LeftAlone(m, h, s, few);
    ok, more := Place(m, r, p, n, s, few);
  }

  method Gather(m: Machine, ghost s: State, ghost at: Places) returns (ghost few: Places)
    requires Represents(m, s, at)
    modifies m.ram, m`freeCells, m`free, m`usedCells, m`freeCount
    ensures Represents(m, s, few)
  {
    hide Pictured, Reach, Memory.FreeList;
    RepresentsValid(m, s, at);
    few := LiveOnly(m, s, at);
    ghost var h := m.ram[..];
    m.Gc();
    LeftAlone(m, h, s, few);
  }

  ghost predicate MayPop(s: State, r: Reg)
    requires s.Ok()
  {
    || s.regs[ENV] == Plain(NIL)
    || (s.IsCell(ENV, 1) && s.regs[ENV].id >= s.globals && Unneeded(Popped(s, r), s.regs[ENV].id))
  }

  /** What memory will look like after a pop. */
  lemma PopAhead(h: seq<Cell>, w: seq<Word>, s: State, at: Places, r: Reg) returns (few: Places)
    requires Pictured(h, w, s, at) && MayPop(s, r)
    ensures w[ENV] == NIL ==> few == at && Pictured(h, w[r := NIL], Popped(s, r), few)
    ensures w[ENV] != NIL ==>
      && s.globals <= w[ENV] < |h| && h[w[ENV]].typ == CONS
      && Pictured(h, w[ENV := h[w[ENV]].cdr][r := h[w[ENV]].car], Popped(s, r), few)
      && Used(few) <= Used(at) - {w[ENV] as int}
  {
    few := at;
    if s.regs[ENV] == Plain(NIL) {
      assert Stands(at, s.regs[ENV], w[ENV]);
      assert Popped(s, r).regs == s.regs[r := Plain(NIL)];
      Gave(h, w, s, at, r, Plain(NIL), NIL);
    } else {
      Moved(h, w, s, at, r);
      few := Without(h, w[ENV := h[w[ENV]].cdr][r := h[w[ENV]].car], Popped(s, r), at, s.regs[ENV].id);
    }
  }

  method PopTo(m: Machine, r: Reg)
    requires m.Valid() && (m.env == NIL || (m.reserved <= m.env < m.ram.Length && m.ram[m.env].typ == CONS))
    modifies m, m.ram
    ensures m.Shaped()
    ensures m.tmp1 == old(m.tmp1) && m.tmp2 == old(m.tmp2) && m.tmp3 == old(m.tmp3)
    ensures m.tmp4 == old(m.tmp4) && m.tmp5 == old(m.tmp5)
    ensures old(m.env) == NIL ==>
      Registers(m) == old(Registers(m))[r := NIL] && m.ram[..] == old(m.ram[..]) && m.free == old(m.free)
    ensures old(m.env) != NIL ==>
      && Registers(m) == old(Registers(m)[ENV := m.ram[m.env].cdr][r := m.ram[m.env].car])
      && m.free == [old(m.env)] + old(m.free)
      && forall i | 0 <= i < m.ram.Length && i != old(m.env) :: m.ram[i] == old(m.ram[i])
  {
    hide Reach, Memory.FreeList;
    var p := m.Pop();
    Put(m, r, p);
  }

  method PopStack(m: Machine, r: Reg, ghost s: State, ghost at: Places) returns (ghost few: Places)
    requires Represents(m, s, at) && MayPop(s, r)
    modifies m, m.ram
    ensures Represents(m, Popped(s, r), few)
  {
    hide Pictured, MayPop, Reach, Memory.Machine.Valid, Memory.FreeList;
    RepresentsValid(m, s, at);
    ghost var h, w := m.ram[..], Registers(m);
    few := PopAhead(h, w, s, at, r);
    assert w[ENV] == m.env;
    InRange(h, w, s, at);
    PopTo(m, r);
    if w[ENV] != NIL {
      InRange(h, w[ENV := h[w[ENV]].cdr][r := h[w[ENV]].car], Popped(s, r), few);
      forall i | i in few ensures m.ram[..][few[i]] == h[few[i]] {
        assert few[i] as int in Used(few);
      }
      Elsewhere(h, m.ram[..], Registers(m), Popped(s, r), few);
    }
  }

  method WriteCar(m: Machine, p: Word, x: Word, ghost i: nat, ghost v: Value, ghost s: State, ghost at: Places)
    requires Represents(m, s, at) && i in at && at[i] == p && Stands(at, v, x)
    modifies m.ram
    ensures Represents(m, WithCar(s, i, v), at)
  {
    hide Pictured, Reach, Closed, Memory.FreeList;
    RepresentsValid(m, s, at);
    InRange(m.ram[..], Registers(m), s, at);
    WroteCar(m.ram[..], Registers(m), s, at, i, v, x);
    m.SetCar(p, x, Used(at));
  }

  method WriteCdr(m: Machine, p: Word, x: Word, ghost i: nat, ghost v: Value, ghost s: State, ghost at: Places)
    requires Represents(m, s, at) && i in at && at[i] == p && Stands(at, v, x) && s.nodes[i].typ < 4
    modifies m.ram
    ensures Represents(m, WithCdr(s, i, v), at)
  {
    hide Pictured, Reach, Closed, Memory.FreeList;
    RepresentsValid(m, s, at);
    InRange(m.ram[..], Registers(m), s, at);
    WroteCdr(m.ram[..], Registers(m), s, at, i, v, x);
    m.SetCdr(p, x, Used(at));
  }

  lemma RegStands(h: seq<Cell>, w: seq<Word>, s: State, at: Places, r: Reg)
    requires Pictured(h, w, s, at)
    ensures Stands(at, s.regs[r], w[r])
  {}

  method New(m: Machine, c: Command, ghost s: State, ghost at: Places) returns (ok: bool, ghost now: Places)
    requires Represents(m, s, at) && (c.NewPair? || c.NewClosure? || c.NewCont? || c.NewBignum?)
    modifies m, m.ram
    ensures ok ==> Represents(m, Step(s, c), now)
    ensures !ok ==> Represents(m, s, now) && m.Full()
  {
    ghost var v := s.regs;
    RegStands(m.ram[..], Registers(m), s, at, c.car);
    if c.NewPair? || c.NewCont? {
      RegStands(m.ram[..], Registers(m), s, at, c.cdr);
    }
    hide Represents;
    match c {
      case NewPair(r, a, b) =>
        ok, now := Construct(m, r, CONS, Get(m, a), Get(m, b), Node(v[a], v[b], CONS), s, at);
      case NewClosure(r, a, code) =>
        ok, now := Construct(m, r, CLOSURE, Get(m, a), code, Node(v[a], Plain(code), CLOSURE), s, at);
      case NewCont(r, a, b) =>
        ok, now := Construct(m, r, CONTINUATION, Get(m, a), Get(m, b), Node(v[a], v[b], CONTINUATION), s, at);
      case NewBignum(r, digit, a) =>
        ok, now := Construct(m, r, BIGNUM, Get(m, a), digit, Node(v[a], Plain(digit), BIGNUM), s, at);
    }
  }

  method Read(m: Machine, c: Command, ghost s: State, ghost at: Places)
    requires Represents(m, s, at) && Allowed(s, c) && (c.Car? || c.Cdr? || c.GetGlobal?)
    modifies m
    ensures Represents(m, Step(s, c), at)
  {
    if c.GetGlobal? {
      Fetch(m.ram[..], Registers(m), s, at, c.index / 2);
    } else {
      FetchReg(m.ram[..], Registers(m), s, at, c.from);
    }
    match c {
      case Car(r, q) =>
        Receive(m, r, m.ram[Get(m, q)].car, s, at, At(s, s.regs[q]).car);
      case Cdr(r, q) =>
        Receive(m, r, m.ram[Get(m, q)].cdr, s, at, At(s, s.regs[q]).cdr);
      case GetGlobal(r, k) =>
        if k % 2 == 1 {
          Receive(m, r, m.ram[k / 2].car, s, at, At(s, Ref(k / 2)).car);
        } else {
          Receive(m, r, m.ram[k / 2].cdr, s, at, At(s, Ref(k / 2)).cdr);
        }
    }
  }

  method Write(m: Machine, c: Command, ghost s: State, ghost at: Places)
    requires Represents(m, s, at) && Allowed(s, c) && (c.SetCar? || c.SetCdr? || c.SetGlobal?)
    modifies m.ram
    ensures Represents(m, Step(s, c), at)
  {
    RegStands(m.ram[..], Registers(m), s, at, c.from);
    if !c.SetGlobal? {
      FetchReg(m.ram[..], Registers(m), s, at, c.cell);
    }
    match c {
      case SetCar(q, a) =>
        WriteCar(m, Get(m, q), Get(m, a), s.regs[q].id, s.regs[a], s, at);
      case SetCdr(q, a) =>
        WriteCdr(m, Get(m, q), Get(m, a), s.regs[q].id, s.regs[a], s, at);
      case SetGlobal(k, q) =>
        if k % 2 == 1 {
          WriteCar(m, k / 2, Get(m, q), k / 2, s.regs[q], s, at);
        } else {
          WriteCdr(m, k / 2, Get(m, q), k / 2, s.regs[q], s, at);
        }
    }
  }

  /** One command; false if memory is exhausted, with nothing changed that can be seen. */
  method Execute(m: Machine, c: Command, ghost s: State, ghost at: Places) returns (ok: bool, ghost now: Places)
    requires Represents(m, s, at) && Allowed(s, c)
    modifies m, m.ram
    ensures ok ==> Represents(m, Step(s, c), now)
    ensures !ok ==> Represents(m, s, now) && m.Full()
  {
    ok, now := true, at;
    if c.Move? {
      RegStands(m.ram[..], Registers(m), s, at, c.from);
    }
    hide Represents, MayPop, Popped;
    match c {
      case Load(r, x) => Receive(m, r, x, s, at, Plain(x));
      case Move(r, q) => Receive(m, r, Get(m, q), s, at, s.regs[q]);
      case Car(_, _) => Read(m, c, s, at);
      case Cdr(_, _) => Read(m, c, s, at);
      case GetGlobal(_, _) => Read(m, c, s, at);
      case SetCar(_, _) => Write(m, c, s, at);
      case SetCdr(_, _) => Write(m, c, s, at);
      case SetGlobal(_, _) => Write(m, c, s, at);
      case Pop(r) => now := PopStack(m, r, s, at);
      case Collect => now := Gather(m, s, at);
      case _ => ok, now := New(m, c, s, at);
    }
  }

  lemma MeaningPrefix(s: State, program: seq<Command>, k: nat)
    requires s.Ok() && k <= |program| && Meaning(s, program).Some?
    ensures Meaning(s, program[..k]).Some?
  {
    if k < |program| {
      var n := |program| - 1;
      MeaningPrefix(s, program[..n], k);
      assert program[..n][..k] == program[..k];
    } else {
      assert program[..k] == program;
    }
  }

  /** Every run that obeys the rules: the machine goes through the states that unlimited memory
      would go through, or stops because all its cells are live. */
  method Run(m: Machine, program: seq<Command>, ghost s: State, ghost at: Places)
    returns (done: nat, ghost now: Places)
    requires Represents(m, s, at) && Meaning(s, program).Some?
    modifies m, m.ram
    ensures m.Valid() && done <= |program|
    ensures Meaning(s, program[..done]).Some? && Represents(m, Meaning(s, program[..done]).value, now)
    ensures done < |program| ==> m.Full()
  {
    done, now := 0, at;
    var ok := true;
    while ok && done < |program|
      invariant done <= |program|
      invariant Meaning(s, program[..done]).Some? && Represents(m, Meaning(s, program[..done]).value, now)
      invariant !ok ==> m.Full()
      decreases ok, |program| - done
    {
      MeaningPrefix(s, program, done + 1);
      assert program[..done + 1][..done] == program[..done];
      ok, now := Execute(m, program[done], Meaning(s, program[..done]).value, now);
      if ok {
        done := done + 1;
      }
    }
    RepresentsValid(m, Meaning(s, program[..done]).value, now);
  }

  /** Memory at the start: only globals, all NIL. */
  ghost function Start(globals: nat): (s: State)
    ensures s.Ok()
  {
    State(seq(COUNT, _ => Plain(NIL)), seq(globals, _ => Node(Plain(NIL), Plain(NIL), CONS)), globals)
  }

  ghost function GlobalPlaces(globals: nat): Places
    requires globals < ROM_START
  {
    map i: nat | i < globals && Below(i, globals) :: i as Word
  }

  ghost predicate Below(i: nat, globals: nat) { i < globals }

  lemma StartPictured(h: seq<Cell>, globals: nat)
    requires globals <= |h| < ROM_START
    requires forall i | 0 <= i < globals :: h[i] == Cell(NIL, NIL, CONS, false, false)
    ensures Pictured(h, [NIL, NIL, NIL, NIL, NIL, NIL], Start(globals), GlobalPlaces(globals))
  {
    var at, s := GlobalPlaces(globals), Start(globals);
    forall i | i in at ensures CellStands(at, s.nodes[i], h[at[i]]) {
      assert h[i] == Cell(NIL, NIL, CONS, false, false);
    }
    assert RegsPictured([NIL, NIL, NIL, NIL, NIL, NIL], s.regs, at);
  }

  /** A run begins with nothing but the globals. */
  method Boot(ramSize: nat, globalCount: Wrappers.Byte, rom: seq<Cell>) returns (m: Machine, ghost at: Places)
    requires (globalCount + 1) / 2 < ramSize < ROM_START
    ensures fresh(m) && fresh(m.ram) && m.ram.Length == ramSize && Represents(m, Start((globalCount + 1) / 2), at)
  {
    hide Reach, Memory.FreeList, Pictured, GlobalPlaces;
    m := new Memory.Machine(ramSize, globalCount, rom);
    at := GlobalPlaces(m.reserved);
    StartPictured(m.ram[..], m.reserved);
    forall f: Word | f in m.free ensures f as int !in Used(at) {
      GlobalsUse(m.reserved, f);
    }
  }

  lemma GlobalsUse(globals: nat, f: Word)
    requires globals <= f && globals < ROM_START
    ensures f as int !in Used(GlobalPlaces(globals))
  {}

  // ---- what reads deliver

  /** Registers and cells lead to cells that were made, never to those of the globals. */
  ghost predicate Aloof(s: State) {
    && s.Ok() && (forall r: Reg :: IsMade(s, s.regs[r]))
    && (forall i | 0 <= i < |s.nodes| :: IsMade(s, s.nodes[i].car) && IsMade(s, s.nodes[i].cdr))
  }

  ghost predicate IsMade(s: State, v: Value) {
    v.Ref? ==> s.globals <= v.id < |s.nodes|
  }

  lemma StaysAloof(s: State, c: Command)
    requires Aloof(s) && Allowed(s, c)
    ensures Aloof(Step(s, c))
  {
    var v := s.regs;
    var t := Step(s, c);
    assert forall r: Reg :: IsMade(s, v[r]);
    forall i | 0 <= i < |t.nodes| ensures IsMade(t, t.nodes[i].car) && IsMade(t, t.nodes[i].cdr) {
      assert i < |s.nodes| ==> IsMade(s, s.nodes[i].car) && IsMade(s, s.nodes[i].cdr);
    }
  }

  lemma {:induction false} RunsAloof(globals: nat, program: seq<Command>)
    requires Meaning(Start(globals), program).Some?
    ensures Aloof(Meaning(Start(globals), program).value) && Meaning(Start(globals), program).value.globals == globals
  {
    if program != [] {
      var n := |program| - 1;
      RunsAloof(globals, program[..n]);
      StaysAloof(Meaning(Start(globals), program[..n]).value, program[n]);
    }
  }

  /** What register q has after a run. */
  ghost function RegisterAfter(globals: nat, program: seq<Command>, q: Reg): Value {
    match Meaning(Start(globals), program)
    case Some(t) => t.regs[q]
    case None => Plain(NIL)
  }

  /** The value that a run stored last in global k, NIL if it stored none. */
  ghost function LastStored(globals: nat, program: seq<Command>, k: nat): Value {
    if program == [] then
      Plain(NIL)
    else
      var before, c := program[..|program| - 1], program[|program| - 1];
      if c.SetGlobal? && c.index == k then RegisterAfter(globals, before, c.from) else LastStored(globals, before, k)
  }

  /** Reading a global after any run delivers that value: no other write disturbs it. */
  lemma {:induction false} GlobalRead(globals: nat, program: seq<Command>, k: nat, r: Reg)
    requires Meaning(Start(globals), program).Some? && k / 2 < globals
    ensures Allowed(Meaning(Start(globals), program).value, GetGlobal(r, k))
    ensures Step(Meaning(Start(globals), program).value, GetGlobal(r, k)).regs[r] == LastStored(globals, program, k)
  {
    RunsAloof(globals, program);
    if program != [] {
      var n := |program| - 1;
      var t, c := Meaning(Start(globals), program[..n]).value, program[n];
      RunsAloof(globals, program[..n]);
      GlobalRead(globals, program[..n], k, r);
      assert forall q: Reg :: IsMade(t, t.regs[q]);
    }
  }

  /** So on the machine: after a run that ends by reading global k into register r, the register holds the
      value stored last. */
  lemma GlobalOnMachine(m: Machine, at: Places, globals: nat, program: seq<Command>, k: nat, r: Reg)
    requires Meaning(Start(globals), program).Some? && k / 2 < globals
    ensures Meaning(Start(globals), program + [GetGlobal(r, k)]).Some?
    ensures Represents(m, Meaning(Start(globals), program + [GetGlobal(r, k)]).value, at) ==>
      Stands(at, LastStored(globals, program, k), Registers(m)[r])
  {
    var all := program + [GetGlobal(r, k)];
    assert all[..|all| - 1] == program;
    GlobalRead(globals, program, k, r);
  }

  /** The value that a run stored last in the left or the right half of cell i, when it made the cell or
      since. */
  ghost function LastInCell(globals: nat, program: seq<Command>, i: nat, left: bool): Value {
    if program == [] then
      Plain(NIL)
    else
      var before, c := program[..|program| - 1], program[|program| - 1];
      var made := Meaning(Start(globals), before).Some? && |Meaning(Start(globals), before).value.nodes| == i;
      match c
      case NewPair(_, a, b) =>
        if made then RegisterAfter(globals, before, if left then a else b) else LastInCell(globals, before, i, left)
      case NewCont(_, a, b) =>
        if made then RegisterAfter(globals, before, if left then a else b) else LastInCell(globals, before, i, left)
      case NewClosure(_, a, code) =>
        if made then if left then RegisterAfter(globals, before, a) else Plain(code)
        else LastInCell(globals, before, i, left)
      case NewBignum(_, digit, a) =>
        if made then if left then RegisterAfter(globals, before, a) else Plain(digit)
        else LastInCell(globals, before, i, left)
      case SetCar(q, a) =>
        if left && RegisterAfter(globals, before, q) == Ref(i) then RegisterAfter(globals, before, a)
        else LastInCell(globals, before, i, left)
      case SetCdr(q, a) =>
        if !left && RegisterAfter(globals, before, q) == Ref(i) then RegisterAfter(globals, before, a)
        else LastInCell(globals, before, i, left)
      case _ => LastInCell(globals, before, i, left)
  }

  /** Reading a field of a cell delivers that value, whichever register leads to the cell. */
  lemma FieldRead(globals: nat, program: seq<Command>, q: Reg, i: nat, r: Reg)
    requires Meaning(Start(globals), program).Some?
    requires globals <= i < |Meaning(Start(globals), program).value.nodes|
    ensures var t := Meaning(Start(globals), program).value;
      t.regs[q] == Ref(i) ==>
        && Step(t, Car(r, q)).regs[r] == LastInCell(globals, program, i, true)
        && Step(t, Cdr(r, q)).regs[r] == LastInCell(globals, program, i, false)
  {
    hide LastInCell, Meaning;
    CellValue(globals, program, i);
  }

  lemma {:induction false} CellValue(globals: nat, program: seq<Command>, i: nat)
    requires Meaning(Start(globals), program).Some?
    requires globals <= i < |Meaning(Start(globals), program).value.nodes|
    ensures var t := Meaning(Start(globals), program).value;
      && t.nodes[i].car == LastInCell(globals, program, i, true)
      && t.nodes[i].cdr == LastInCell(globals, program, i, false)
  {
    if program != [] {
      var n := |program| - 1;
      var t, c := Meaning(Start(globals), program[..n]).value, program[n];
      RunsAloof(globals, program[..n]);
      if i < |t.nodes| {
        CellValue(globals, program[..n], i);
      }
    }
  }

  /** A command changes no register but its own, and a pop the stack register; constants and moves arrive as
      they are, and a new cell is one that nothing has led to. */
  lemma Delivered(s: State, c: Command, q: Reg)
    requires Aloof(s) && Allowed(s, c)
    ensures var t := Step(s, c);
      && (match c
          case Load(r, w) => t.regs[r] == Plain(w)
          case Move(r, p) => t.regs[r] == s.regs[p]
          case NewPair(r, _, _) => t.regs[r].Ref? && forall p: Reg :: s.regs[p] != t.regs[r]
          case NewClosure(r, _, _) => t.regs[r].Ref? && forall p: Reg :: s.regs[p] != t.regs[r]
          case NewCont(r, _, _) => t.regs[r].Ref? && forall p: Reg :: s.regs[p] != t.regs[r]
          case NewBignum(r, _, _) => t.regs[r].Ref? && forall p: Reg :: s.regs[p] != t.regs[r]
          case Pop(r) =>
            r != ENV ==> t.regs[r] == Step(s, Car(r, ENV)).regs[r] && t.regs[ENV] == Step(s, Cdr(ENV, ENV)).regs[ENV]
          case _ => true)
      && (c.SetCar? || c.SetCdr? || c.SetGlobal? || c.Collect? || (q != c.to && (c.Pop? ==> q != ENV)) ==>
            t.regs[q] == s.regs[q])
  {
    assert forall p: Reg :: IsMade(s, s.regs[p]);
  }
}
