/** The compiler's intermediate code: basic blocks and linear code, with a machine for each
    (compiler/ir.rkt, compiler/code-gen.rkt). */
module Blocks {

  datatype Operation =
    | Entry(nparams: nat, rest: bool)
    | PushConstant(c: int)
    | PushStack(pos: nat)
    | PushGlobal(g: nat)
    | SetGlobal(g: nat)
    | Prim(id: nat)
    | Pop

  datatype Instr =
    | Op(op: Operation)
    | Not                                     // (prim #%not)
    | Closure(dest: nat)
    | CallToplevel(dest: nat)
    | JumpToplevel(dest: nat)
    | Call(nargs: nat)
    | Jump(nargs: nat)
    | Return
    | Goto(dest: nat)
    | GotoIfFalse(ifFalse: nat, ifTrue: nat)  // the end of a block
    | BranchIfFalse(dest: nat)               // its one-target form in linear code
  {
    /** Leaves the block it is in. */
    predicate IsJump() {
      Goto? || GotoIfFalse? || JumpToplevel? || Jump? || Return? || BranchIfFalse?
    }

    function Refs(): set<nat> {
      match this
      case Closure(l) => {l}
      case CallToplevel(l) => {l}
      case JumpToplevel(l) => {l}
      case Goto(l) => {l}
      case GotoIfFalse(f, t) => {f, t}
      case BranchIfFalse(l) => {l}
      case _ => {}
    }
  }

  /** Instructions are kept in reverse, the jump first. */
  datatype Block = Block(name: nat, rev: seq<Instr>) {
    function Nth(k: nat): Instr
      requires k < |rev|
    {
      rev[|rev| - 1 - k]
    }

    ghost function Refs(): set<nat> {
      set i, l | 0 <= i < |rev| && l in rev[i].Refs() :: l
    }
  }

  /** Blocks as the code generator leaves them: one jump each, at the end. */
  ghost predicate WellFormed(bbs: seq<Block>) {
    && |bbs| > 0
    && forall l | 0 <= l < |bbs| :: WellFormedBlock(bbs, bbs[l])
  }

  ghost predicate WellFormedBlock(bbs: seq<Block>, b: Block) {
    && |b.rev| > 0
    && !b.rev[0].BranchIfFalse? && !b.rev[0].Closure? && !b.rev[0].CallToplevel? && !b.rev[0].Call?
    && (forall i | 0 < i < |b.rev| :: !b.rev[i].IsJump())
    && (forall l | l in b.Refs() :: l < |bbs|)
  }

  ghost predicate ClosedLabels(bbs: seq<Block>, s: set<nat>) {
    forall l | l in s :: l < |bbs| && bbs[l].Refs() <= s
  }

  /** The data an instruction works on is left open: any semantics that knows which closure
      labels a datum holds, in which #%not negates the next test, and which operations, like
      #%halt, end a run. */
  datatype World<!D> = World(
    exec: (Instr, D) -> D,
    stops: Operation -> bool,
    truth: D -> bool,
    drop: D -> D,
    callee: D -> nat,
    labels: D -> set<nat>)

  ghost predicate Lawful<D(!new)>(w: World<D>) {
    && (forall d :: w.truth(w.exec(Not, d)) == !w.truth(d) && w.drop(w.exec(Not, d)) == w.drop(d))
    && (forall d :: w.labels(w.drop(d)) <= w.labels(d))
    && (forall i, d :: w.labels(w.exec(i, d)) <= w.labels(d) + if i.Closure? then {i.dest} else {})
  }

  datatype State<+P, +D> = State(at: P, conts: seq<P>, d: D)

  datatype Outcome<+S, +D> = Running(s: S) | Halted(d: D) | Stuck

  datatype Point = Point(block: nat, index: nat)

  /** One step of the block machine. */
  ghost function BlockStep<D>(w: World<D>, bbs: seq<Block>, s: State<Point, D>): Outcome<State<Point, D>, D> {
    var l, k := s.at.block, s.at.index;
    if l >= |bbs| || k >= |bbs[l].rev| then Stuck else
      var i := bbs[l].Nth(k);
      var back := Point(l, k + 1);
      match i
      case Op(op) => if w.stops(op) then Halted(w.exec(i, s.d)) else Running(State(back, s.conts, w.exec(i, s.d)))
      case Not => Running(State(back, s.conts, w.exec(i, s.d)))
      case Closure(_) => Running(State(back, s.conts, w.exec(i, s.d)))
      case CallToplevel(t) => Running(State(Point(t, 0), [back] + s.conts, w.exec(i, s.d)))
      case JumpToplevel(t) => Running(State(Point(t, 0), s.conts, w.exec(i, s.d)))
      case Call(_) =>
        if w.callee(s.d) !in w.labels(s.d) then Stuck
        else Running(State(Point(w.callee(s.d), 0), [back] + s.conts, w.exec(i, s.d)))
      case Jump(_) =>
        if w.callee(s.d) !in w.labels(s.d) then Stuck
        else Running(State(Point(w.callee(s.d), 0), s.conts, w.exec(i, s.d)))
      case Return =>
        if s.conts == [] then Halted(s.d) else Running(State(s.conts[0], s.conts[1..], w.exec(i, s.d)))
      case Goto(t) => Running(State(Point(t, 0), s.conts, s.d))
      case GotoIfFalse(f, t) => Running(State(Point(if w.truth(s.d) then t else f, 0), s.conts, w.drop(s.d)))
      case BranchIfFalse(_) => Stuck
  }

  datatype Item = At(name: nat) | Do(instr: Instr)

  /** The position after a label's mark. */
  function Target(code: seq<Item>, l: nat): nat {
    if code == [] then 0 else if code[0] == At(l) then 1 else 1 + Target(code[1..], l)
  }

  /** One step of linear code. */
  ghost function LinearStep<D>(w: World<D>, code: seq<Item>, s: State<nat, D>): Outcome<State<nat, D>, D> {
    if s.at >= |code| then Stuck else
      var back := s.at + 1;
      match code[s.at]
      case At(_) => Running(State(back, s.conts, s.d))
      case Do(i) =>
        match i
        case Op(op) => if w.stops(op) then Halted(w.exec(i, s.d)) else Running(State(back, s.conts, w.exec(i, s.d)))
        case Not => Running(State(back, s.conts, w.exec(i, s.d)))
        case Closure(_) => Running(State(back, s.conts, w.exec(i, s.d)))
        case CallToplevel(t) => Running(State(Target(code, t), [back] + s.conts, w.exec(i, s.d)))
        case JumpToplevel(t) => Running(State(Target(code, t), s.conts, w.exec(i, s.d)))
        case Call(_) =>
          if w.callee(s.d) !in w.labels(s.d) then Stuck
          else Running(State(Target(code, w.callee(s.d)), [back] + s.conts, w.exec(i, s.d)))
        case Jump(_) =>
          if w.callee(s.d) !in w.labels(s.d) then Stuck
          else Running(State(Target(code, w.callee(s.d)), s.conts, w.exec(i, s.d)))
        case Return =>
          if s.conts == [] then Halted(s.d) else Running(State(s.conts[0], s.conts[1..], w.exec(i, s.d)))
        case Goto(t) => Running(State(Target(code, t), s.conts, s.d))
        case BranchIfFalse(f) =>
          Running(State(if w.truth(s.d) then back else Target(code, f), s.conts, w.drop(s.d)))
        case GotoIfFalse(_, _) => Stuck
  }

  ghost function BlockRun<D>(w: World<D>, bbs: seq<Block>, s: State<Point, D>, n: nat): Outcome<State<Point, D>, D>
    decreases n
  {
    if n == 0 then Running(s) else
      var o := BlockStep(w, bbs, s);
      if o.Running? then BlockRun(w, bbs, o.s, n - 1) else o
  }

  ghost function LinearRun<D>(w: World<D>, code: seq<Item>, s: State<nat, D>, n: nat): Outcome<State<nat, D>, D>
    decreases n
  {
    if n == 0 then Running(s) else
      var o := LinearStep(w, code, s);
      if o.Running? then LinearRun(w, code, o.s, n - 1) else o
  }
}
