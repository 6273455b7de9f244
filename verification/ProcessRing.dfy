/** Cooperative processes: a circular list of continuations (compiler/library.scm). */
module ProcessRing {
  import opened Wrappers

  // ---- the queue that the ring stands for

  datatype Op<K> = Spawn(k: K) | Yield(k: K) | Exit

  /** The suspended processes after an operation, the next one to run first. */
  function After<K>(q: seq<K>, op: Op<K>): seq<K> {
    match op
    case Spawn(k) => [k] + q
    case Yield(k) => (q + [k])[1..]
    case Exit => if q == [] then [] else q[1..]
  }

  /** The process that an operation continues; spawn continues with a new one. */
  function Resumed<K>(q: seq<K>, op: Op<K>): Option<K> {
    match op
    case Spawn(_) => None
    case Yield(k) => Some((q + [k])[0])
    case Exit => if q == [] then None else Some(q[0])
  }

  // ---- the ring

  class Slot<K> {
    var car: Option<K>
    var cdr: Slot?<K>

    constructor (car: Option<K>, cdr: Slot?<K>)
      ensures this.car == car && this.cdr == cdr
    {
      this.car, this.cdr := car, cdr;
    }
  }

  class Ring<K(==)> {
    var readyq: Slot<K>
    ghost var slots: seq<Slot<K>>   // once around, from the running slot on
    ghost var queue: seq<K>         // what the other slots hold

    /** Slot i holds its process, if it is not the running one, and leads to the next slot. */
    ghost predicate Link(i: nat)
      requires i < |slots| == |queue| + 1
      reads this, slots
    {
      && slots[i].cdr == slots[if i == |queue| then 0 else i + 1]
      && slots[i].car == if i == 0 then None else Some(queue[i - 1])
    }

    /** A ring of distinct slots; only the running one is empty. */
    ghost predicate Valid()
      reads this, slots
    {
      && |slots| == |queue| + 1 && slots[0] == readyq
      && (forall i, j | 0 <= i < j < |slots| :: slots[i] != slots[j])
      && (forall i: nat | i < |slots| :: Link(i))
    }

    /** start-first-process, up to the call of the thunk */
    constructor ()
      ensures Valid() && fresh(slots) && queue == []
    {
      var first := new Slot(None, null);
      readyq := first;
      slots, queue := [first], [];
      new;
      readyq.cdr := readyq;
    }

    /** spawn: the spawning process is put in front, and a new one runs in its slot. */
    method Spawn(k: K)
      requires Valid()
      modifies this, slots
      ensures Valid() && (forall s | s in slots :: s in old(slots) || fresh(s))
      ensures queue == After(old(queue), Op.Spawn(k))
    {
      assert Link(0);
      var next := new Slot(Some(k), readyq.cdr);
      readyq.cdr := next;
      slots := [readyq, next] + slots[1..];
      queue := [k] + queue;
      forall i: nat | i < |slots| ensures Link(i) {
        assert i >= 2 ==> slots[i] == old(slots)[i - 1] && old(Link(i - 1));
      }
    }

    /** exit: the next process continues, in the slot of the one that ends. */
    method Exit() returns (r: Option<K>)
      requires Valid()
      modifies this, slots
      ensures Valid() && (forall s | s in slots :: s in old(slots))
      ensures queue == After(old(queue), Op.Exit) && r == Resumed(old(queue), Op.Exit)
    {
      assert Link(0) && (|slots| > 1 ==> Link(1));
      var next: Slot<K> := readyq.cdr;
      if next == readyq {
        r := None;
      } else {
        readyq.cdr := next.cdr;
        r := next.car;
        slots := [readyq] + slots[2..];
        queue := queue[1..];
        forall i: nat | i < |slots| ensures Link(i) {
          assert i >= 1 ==> slots[i] == old(slots)[i + 1] && old(Link(i + 1));
        }
      }
    }

    /** yield: one step around the ring. */
    method Yield(k: K) returns (r: K)
      requires Valid()
      modifies this, slots
      ensures Valid() && (forall s | s in slots :: s in old(slots))
      ensures queue == After(old(queue), Op.Yield(k)) && Some(r) == Resumed(old(queue), Op.Yield(k))
    {
      assert Link(0) && (|slots| > 1 ==> Link(1));
      readyq.car := Some(k);
      readyq := readyq.cdr;
      r := readyq.car.value;
      readyq.car := None;
      slots := slots[1..] + [slots[0]];
      queue := (queue + [k])[1..];
      forall i: nat | i < |slots| ensures Link(i) {
        assert i < |slots| - 1 ==> slots[i] == old(slots)[i + 1] && old(Link(i + 1));
        assert i > 0 ==> queue[i - 1] == (old(queue) + [k])[i];
      }
    }
  }

  // ---- who runs when

  ghost function AfterAll<K>(q: seq<K>, ops: seq<Op<K>>): seq<K> {
    if ops == [] then q else After(AfterAll(q, ops[..|ops| - 1]), ops[|ops| - 1])
  }

  function Spawns<K>(ops: seq<Op<K>>): nat {
    if ops == [] then 0 else Spawns(ops[..|ops| - 1]) + if ops[|ops| - 1].Spawn? then 1 else 0
  }

  /** Operations that hand over to the next process. */
  function HandOffs<K>(ops: seq<Op<K>>): nat {
    if ops == [] then 0 else HandOffs(ops[..|ops| - 1]) + if ops[|ops| - 1].Spawn? then 0 else 1
  }

  /** A process at position i has its turn once there are i hand-offs more than spawns; until then it
      waits. */
  ghost predicate Waiting<K>(i: nat, ops: seq<Op<K>>) {
    forall n | 0 <= n <= |ops| :: HandOffs(ops[..n]) < i + Spawns(ops[..n])
  }

  /** While it waits its place is known, */
  lemma {:induction false} Place<K>(q: seq<K>, i: nat, ops: seq<Op<K>>)
    requires 1 <= i <= |q| && Waiting(i, ops)
    ensures var p := i + Spawns(ops) - HandOffs(ops);
      1 <= p <= |AfterAll(q, ops)| && AfterAll(q, ops)[p - 1] == q[i - 1]
  {
    assert ops[..|ops|] == ops;
    if ops != [] {
      var before := ops[..|ops| - 1];
      assert forall n | 0 <= n <= |before| :: before[..n] == ops[..n];
      Place(q, i, before);
    }
  }

  /** and the hand-off that brings the difference to i continues it. */
  lemma Turn<K>(q: seq<K>, i: nat, ops: seq<Op<K>>, last: Op<K>)
    requires 1 <= i <= |q| && Waiting(i, ops) && HandOffs(ops + [last]) == i + Spawns(ops + [last])
    ensures Resumed(AfterAll(q, ops), last) == Some(q[i - 1])
  {
    assert (ops + [last])[..|ops|] == ops && ops[..|ops|] == ops;
    Place(q, i, ops);
  }

  ghost predicate Once<K>(q: seq<K>) {
    forall i, j | 0 <= i < j < |q| :: q[i] != q[j]
  }

  /** Every continuation that is put in the queue is a new one there. */
  ghost predicate Fresh<K>(q: seq<K>, ops: seq<Op<K>>) {
    forall n | 0 <= n < |ops| && !ops[n].Exit? :: ops[n].k !in AfterAll(q, ops[..n])
  }

  /** A suspended continuation is in the queue once, at every point of a run. */
  lemma {:induction false} StaysOnce<K>(q: seq<K>, ops: seq<Op<K>>)
    requires Once(q) && Fresh(q, ops)
    ensures Once(AfterAll(q, ops))
  {
    if ops != [] {
      var before := ops[..|ops| - 1];
      assert forall n | 0 <= n <= |before| :: before[..n] == ops[..n];
      StaysOnce(q, before);
    }
  }

  /** So nothing continues a process while it waits. */
  lemma NotBefore<K>(q: seq<K>, i: nat, ops: seq<Op<K>>, n: nat)
    requires 1 <= i <= |q| && Waiting(i, ops) && Once(q) && Fresh(q, ops) && n < |ops|
    ensures Resumed(AfterAll(q, ops[..n]), ops[n]) != Some(q[i - 1])
  {
    var before, all := ops[..n], ops[..n + 1];
    assert forall m | 0 <= m <= n :: before[..m] == ops[..m] && all[..m] == ops[..m];
    assert all[..n + 1] == all == ops[..n + 1];
    Place(q, i, before);
    StaysOnce(q, before);
    assert HandOffs(all) < i + Spawns(all);
  }

  // ---- nobody is lost

  /** Whom one operation continues, and whom it suspends. */
  ghost function Out<K>(q: seq<K>, op: Op<K>): multiset<K> {
    match Resumed(q, op)
    case None => multiset{}
    case Some(k) => multiset{k}
  }

  ghost function In<K>(op: Op<K>): multiset<K> {
    if op.Exit? then multiset{} else multiset{op.k}
  }

  /** The processes that a run suspends, and those that it continues. */
  ghost function Suspended<K>(ops: seq<Op<K>>): multiset<K> {
    if ops == [] then multiset{} else Suspended(ops[..|ops| - 1]) + In(ops[|ops| - 1])
  }

  ghost function Continued<K>(q: seq<K>, ops: seq<Op<K>>): multiset<K> {
    if ops == [] then multiset{} else
      var before := ops[..|ops| - 1];
      Continued(q, before) + Out(AfterAll(q, before), ops[|ops| - 1])
  }

  /** Over every run: whoever waited or was suspended either waits or has been continued, as often. */
  lemma {:induction false} Conserved<K>(q: seq<K>, ops: seq<Op<K>>)
    ensures multiset(AfterAll(q, ops)) + Continued(q, ops) == multiset(q) + Suspended(ops)
  {
    hide After, Resumed;
    if ops != [] {
      var before, last := ops[..|ops| - 1], ops[|ops| - 1];
      Conserved(q, before);
      StepConserved(AfterAll(q, before), last);
      var was := AfterAll(q, before);
      Balance(multiset(After(was, last)), Out(was, last), multiset(was), In(last), Continued(q, before),
        multiset(q) + Suspended(before));
    }
  }

  lemma StepConserved<K>(q: seq<K>, op: Op<K>)
    ensures multiset(After(q, op)) + Out(q, op) == multiset(q) + In(op)
  {
    match op
    case Spawn(k) =>
    case Yield(k) =>
      var all := q + [k];
      assert all == [all[0]] + all[1..];
      assert multiset(all) == multiset{all[0]} + multiset(all[1..]) == multiset(q) + multiset{k};
    case Exit =>
      if q != [] {
        assert q == [q[0]] + q[1..];
      }
  }

  lemma Balance<K>(after: multiset<K>, out: multiset<K>, was: multiset<K>, came: multiset<K>,
      continued: multiset<K>, all: multiset<K>)
    requires after + out == was + came && was + continued == all
    ensures after + (continued + out) == all + came
  {
    forall k: K ensures (after + (continued + out))[k] == (all + came)[k] {
      assert (after + out)[k] == (was + came)[k] && (was + continued)[k] == all[k];
    }
  }

  /** So a process leaves the queue only to be continued, */
  lemma LeavesContinued<K>(q: seq<K>, ops: seq<Op<K>>, n: nat, k: K)
    requires n < |ops| && k in AfterAll(q, ops[..n]) && k !in AfterAll(q, ops[..n + 1])
    ensures Resumed(AfterAll(q, ops[..n]), ops[n]) == Some(k)
  {
    hide After, Resumed;
    var now, all := AfterAll(q, ops[..n]), ops[..n + 1];
    assert all[..n] == ops[..n] && all[n] == ops[n];
    StepConserved(now, ops[n]);
    assert multiset(now)[k] > 0 && multiset(After(now, ops[n]))[k] == 0;
    assert (multiset(After(now, ops[n])) + Out(now, ops[n]))[k] == (multiset(now) + In(ops[n]))[k];
  }

  /** and whoever is suspended is in it, once, until then. */
  lemma {:induction false} WaitsOnce<K>(q: seq<K>, ops: seq<Op<K>>, n: nat, k: K)
    requires Once(q) && Fresh(q, ops) && n < |ops| && !ops[n].Exit? && ops[n].k == k
    requires forall j | n <= j < |ops| :: Resumed(AfterAll(q, ops[..j]), ops[j]) != Some(k)
    ensures k in AfterAll(q, ops) && Once(AfterAll(q, ops))
  {
    StaysOnce(q, ops);
    Waits(q, ops, n, k);
  }

  lemma {:induction false} Waits<K>(q: seq<K>, ops: seq<Op<K>>, n: nat, k: K)
    requires n < |ops| && !ops[n].Exit? && ops[n].k == k
    requires forall j | n <= j < |ops| :: Resumed(AfterAll(q, ops[..j]), ops[j]) != Some(k)
    ensures k in AfterAll(q, ops)
  {
    hide After, Resumed;
    var before, last := ops[..|ops| - 1], ops[|ops| - 1];
    var was := AfterAll(q, before);
    StepConserved(was, last);
    assert Out(was, last)[k] == 0;
    if n < |ops| - 1 {
      assert forall j | 0 <= j <= |before| :: before[..j] == ops[..j];
      Waits(q, before, n, k);
      assert multiset(was)[k] > 0;
    } else {
      assert In(last)[k] > 0;
    }
    assert (multiset(After(was, last)) + Out(was, last))[k] == (multiset(was) + In(last))[k];
    assert multiset(After(was, last))[k] > 0;
  }

  // ---- the turn of the one that yielding

  lemma {:induction false} AfterFirst<K>(q: seq<K>, op: Op<K>, ops: seq<Op<K>>)
    ensures AfterAll(q, [op] + ops) == AfterAll(After(q, op), ops)
    ensures HandOffs([op] + ops) == HandOffs(ops) + (if op.Spawn? then 0 else 1)
    ensures Spawns([op] + ops) == Spawns(ops) + (if op.Spawn? then 1 else 0)
  {
    var all := [op] + ops;
    if ops == [] {
      assert all == [op] && all[..0] == [];
    } else {
      AfterFirst(q, op, ops[..|ops| - 1]);
      assert all[..|all| - 1] == [op] + ops[..|ops| - 1];
    }
  }

  /** A yield is an exit after a last place in the queue has been taken. */
  lemma LikeExit<K>(q: seq<K>, k: K, ops: seq<Op<K>>)
    ensures var yielding, exiting := [Op.Yield(k)] + ops, [Op.Exit] + ops;
      && AfterAll(q, yielding) == AfterAll(q + [k], exiting)
      && HandOffs(yielding) == HandOffs(exiting) && Spawns(yielding) == Spawns(exiting)
  {
    assert After(q, Op.Yield(k)) == After(q + [k], Op.Exit);
    AfterFirst(q, Op.Yield(k), ops);
    AfterFirst(q + [k], Op.Exit, ops);
  }

  lemma WaitingLikeExit<K>(q: seq<K>, k: K, ops: seq<Op<K>>)
    requires Waiting(|q| + 1, [Op.Yield(k)] + ops)
    ensures Waiting(|q| + 1, [Op<K>.Exit] + ops)
  {
    hide After, AfterAll;
    var yielding, exiting := [Op.Yield(k)] + ops, [Op<K>.Exit] + ops;
    forall n | 0 <= n <= |exiting| ensures HandOffs(exiting[..n]) < |q| + 1 + Spawns(exiting[..n]) {
      if n > 0 {
        assert exiting[..n] == [Op<K>.Exit] + ops[..n - 1] && yielding[..n] == [Op.Yield(k)] + ops[..n - 1];
        LikeExit(q, k, ops[..n - 1]);
      }
    }
  }

  /** With |q| others waiting, a process that yielding has its turn when the hand-offs, its own included, are
      |q| + 1 more than the spawns; alone, it goes on at once. */
  lemma YieldTurn<K>(q: seq<K>, k: K, ops: seq<Op<K>>, last: Op<K>)
    requires var all := [Op.Yield(k)] + ops;
      Waiting(|q| + 1, all) && HandOffs(all + [last]) == |q| + 1 + Spawns(all + [last])
    ensures Resumed(AfterAll(q, [Op.Yield(k)] + ops), last) == Some(k)
  {
    hide After, Resumed, AfterAll, HandOffs, Spawns, Waiting;
    WaitingLikeExit(q, k, ops);
    LikeExit(q, k, ops);
    LikeExit(q, k, ops + [last]);
    assert [Op.Yield(k)] + ops + [last] == [Op.Yield(k)] + (ops + [last]);
    assert [Op.Exit] + ops + [last] == [Op.Exit] + (ops + [last]);
    Turn(q + [k], |q| + 1, [Op.Exit] + ops, last);
  }

  /** Until then nothing continues it. */
  lemma YieldNotBefore<K>(q: seq<K>, k: K, ops: seq<Op<K>>, n: nat)
    requires Waiting(|q| + 1, [Op.Yield(k)] + ops) && n < |ops|
    requires Once(q) && Fresh(q, [Op.Yield(k)] + ops)
    ensures Resumed(AfterAll(q, [Op.Yield(k)] + ops[..n]), ops[n]) != Some(k)
  {
    hide After, Resumed, HandOffs, Spawns, Waiting;
    var yielding, exiting := [Op.Yield(k)] + ops, [Op<K>.Exit] + ops;
    WaitingLikeExit(q, k, ops);
    assert yielding[..0] == [] && yielding[0].k !in AfterAll(q, yielding[..0]);
    forall j | 0 <= j < |exiting| && !exiting[j].Exit? ensures exiting[j].k !in AfterAll(q + [k], exiting[..j]) {
      assert exiting[..j] == [Op<K>.Exit] + ops[..j - 1] && yielding[..j] == [Op.Yield(k)] + ops[..j - 1];
      assert exiting[j] == yielding[j];
      LikeExit(q, k, ops[..j - 1]);
    }
    LikeExit(q, k, ops[..n]);
    assert exiting[..n + 1] == [Op<K>.Exit] + ops[..n] && exiting[n + 1] == ops[n];
    NotBefore(q + [k], |q| + 1, exiting, n + 1);
  }
}
