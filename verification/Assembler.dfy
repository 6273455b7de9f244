/** asm-assemble as it runs: fixups, rounds over them, and the final pass (compiler/asm.rkt). */
module Assembling {
  import opened Relaxation
  import opened Wrappers

  /** A label or deferred item, and how many plain bytes are in front of it since the last one. */
  datatype Fixup = Fixup(span: nat, at: nat)

  function Start(fx: seq<Fixup>, k: nat): nat
    requires k <= |fx|
  {
    if k == 0 then 0 else fx[k - 1].at + 1
  }

  ghost predicate Raws(s: seq<Entry>, i: nat, j: nat) {
    i <= j <= |s| && forall k: nat | i <= k < j :: s[k].Raw?
  }

  ghost predicate FixAt(s: seq<Entry>, fx: seq<Fixup>, k: nat) {
    && k < |fx| && fx[k].at < |s| && !s[fx[k].at].Raw?
    && fx[k].at == Start(fx, k) + fx[k].span && Raws(s, Start(fx, k), fx[k].at)
  }

  /** The fixups of the first i items. */
  ghost predicate Fixes(s: seq<Entry>, fx: seq<Fixup>, i: nat) {
    (forall k: nat | k < |fx| :: FixAt(s, fx, k)) && Raws(s, Start(fx, |fx|), i)
  }

  lemma {:induction false} PosRaws(s: seq<Entry>, size: seq<nat>, i: nat, j: nat)
    requires |size| == |s| && Raws(s, i, j)
    ensures Pos(s, size, j) == Pos(s, size, i) + (j - i)
    decreases j
  {
    if i < j {
      PosRaws(s, size, i, j - 1);
    }
  }

  /** loop2 has dealt with the first i items. */
  ghost predicate Chose(s: seq<Entry>, n: nat, form0: seq<Form>, size0: seq<nat>, form: seq<Form>, size: seq<nat>,
                        i: nat)
    requires Labelled(s, n) && |form0| == |size0| == |s|
  {
    && |form| == |size| == |s|
    && var f := NextForms(s, n, form0, size0);
       forall j: nat | j < |s| ::
         if j < i then form[j] == f[j] && size[j] == Sizes(s, f)[j] else form[j] == form0[j] && size[j] == size0[j]
  }

  /** loop4 has dealt with the first i items. */
  ghost predicate Moved(s: seq<Entry>, n: nat, size: seq<nat>, at0: seq<nat>, at: seq<nat>, i: nat)
    requires Labelled(s, n) && |size| == |s|
  {
    && |at| == |at0| == n
    && forall l: nat | l < n :: at[l] == if Where(s, n, l) < i then Pos(s, size, Where(s, n, l)) else at0[l]
  }

  /** From one fixup to the next, or to the end, there are plain bytes only. */
  lemma SkipRaws(s: seq<Entry>, n: nat, fx: seq<Fixup>, k: nat)
    requires Labelled(s, n) && Fixes(s, fx, |s|) && k <= |fx|
    ensures Raws(s, Start(fx, k), if k < |fx| then fx[k].at else |s|)
  {
    assert k < |fx| ==> FixAt(s, fx, k);
  }

  lemma ChoseMore(s: seq<Entry>, n: nat, form0: seq<Form>, size0: seq<nat>, form: seq<Form>, size: seq<nat>, i: nat,
                  e: nat)
    requires Labelled(s, n) && |form0| == |size0| == |s| && Chose(s, n, form0, size0, form, size, i) && Raws(s, i, e)
    requires forall j: nat | j < |s| && !s[j].Deferred? :: size0[j] == 0
    ensures Chose(s, n, form0, size0, form, size, e)
    ensures e < |s| && s[e].Mark? ==> Chose(s, n, form0, size0, form, size, e + 1)
  {}

  lemma Choose(s: seq<Entry>, n: nat, form0: seq<Form>, size0: seq<nat>, form: seq<Form>, size: seq<nat>, i: nat)
    requires Labelled(s, n) && |form0| == |size0| == |s| && Chose(s, n, form0, size0, form, size, i)
    requires i < |s| && s[i].Deferred?
    ensures var f := Settle(s[i].op, form0[i], Pos(s, size0, i), Pos(s, size0, Where(s, n, s[i].dest)));
      Chose(s, n, form0, size0, form[i := f], size[i := SizeOf(f)], i + 1)
  {}

  lemma Move(s: seq<Entry>, n: nat, size: seq<nat>, at0: seq<nat>, at: seq<nat>, i: nat)
    requires Labelled(s, n) && |size| == |s| && Moved(s, n, size, at0, at, i) && i < |s| && !s[i].Raw?
    ensures s[i].Deferred? ==> Moved(s, n, size, at0, at, i + 1)
    ensures s[i].Mark? ==>
      at[s[i].name] == at0[s[i].name] && Moved(s, n, size, at0, at[s[i].name := Pos(s, size, i)], i + 1)
  {
    if s[i].Mark? {
      var x := s[i].name;
      assert Where(s, n, x) == i;
    }
  }

  lemma MoveRaw(s: seq<Entry>, n: nat, size: seq<nat>, at0: seq<nat>, at: seq<nat>, i: nat)
    requires Labelled(s, n) && |size| == |s| && Moved(s, n, size, at0, at, i) && i < |s| && s[i].Raw?
    ensures Moved(s, n, size, at0, at, i + 1)
  {}

  lemma FixesMore(s: seq<Entry>, fx: seq<Fixup>, i: nat, span: nat)
    requires Fixes(s, fx, i) && i < |s| && span == i - Start(fx, |fx|)
    ensures s[i].Raw? ==> Fixes(s, fx, i + 1)
    ensures !s[i].Raw? ==> Fixes(s, fx + [Fixup(span, i)], i + 1)
  {
    var gx := fx + [Fixup(span, i)];
    if !s[i].Raw? {
      forall k: nat | k < |gx| ensures FixAt(s, gx, k) {
        assert Start(gx, k) == Start(fx, k);
        assert k < |fx| ==> FixAt(s, fx, k) && gx[k] == fx[k];
      }
    }
  }

  /** What an item looks like when loop2 gets to it. */
  lemma AtItem(s: seq<Entry>, n: nat, form0: seq<Form>, size0: seq<nat>, form: seq<Form>, size: seq<nat>, at: seq<nat>,
               i: nat)
    requires Labelled(s, n) && |form0| == |size0| == |s| && Chose(s, n, form0, size0, form, size, i) && i < |s|
    requires at == Labels(s, n, size0)
    ensures |form| == |size| == |s| && |at| == n && form[i] == form0[i] && size[i] == size0[i]
    ensures s[i].Deferred? ==> s[i].dest < n && at[s[i].dest] == Pos(s, size0, Where(s, n, s[i].dest))
    ensures s[i].Mark? ==> s[i].name < n
  {}

  lemma MoveRaws(s: seq<Entry>, n: nat, size: seq<nat>, at0: seq<nat>, at: seq<nat>, i: nat, e: nat)
    requires Labelled(s, n) && |size| == |s| && Raws(s, i, e) && Moved(s, n, size, at0, at, i)
    ensures Moved(s, n, size, at0, at, e)
  {}

  lemma AllChosen(s: seq<Entry>, n: nat, form0: seq<Form>, size0: seq<nat>, form: seq<Form>, size: seq<nat>)
    requires Labelled(s, n) && |form0| == |size0| == |s| && Chose(s, n, form0, size0, form, size, |s|)
    ensures form == NextForms(s, n, form0, size0) && size == Sizes(s, form)
  {}

  lemma AllMoved(s: seq<Entry>, n: nat, size: seq<nat>, at0: seq<nat>, at: seq<nat>)
    requires Labelled(s, n) && |size| == |s| && Moved(s, n, size, at0, at, |s|)
    ensures at == Labels(s, n, size)
  {}

  class Assembler {
    const stream: seq<Entry>
    const n: nat
    const at: array<nat>          // the position field of each label
    const form: array<Form>       // which procedures a deferred item has left
    const size: array<nat>        // its size field
    var fixups: seq<Fixup>

    constructor (stream: seq<Entry>, n: nat)
      ensures this.stream == stream && this.n == n && fresh(at) && fresh(form) && fresh(size)
      ensures Shaped() && form[..] == seq(|stream|, _ => 0) && size[..] == seq(|stream|, _ => 0)
    {
      this.stream, this.n := stream, n;
      at := new nat[n](_ => 0);
      form := new Form[|stream|](_ => 0);
      size := new nat[|stream|](_ => 0);
      fixups := [];
    }

    ghost predicate Shaped() {
      at.Length == n && form.Length == size.Length == |stream| && at != size && (at as object) != form
        && (size as object) != form
    }

    /** asm-pass1 */
    method Pass1()
      requires Shaped() && Labelled(stream, n) && size[..] == seq(|stream|, _ => 0)
      modifies this`fixups, at
      ensures Fixes(stream, fixups, |stream|) && at[..] == Labels(stream, n, size[..])
    {
      hide Moved, Fixes;
      var span, pos := 0, CODE_START;
      fixups := [];
      ghost var at0, zero := at[..], size[..];
      PassStart(stream, n, zero, at0);
      for i := 0 to |stream|
        invariant Fixes(stream, fixups, i) && span == i - Start(fixups, |fixups|)
        invariant pos == Pos(stream, zero, i) && Moved(stream, n, zero, at0, at[..], i)
      {
        var x := stream[i];
        FixesMore(stream, fixups, i, span);
        if x.Raw? {
          MoveRaw(stream, n, zero, at0, at[..], i);
          span, pos := span + 1, pos + 1;
        } else {
          Move(stream, n, zero, at0, at[..], i);
          if x.Mark? {
            at[x.name] := pos;
          }
          fixups := fixups + [Fixup(span, i)];
          span := 0;
        }
      }
      AllMoved(stream, n, zero, at0, at[..]);
    }

    /** loop3: drops forms until one fits. */
    method SettleItem(i: nat, pos: nat)
      requires Shaped() && i < |stream| && stream[i].Deferred? && stream[i].dest < n
      modifies form, size
      ensures var f := Settle(stream[i].op, old(form[i]), pos, at[stream[i].dest]);
        form[..] == old(form[..])[i := f] && size[..] == old(size[..])[i := SizeOf(f)]
    {
      var x := stream[i];
      while Check(x.op, form[i], pos, at[x.dest]).None?
        invariant form[..] == old(form[..])[i := form[i]] && size[..] == old(size[..])
        invariant Settle(x.op, form[i], pos, at[x.dest]) == Settle(x.op, old(form[i]), pos, at[x.dest])
        decreases 4 - (form[i] as int)
      {
        form[i] := form[i] + 1;
      }
      assert Settle(x.op, form[i], pos, at[x.dest]) == form[i];
      size[i] := Check(x.op, form[i], pos, at[x.dest]).value;
    }

    /** loop2: keeps each item's first form that fits where the item stood so far. */
    method ChooseForms()
      requires Shaped() && Labelled(stream, n) && Fixes(stream, fixups, |stream|)
      requires at[..] == Labels(stream, n, size[..])
      requires forall j: nat | j < |stream| && !stream[j].Deferred? :: size[j] == 0
      modifies form, size
      ensures form[..] == NextForms(stream, n, old(form[..]), old(size[..])) && size[..] == Sizes(stream, form[..])
    {
      hide Chose, Labelled, Fixes;
      ghost var form0, size0 := form[..], size[..];
      var pos := CODE_START;
      ChoseNone(stream, n, form0, size0);
      for k := 0 to |fixups|
        invariant Start(fixups, k) <= |stream| && pos == Pos(stream, size0, Start(fixups, k))
        invariant Chose(stream, n, form0, size0, form[..], size[..], Start(fixups, k))
      {
        var fixup := fixups[k];
        var i := fixup.at;
        ToFixup(stream, n, fixups, k, size0);
        ChoseMore(stream, n, form0, size0, form[..], size[..], Start(fixups, k), i);
        AtItem(stream, n, form0, size0, form[..], size[..], at[..], i);
        pos := pos + fixup.span;
        if stream[i].Deferred? {
          Choose(stream, n, form0, size0, form[..], size[..], i);
          var oldSize := size[i];
          SettleItem(i, pos);
          pos := pos + oldSize;
        }
      }
      SkipRaws(stream, n, fixups, |fixups|);
      ChoseMore(stream, n, form0, size0, form[..], size[..], Start(fixups, |fixups|), |stream|);
      AllChosen(stream, n, form0, size0, form[..], size[..]);
    }

    /** loop4: gives every label the position that the sizes now put it at. */
    method MoveLabels() returns (changed: bool)
      requires Shaped() && Labelled(stream, n) && Fixes(stream, fixups, |stream|)
      modifies at
      ensures at[..] == Labels(stream, n, size[..]) && (changed <==> at[..] != old(at[..]))
    {
      hide Moved, Labelled, Fixes;
      ghost var at0, z := at[..], size[..];
      var pos := CODE_START;
      changed := false;
      PassStart(stream, n, z, at0);
      for k := 0 to |fixups|
        invariant Start(fixups, k) <= |stream| && pos == Pos(stream, z, Start(fixups, k))
        invariant Moved(stream, n, z, at0, at[..], Start(fixups, k)) && (changed <==> at[..] != at0)
      {
        var fixup := fixups[k];
        var i := fixup.at;
        ToFixup(stream, n, fixups, k, z);
        MoveRaws(stream, n, z, at0, at[..], Start(fixups, k), i);
        Move(stream, n, z, at0, at[..], i);
        pos := pos + fixup.span;
        var x := stream[i];
        if x.Mark? {
          if at[x.name] != pos {
            at[x.name] := pos;
            assert at[..][x.name] != at0[x.name];
            changed := true;
          } else {
            assert at[..] == at[..][x.name := pos];
          }
        } else {
          pos := pos + size[i];
        }
      }
      SkipRaws(stream, n, fixups, |fixups|);
      MoveRaws(stream, n, z, at0, at[..], Start(fixups, |fixups|), |stream|);
      AllMoved(stream, n, z, at0, at[..]);
    }

    /** loop5: the bytes, and whether every label was where it was said to be. */
    method Emit() returns (code: seq<Byte>, consistent: bool)
      requires Shaped() && Labelled(stream, n) && Chosen(stream, form[..]) && size[..] == Sizes(stream, form[..])
      requires at[..] == Labels(stream, n, size[..])
      ensures consistent && code == Code(stream, n, form[..], size[..], |stream|)
    {
      hide Labelled, Chosen, Produce, Pos, Sizes;
      var pos := CODE_START;
      ghost var f, z := form[..], size[..];
      code, consistent := [], true;
      CodeAt(stream, n, f, z, 0);
      for i := 0 to |stream|
        invariant consistent && code == Code(stream, n, f, z, i) && pos == Pos(stream, z, i)
      {
        var x := stream[i];
        InRange(stream, n, z, i);
        BytesAt(stream, n, f, z, i);
        if x.Mark? {
          consistent := consistent && at[x.name] == pos;
        } else if x.Deferred? {
          var p := Produce(x.op, form[i], pos, at[x.dest]);
          code, pos := code + p, pos + |p|;
        } else {
          code, pos := code + [x.b], pos + 1;
        }
      }
    }

    /** asm-assemble: it ends, its inconsistency error is never raised, and the code is the relaxed
        program with every label at its place. */
    method Assemble() returns (code: seq<Byte>, consistent: bool)
      requires Shaped() && Labelled(stream, n) && form[..] == seq(|stream|, _ => 0) && size[..] == seq(|stream|, _ => 0)
      modifies this`fixups, at, form, size
      ensures consistent && code == Program(stream, n)
      ensures forall l: nat | l < n :: at[l] == Place(stream, n, Where(stream, n, l))
    {
      hide Labelled, Fixes, NextForms, Sizes, Chosen, Relax;
      Pass1();
      ghost var form0, size0 := form[..], size[..];
      ChooseForms();
      var changed := MoveLabels();
      while changed
        invariant Fixes(stream, fixups, |stream|) && |form0| == |size0| == |stream|
        invariant form[..] == NextForms(stream, n, form0, size0) && size[..] == Sizes(stream, form[..])
        invariant at[..] == Labels(stream, n, size[..]) && (changed <==> at[..] != Labels(stream, n, size0))
        invariant Relax(stream, n, form0, size0) == Relaxed(stream, n)
        decreases Left(form0), if size0 == Sizes(stream, form0) then 0 else 1
      {
        RoundShrinks(stream, n, form0, size0);
        form0, size0 := form[..], size[..];
        ChooseForms();
        changed := MoveLabels();
      }
      RoundShrinks(stream, n, form0, size0);
      var _, _ := RelaxedEnds(stream, n);
      code, consistent := Emit();
    }
  }

  lemma PassStart(s: seq<Entry>, n: nat, size: seq<nat>, at: seq<nat>)
    requires Labelled(s, n) && |size| == |s| && |at| == n
    ensures Fixes(s, [], 0) && Moved(s, n, size, at, at, 0)
  {}

  lemma ChoseNone(s: seq<Entry>, n: nat, form: seq<Form>, size: seq<nat>)
    requires Labelled(s, n) && |form| == |size| == |s|
    ensures Chose(s, n, form, size, form, size, 0)
  {}

  lemma ToFixup(s: seq<Entry>, n: nat, fx: seq<Fixup>, k: nat, size: seq<nat>)
    requires Labelled(s, n) && Fixes(s, fx, |s|) && k < |fx| && |size| == |s|
    ensures var i := fx[k].at;
      && i < |s| && !s[i].Raw? && Raws(s, Start(fx, k), i) && Start(fx, k + 1) == i + 1
      && Pos(s, size, i) == Pos(s, size, Start(fx, k)) + fx[k].span
      && Pos(s, size, Start(fx, k + 1)) == Pos(s, size, i) + Width(s[i], size[i])
      && (s[i].Mark? ==> s[i].name < n)
  {
    assert FixAt(s, fx, k);
    PosRaws(s, size, Start(fx, k), fx[k].at);
  }

  lemma InRange(s: seq<Entry>, n: nat, size: seq<nat>, i: nat)
    requires Labelled(s, n) && i < |s| && |size| == |s|
    ensures s[i].Deferred? ==> s[i].dest < n
    ensures s[i].Mark? ==> s[i].name < n && Labels(s, n, size)[s[i].name] == Pos(s, size, i)
  {
    if s[i].Mark? {
      assert Where(s, n, s[i].name) == i;
    }
  }

  /** A round either ends the loop or brings the end nearer. */
  lemma RoundShrinks(s: seq<Entry>, n: nat, form0: seq<Form>, size0: seq<nat>)
    requires Labelled(s, n) && |form0| == |size0| == |s|
    ensures var form := NextForms(s, n, form0, size0);
      var size := Sizes(s, form);
      && (Labels(s, n, size) != Labels(s, n, size0) ==>
           && Relax(s, n, form0, size0) == Relax(s, n, form, size)
           && (Left(form) < Left(form0) || (Left(form) == Left(form0) && size0 != Sizes(s, form0))))
      && (Labels(s, n, size) == Labels(s, n, size0) ==> Relax(s, n, form0, size0) == (form, size))
      && forall j: nat | j < |s| && !s[j].Deferred? :: size[j] == 0
  {
    LeftShrinks(form0, NextForms(s, n, form0, size0));
  }
}
