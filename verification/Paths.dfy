/**
  A message looked at from outside: which messages can be reached in it through
  present submessages, what they lack, and what merging makes of the values there.
 */
module Paths {
  import opened Messages

  /** Into the j-th message of field i. */
  datatype Step = Into(i: nat, j: nat)

  datatype Reached = Nowhere | At(sch: Schema, m: Msg)

  /** The message a path leads to, if every step goes into a message that is there. */
  function Reach(sch: Schema, m: Msg, path: seq<Step>): Reached
    decreases |path|
  {
    if path == [] then At(sch, m)
    else
      var i, j := path[0].i, path[0].j;
      if i < |sch.fields| && i < |m.slots| && j < |m.slots[i]| && sch.fields[i].kind.KMessage? && m.slots[i][j].Sub?
      then Reach(sch.fields[i].kind.sub, m.slots[i][j].m, path[1..])
      else Nowhere
  }

  /** A message in which a required field is absent. */
  predicate Lacks(r: Reached) {
    r.At? && exists i :: 0 <= i < |r.sch.fields| && i < |r.m.slots|
                         && r.sch.fields[i].rule.Required? && r.m.slots[i] == []
  }

  /** Some required field is absent somewhere. */
  ghost predicate Uninitialized(sch: Schema, m: Msg) {
    exists path :: Lacks(Reach(sch, m, path))
  }

  lemma SubOfOne(k: Kind, v: Val)
    requires k.KMessage? && Typed(k, v)
    ensures v.Sub? && WellTyped(k.sub, v.m) && SubOf(k.sub, [v]) == v.m
  {
  }

  lemma {:induction false} CompleteReach(sch: Schema, m: Msg, path: seq<Step>)
    requires WellTyped(sch, m) && Complete(sch, m)
    ensures !Lacks(Reach(sch, m, path))
    decreases |path|
  {
    if path == [] {
      forall i | 0 <= i < |sch.fields| && sch.fields[i].rule.Required? ensures m.slots[i] != [] {
        assert SlotComplete(sch.fields[i], m.slots[i]);
      }
    } else if Reach(sch, m, path).At? {
      var i, j := path[0].i, path[0].j;
      var sub, v := sch.fields[i].kind.sub, m.slots[i][j];
      assert SlotTyped(sch.fields[i], m.slots[i]) && SlotComplete(sch.fields[i], m.slots[i]);
      SubOfOne(sch.fields[i].kind, v);
      CompleteReach(sub, v.m, path[1..]);
    }
  }

  lemma {:induction false} IncompleteReach(sch: Schema, m: Msg) returns (path: seq<Step>)
    requires WellTyped(sch, m) && !Complete(sch, m)
    ensures Lacks(Reach(sch, m, path))
    decreases sch
  {
    var i :| 0 <= i < |sch.fields| && !SlotComplete(sch.fields[i], m.slots[i]);
    var f, x := sch.fields[i], m.slots[i];
    if f.rule.Required? && x == [] {
      path := [];
    } else {
      var sub := f.kind.sub;
      var j :| 0 <= j < |x| && !Complete(sub, SubOf(sub, [x[j]]));
      assert SlotTyped(f, x);
      SubOfOne(f.kind, x[j]);
      var rest := IncompleteReach(sub, x[j].m);
      path := [Into(i, j)] + rest;
      assert path[1..] == rest;
    }
  }

  /** Complete means that no path leads to a message that lacks a required field. */
  lemma CompleteEverywhere(sch: Schema, m: Msg)
    requires WellTyped(sch, m)
    ensures Complete(sch, m) <==> !Uninitialized(sch, m)
  {
    if Complete(sch, m) {
      forall path ensures !Lacks(Reach(sch, m, path)) {
        CompleteReach(sch, m, path);
      }
    } else {
      var path := IncompleteReach(sch, m);
    }
  }

  // ---------------------------------------------------------------- merging, value by value

  /** The slot of field i of the message that the singular submessages of fields is lead to; empty if one is absent. */
  function SlotAt(sch: Schema, m: Msg, fields: seq<nat>, i: nat): seq<Val>
    decreases |fields|
  {
    if fields == [] then (if i < |m.slots| then m.slots[i] else [])
    else
      var k := fields[0];
      if k < |sch.fields| && k < |m.slots| && m.slots[k] != [] && sch.fields[k].kind.KMessage? && m.slots[k][0].Sub?
      then SlotAt(sch.fields[k].kind.sub, m.slots[k][0].m, fields[1..], i)
      else []
  }

  /** The fields lead through singular submessages to a schema whose field i is f. */
  predicate Leads(sch: Schema, fields: seq<nat>, i: nat, f: Field)
    decreases |fields|
  {
    if fields == [] then i < |sch.fields| && sch.fields[i] == f
    else
      && fields[0] < |sch.fields| && sch.fields[fields[0]].kind.KMessage? && !sch.fields[fields[0]].rule.Repeated?
      && Leads(sch.fields[fields[0]].kind.sub, fields[1..], i, f)
  }

  /**
    Merging, read off the two messages: at every place that singular submessages
    lead to, a repeated field has the elements of the one followed by those of the
    other; a singular scalar is the second message's if it has one there, otherwise
    the first's; a submessage is there if either has it.
   */
  lemma {:induction false} MergedAt(sch: Schema, a: Msg, b: Msg, fields: seq<nat>, i: nat, f: Field)
    requires WellTyped(sch, a) && WellTyped(sch, b) && Leads(sch, fields, i, f)
    ensures var x, y := SlotAt(sch, a, fields, i), SlotAt(sch, b, fields, i);
            var z := SlotAt(sch, Merge(sch, a, b), fields, i);
            if f.rule.Repeated? then z == x + y
            else if f.kind.KMessage? then z == [] <==> x == [] && y == []
            else z == if y != [] then y else x
    decreases |fields|
  {
    if fields != [] {
      var k := fields[0];
      var g := sch.fields[k];
      var sub, x, y := g.kind.sub, a.slots[k], b.slots[k];
      assert SlotTyped(g, x) && SlotTyped(g, y);
      EmptyTyped(sub);
      if x != [] { SubOfOne(g.kind, x[0]); }
      if y != [] {
        SubOfOne(g.kind, y[0]);
        assert Merge(sch, a, b).slots[k] == [Sub(Merge(sub, SubOf(sub, x), SubOf(sub, y)))];
        MergedAt(sub, SubOf(sub, x), SubOf(sub, y), fields[1..], i, f);
        EmptySlotAt(sub, fields[1..], i, f);
      } else {
        assert Merge(sch, a, b).slots[k] == x;
        assert SlotAt(sch, b, fields, i) == [];
        AppendNothing(SlotAt(sch, a, fields, i));
      }
    } else {
      assert Merge(sch, a, b).slots[i] == MergeSlot(f, a.slots[i], b.slots[i]);
    }
  }

  lemma AppendNothing<T>(x: seq<T>)
    ensures x + [] == x
  {
  }

  lemma {:induction false} EmptySlotAt(sch: Schema, fields: seq<nat>, i: nat, f: Field)
    requires Leads(sch, fields, i, f)
    ensures SlotAt(sch, Empty(sch), fields, i) == []
  {
  }
}
