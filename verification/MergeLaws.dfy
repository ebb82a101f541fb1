/**
  MergeFrom as an algebra: on well-typed messages of one schema it is
  associative and the empty message is its identity, at every nesting depth.
 */
module MergeLaws {
  import opened Messages

  lemma {:induction false} MergeTyped(sch: Schema, a: Msg, b: Msg)
    requires WellTyped(sch, a) && WellTyped(sch, b)
    ensures WellTyped(sch, Merge(sch, a, b))
    decreases sch, 1
  {
    forall i | 0 <= i < |sch.fields| ensures SlotTyped(sch.fields[i], Merge(sch, a, b).slots[i]) {
      MergeSlotTyped(sch.fields[i], a.slots[i], b.slots[i]);
    }
  }

  lemma SubTyped(sub: Schema, x: seq<Val>)
    requires x == [] || (x[0].Sub? && WellTyped(sub, x[0].m))
    ensures WellTyped(sub, SubOf(sub, x))
  {
    EmptyTyped(sub);
  }

  lemma {:induction false} MergeSlotTyped(f: Field, x: seq<Val>, y: seq<Val>)
    requires SlotTyped(f, x) && SlotTyped(f, y)
    ensures SlotTyped(f, MergeSlot(f, x, y))
    decreases f, 0
  {
    if f.kind.KMessage? && !f.rule.Repeated? && y != [] {
      var sub := f.kind.sub;
      assert Typed(f.kind, y[0]) && (x != [] ==> Typed(f.kind, x[0]));
      SubTyped(sub, x);
      SubTyped(sub, y);
      MergeTyped(sub, SubOf(sub, x), SubOf(sub, y));
    }
  }

  lemma {:induction false} MergeEmptyLeft(sch: Schema, b: Msg)
    requires WellTyped(sch, b)
    ensures Merge(sch, Empty(sch), b) == b
    decreases sch, 1
  {
    forall i | 0 <= i < |sch.fields| ensures Merge(sch, Empty(sch), b).slots[i] == b.slots[i] {
      MergeSlotEmptyLeft(sch.fields[i], b.slots[i]);
    }
    assert Merge(sch, Empty(sch), b).slots == b.slots;
  }

  lemma {:induction false} MergeSlotEmptyLeft(f: Field, y: seq<Val>)
    requires SlotTyped(f, y)
    ensures MergeSlot(f, [], y) == y
    decreases f, 0
  {
    if f.kind.KMessage? && !f.rule.Repeated? && y != [] {
      assert Typed(f.kind, y[0]);
      MergeEmptyLeft(f.kind.sub, y[0].m);
    }
  }

  lemma MergeEmptyRight(sch: Schema, a: Msg)
    requires WellTyped(sch, a)
    ensures Merge(sch, a, Empty(sch)) == a
  {
    var m := Merge(sch, a, Empty(sch));
    forall i | 0 <= i < |sch.fields| ensures m.slots[i] == a.slots[i] {
      var x := a.slots[i];
      assert x + [] == x;
      assert MergeSlot(sch.fields[i], x, []) == x;
    }
    assert m.slots == a.slots;
  }

  lemma {:induction false} MergeAssociative(sch: Schema, a: Msg, b: Msg, c: Msg)
    requires WellTyped(sch, a) && WellTyped(sch, b) && WellTyped(sch, c)
    ensures Merge(sch, a, Merge(sch, b, c)) == Merge(sch, Merge(sch, a, b), c)
    decreases sch, 1
  {
    var l, r := Merge(sch, a, Merge(sch, b, c)), Merge(sch, Merge(sch, a, b), c);
    forall i | 0 <= i < |sch.fields| ensures l.slots[i] == r.slots[i] {
      MergeSlotAssociative(sch.fields[i], a.slots[i], b.slots[i], c.slots[i]);
    }
    assert l.slots == r.slots;
  }

  lemma {:induction false} MergeSlotAssociative(f: Field, x: seq<Val>, y: seq<Val>, z: seq<Val>)
    requires SlotTyped(f, x) && SlotTyped(f, y) && SlotTyped(f, z)
    ensures MergeSlot(f, x, MergeSlot(f, y, z)) == MergeSlot(f, MergeSlot(f, x, y), z)
    decreases f, 0
  {
    if f.rule.Repeated? {
      assert x + (y + z) == (x + y) + z;
    } else if f.kind.KMessage? && z != [] {
      var sub := f.kind.sub;
      assert Typed(f.kind, z[0]) && (x != [] ==> Typed(f.kind, x[0])) && (y != [] ==> Typed(f.kind, y[0]));
      SubTyped(sub, x);
      SubTyped(sub, y);
      SubTyped(sub, z);
      if y == [] {
        MergeEmptyLeft(sub, z[0].m);
      } else {
        MergeAssociative(sub, SubOf(sub, x), SubOf(sub, y), SubOf(sub, z));
      }
    }
  }
}
