/**
  What the generated member functions do to an object's state, one member at a
  time, and what each does to the value the object stands for.
 */
module ObjectOps {
  import opened Messages
  import opened HasBits
  import opened Objects
  import opened Sizes
  import opened RoundTrip

  function Put(o: Obj, i: nat, h: bv32, c: Cell): Obj
    requires i < |o.cells|
  {
    Obj(h, o.cells[i := c], o.cachedSize)
  }

  /** Changing one member and its presence bit changes one slot of the value. */
  lemma PutCell(sch: Schema, o: Obj, i: nat, h: bv32, c: Cell)
    requires Coherent(sch, o) && i < |sch.fields|
    requires forall j: Index :: j != i ==> (Has(h, j) <==> Has(o.has, j))
    requires CellCoherent(sch.fields[i], Has(h, i), c)
    ensures Coherent(sch, Put(o, i, h, c))
    ensures Abs(sch, Put(o, i, h, c)) == Msg(Abs(sch, o).slots[i := AbsCell(sch.fields[i], Has(h, i), c)])
  {
    var o' := Put(o, i, h, c);
    var x := AbsCell(sch.fields[i], Has(h, i), c);
    forall j | 0 <= j < |sch.fields|
      ensures CellCoherent(sch.fields[j], Has(o'.has, j), o'.cells[j])
      ensures Abs(sch, o').slots[j] == Abs(sch, o).slots[i := x][j]
    {
      if j != i {
        assert Has(h, j) == Has(o.has, j);
        assert CellCoherent(sch.fields[j], Has(o.has, j), o.cells[j]);
      }
    }
    assert Abs(sch, o').slots == Abs(sch, o).slots[i := x];
  }

  /** set_x() for a number, bool, enum, float or string. */
  function PutScalar(o: Obj, i: Index, v: Val): Obj
    requires i < |o.cells|
  {
    Put(o, i, Set(o.has, i), Scalar(v))
  }

  lemma PutScalarEffect(sch: Schema, o: Obj, i: Index, v: Val)
    requires Coherent(sch, o) && i < |sch.fields|
    requires !sch.fields[i].kind.KMessage? && !sch.fields[i].rule.Repeated? && Typed(sch.fields[i].kind, v)
    ensures Coherent(sch, PutScalar(o, i, v))
    ensures Abs(sch, PutScalar(o, i, v)) == Msg(Abs(sch, o).slots[i := [v]])
  {
    PutCell(sch, o, i, Set(o.has, i), Scalar(v));
  }

  /** add_x() for repeated numbers or strings. */
  function AddScalars(o: Obj, i: Index, vs: seq<Val>): Obj
    requires i < |o.cells| && o.cells[i].Many?
  {
    Put(o, i, o.has, Many(o.cells[i].vs + vs))
  }

  lemma AddScalarsEffect(sch: Schema, o: Obj, i: Index, vs: seq<Val>)
    requires Coherent(sch, o) && i < |sch.fields|
    requires !sch.fields[i].kind.KMessage? && sch.fields[i].rule.Repeated?
    requires forall j :: 0 <= j < |vs| ==> Typed(sch.fields[i].kind, vs[j])
    ensures o.cells[i].Many?
    ensures Coherent(sch, AddScalars(o, i, vs))
    ensures Abs(sch, AddScalars(o, i, vs)) == Msg(Abs(sch, o).slots[i := Abs(sch, o).slots[i] + vs])
  {
    assert CellCoherent(sch.fields[i], Has(o.has, i), o.cells[i]);
    PutCell(sch, o, i, o.has, Many(o.cells[i].vs + vs));
  }

  /** mutable_x(): marks the submessage present and allocates it if it is NULL; add_x(): appends a fresh one. */
  function MutableSub(f: Field, o: Obj, i: Index): Obj
    requires SubMember(f) && i < |o.cells| && o.cells[i].Subs?
  {
    var os := o.cells[i].os;
    if f.rule.Repeated? then Put(o, i, o.has, Subs(os + [NewObj(f.kind.sub)]))
    else Put(o, i, Set(o.has, i), Subs(if os == [] then [NewObj(f.kind.sub)] else os))
  }

  /** The submessage that mutable_x() or add_x() returns. */
  function LastSub(o: Obj, i: Index): Obj
    requires i < |o.cells| && o.cells[i].Subs? && o.cells[i].os != []
  {
    o.cells[i].os[|o.cells[i].os| - 1]
  }

  /** The object after the submessage last returned has become s. */
  function StoreSub(o: Obj, i: Index, s: Obj): Obj
    requires i < |o.cells| && o.cells[i].Subs? && o.cells[i].os != []
  {
    Put(o, i, o.has, Subs(o.cells[i].os[|o.cells[i].os| - 1 := s]))
  }

  lemma MutableSubCell(f: Field, o: Obj, i: Index)
    requires SubMember(f) && ValidField(f) && i < |o.cells| && CellCoherent(f, Has(o.has, i), o.cells[i])
    ensures var o', x := MutableSub(f, o, i), AbsCell(f, Has(o.has, i), o.cells[i]);
            && o'.cells[i].os != [] && CellCoherent(f, Has(o'.has, i), o'.cells[i])
            && Coherent(f.kind.sub, LastSub(o', i)) && Abs(f.kind.sub, LastSub(o', i)) == SlotBase(f, x)
            && AbsCell(f, Has(o'.has, i), o'.cells[i]) == Kept(f, x) + [Sub(SlotBase(f, x))]
            && (f.rule.Repeated? || Has(o'.has, i))
  {
    NewObjCoherent(f.kind.sub);
    var o', x := MutableSub(f, o, i), AbsCell(f, Has(o.has, i), o.cells[i]);
    if f.rule.Repeated? {
      assert AbsCell(f, false, o'.cells[i]) == x + [Sub(Empty(f.kind.sub))];
    } else {
      assert AbsCell(f, true, o'.cells[i]) == [] + [Sub(SlotBase(f, x))];
    }
  }

  lemma MutableSubEffect(sch: Schema, o: Obj, i: Index)
    requires Coherent(sch, o) && i < |sch.fields| && SubMember(sch.fields[i]) && ValidField(sch.fields[i])
    ensures o.cells[i].Subs?
    ensures var f, o', x := sch.fields[i], MutableSub(sch.fields[i], o, i), Abs(sch, o).slots[i];
            && Coherent(sch, o') && o'.cells[i].os != []
            && Coherent(f.kind.sub, LastSub(o', i)) && Abs(f.kind.sub, LastSub(o', i)) == SlotBase(f, x)
            && Abs(sch, o') == Msg(Abs(sch, o).slots[i := Kept(f, x) + [Sub(SlotBase(f, x))]])
            && (f.rule.Repeated? || Has(o'.has, i))
  {
    var f := sch.fields[i];
    assert CellCoherent(f, Has(o.has, i), o.cells[i]);
    MutableSubCell(f, o, i);
    var o' := MutableSub(f, o, i);
    PutCell(sch, o, i, o'.has, o'.cells[i]);
  }

  lemma StoreSubCell(f: Field, present: bool, os: seq<Obj>, s: Obj)
    requires SubMember(f) && CellCoherent(f, present, Subs(os)) && os != [] && (f.rule.Repeated? || present)
    requires Coherent(f.kind.sub, s)
    ensures CellCoherent(f, present, Subs(os[|os| - 1 := s]))
    ensures var x := AbsCell(f, present, Subs(os));
            |x| == |os| && AbsCell(f, present, Subs(os[|os| - 1 := s])) == x[..|x| - 1] + [Sub(Abs(f.kind.sub, s))]
  {
    var os' := os[|os| - 1 := s];
    forall j | 0 <= j < |os'| ensures Coherent(f.kind.sub, os'[j]) {
    }
    var x, y := AbsCell(f, present, Subs(os)), AbsCell(f, present, Subs(os'));
    assert |x| == |os| && |y| == |os|;
    forall j | 0 <= j < |os| - 1 ensures y[j] == x[j] {
    }
    assert os'[|os| - 1] == s && AbsSub(f.kind.sub, s) == Abs(f.kind.sub, s);
    assert y[|os| - 1] == Sub(AbsSub(f.kind.sub, os'[|os| - 1]));
    assert y == x[..|x| - 1] + [Sub(Abs(f.kind.sub, s))];
  }

  lemma StoreSubEffect(sch: Schema, o: Obj, i: Index, s: Obj)
    requires Coherent(sch, o) && i < |sch.fields| && SubMember(sch.fields[i])
    requires sch.fields[i].rule.Repeated? || Has(o.has, i)
    requires o.cells[i].Subs? && o.cells[i].os != [] && Coherent(sch.fields[i].kind.sub, s)
    ensures Coherent(sch, StoreSub(o, i, s))
    ensures |Abs(sch, o).slots[i]| == |o.cells[i].os|
    ensures var x := Abs(sch, o).slots[i];
            Abs(sch, StoreSub(o, i, s))
              == Msg(Abs(sch, o).slots[i := x[..|x| - 1] + [Sub(Abs(sch.fields[i].kind.sub, s))]])
  {
    StoreSubCell(sch.fields[i], Has(o.has, i), o.cells[i].os, s);
    PutCell(sch, o, i, o.has, StoreSub(o, i, s).cells[i]);
  }

  lemma UpdateTwice<T>(s: seq<T>, i: nat, a: T, b: T)
    requires i < |s|
    ensures s[i := a][i := b] == s[i := b]
  {
  }

  lemma ButLast<T>(kept: seq<T>, a: T)
    ensures (kept + [a])[..|kept + [a]| - 1] == kept
  {
  }

  /** mutable_x() or add_x(), then a change of the submessage to s: one slot, with its last element replaced. */
  lemma MutateSubEffect(sch: Schema, o: Obj, i: Index, s: Obj)
    requires Coherent(sch, o) && i < |sch.fields| && SubMember(sch.fields[i]) && ValidField(sch.fields[i])
    requires Coherent(sch.fields[i].kind.sub, s)
    ensures o.cells[i].Subs? && MutableSub(sch.fields[i], o, i).cells[i].os != []
    ensures var f, o' := sch.fields[i], StoreSub(MutableSub(sch.fields[i], o, i), i, s);
            && Coherent(sch, o')
            && Abs(sch, o') == Msg(Abs(sch, o).slots[i := Kept(f, Abs(sch, o).slots[i]) + [Sub(Abs(f.kind.sub, s))]])
  {
    var f, slots := sch.fields[i], Abs(sch, o).slots;
    MutableSubEffect(sch, o, i);
    StoreSubEffect(sch, MutableSub(f, o, i), i, s);
    var kept := Kept(f, slots[i]);
    ButLast(kept, Sub(SlotBase(f, slots[i])));
    UpdateTwice(slots, i, kept + [Sub(SlotBase(f, slots[i]))], kept + [Sub(Abs(f.kind.sub, s))]);
  }

  /** The slot of a present or repeated submessage member, element by element. */
  lemma SubSlot(sch: Schema, o: Obj, i: Index)
    requires Coherent(sch, o) && i < |sch.fields| && SubMember(sch.fields[i])
    requires sch.fields[i].rule.Repeated? || Has(o.has, i)
    ensures o.cells[i].Subs? && |Abs(sch, o).slots[i]| == |o.cells[i].os|
    ensures forall j :: 0 <= j < |o.cells[i].os| ==>
              Coherent(sch.fields[i].kind.sub, o.cells[i].os[j])
              && Abs(sch, o).slots[i][j] == Sub(Abs(sch.fields[i].kind.sub, o.cells[i].os[j]))
  {
    var f := sch.fields[i];
    assert CellCoherent(f, Has(o.has, i), o.cells[i]);
    assert Abs(sch, o).slots[i] == AbsCell(f, Has(o.has, i), o.cells[i]);
    forall j | 0 <= j < |o.cells[i].os|
      ensures Coherent(f.kind.sub, o.cells[i].os[j])
      ensures Abs(sch, o).slots[i][j] == Sub(Abs(f.kind.sub, o.cells[i].os[j]))
    {
      assert AbsSub(f.kind.sub, o.cells[i].os[j]) == Abs(f.kind.sub, o.cells[i].os[j]);
    }
  }

  /** What a singular submessage member points to is what its slot stands for; NULL means absent. */
  lemma HeldSub(sch: Schema, o: Obj, i: Index)
    requires Coherent(sch, o) && i < |sch.fields| && SubMember(sch.fields[i]) && Singular(sch, i)
    ensures var sub, x := sch.fields[i].kind.sub, Abs(sch, o).slots[i];
            && o.cells[i].Subs?
            && (o.cells[i].os == [] ==> x == [])
            && (o.cells[i].os != [] ==> Coherent(sub, o.cells[i].os[0]) && Abs(sub, o.cells[i].os[0]) == SubOf(sub, x))
  {
    assert CellCoherent(sch.fields[i], Has(o.has, i), o.cells[i]);
    assert Abs(sch, o).slots[i] == AbsCell(sch.fields[i], Has(o.has, i), o.cells[i]);
  }

  /** add_x()->MergeFrom(y) for one more element y[j] of a repeated submessage. */
  lemma AppendOne<T>(slots: seq<seq<T>>, i: nat, y: seq<T>, j: nat)
    requires i < |slots| && j < |y|
    ensures slots[i := slots[i] + y[..j]][i := (slots[i] + y[..j]) + [y[j]]] == slots[i := slots[i] + y[..j + 1]]
  {
    assert slots[i] + y[..j + 1] == (slots[i] + y[..j]) + [y[j]];
  }

  lemma ScalarSlot(sch: Schema, o: Obj, i: Index)
    requires Coherent(sch, o) && i < |sch.fields| && !SubMember(sch.fields[i])
    ensures !Singular(sch, i) ==> o.cells[i].Many? && Abs(sch, o).slots[i] == o.cells[i].vs
    ensures Singular(sch, i) ==>
              o.cells[i].Scalar? && Abs(sch, o).slots[i] == if Has(o.has, i) then [o.cells[i].v] else []
    ensures forall j :: 0 <= j < |Abs(sch, o).slots[i]| ==> Typed(sch.fields[i].kind, Abs(sch, o).slots[i][j])
  {
    assert CellCoherent(sch.fields[i], Has(o.has, i), o.cells[i]);
    assert Abs(sch, o).slots[i] == AbsCell(sch.fields[i], Has(o.has, i), o.cells[i]);
  }

  lemma MergeSlotSub(f: Field, x: seq<Val>, y: seq<Val>)
    requires SubMember(f) && !f.rule.Repeated? && |y| == 1 && y[0].Sub? && Shaped(f.kind.sub, y[0].m)
    ensures MergeSlot(f, x, y) == Kept(f, x) + [Sub(Merge(f.kind.sub, SlotBase(f, x), y[0].m))]
  {
    assert [] + [Sub(Merge(f.kind.sub, SlotBase(f, x), y[0].m))] == [Sub(Merge(f.kind.sub, SlotBase(f, x), y[0].m))];
  }

  // ---------------------------------------------------------------- clearing

  /** Storage that is right for an absent member: the default, NULL, or an empty submessage. */
  ghost predicate Blank(f: Field, c: Cell) {
    CellCoherent(f, false, c)
  }

  lemma BlankNewCell(f: Field)
    requires ValidField(f)
    ensures Blank(f, NewCell(f))
  {
    NewCellCoherent(f);
  }

  /** Blank storage may stand in a member whether or not its bit is set, if what must be allocated is. */
  lemma PutBlank(sch: Schema, o: Obj, i: Index, c: Cell)
    requires Coherent(sch, o) && i < |sch.fields| && Blank(sch.fields[i], c)
    requires SubMember(sch.fields[i]) && !sch.fields[i].rule.Repeated? && Has(o.has, i) ==> c.Subs? && c.os != []
    requires sch.fields[i].rule.Repeated? ==> !Has(o.has, i)
    ensures Coherent(sch, Put(o, i, o.has, c))
    ensures Abs(sch, Put(o, i, o.has, c)) == Msg(Abs(sch, o).slots[i := AbsCell(sch.fields[i], Has(o.has, i), c)])
  {
    PutCell(sch, o, i, o.has, c);
  }

  /** Dropping the bit of a member whose storage is blank. */
  function PutAbsent(o: Obj, i: Index, c: Cell): Obj
    requires i < |o.cells|
  {
    Put(o, i, Unset(o.has, i), c)
  }

  lemma PutAbsentEffect(sch: Schema, o: Obj, i: Index, c: Cell)
    requires Coherent(sch, o) && i < |sch.fields| && Blank(sch.fields[i], c)
    requires !Singular(sch, i) ==> c == NewCell(sch.fields[i])
    ensures Coherent(sch, PutAbsent(o, i, c))
    ensures Abs(sch, PutAbsent(o, i, c)) == Msg(Abs(sch, o).slots[i := []])
  {
    var h := Unset(o.has, i);
    assert !Has(h, i);
    PutCell(sch, o, i, h, c);
    assert AbsCell(sch.fields[i], false, c) == [];
  }

  ghost predicate GroupBlank(sch: Schema, cells: seq<Cell>, g: MaskGroup)
    requires |cells| == |sch.fields| && ValidGroup(sch, g)
  {
    forall k :: 0 <= k < |g.members| ==> Blank(sch.fields[g.members[k]], cells[g.members[k]])
  }

  /** A group whose mask is missed has no member to clear. */
  lemma MissedGroupIsBlank(sch: Schema, o: Obj, g: MaskGroup)
    requires Coherent(sch, o) && ValidGroup(sch, g) && !GroupHit(o.has, g.start)
    ensures GroupBlank(sch, o.cells, g)
  {
    forall k | 0 <= k < |g.members| ensures Blank(sch.fields[g.members[k]], o.cells[g.members[k]]) {
      var i := g.members[k];
      assert CellCoherent(sch.fields[i], Has(o.has, i), o.cells[i]);
      if Has(o.has, i) {
        MemberHitsGroup(o.has, g.start, i);
      }
    }
  }

  lemma AllGroupsBlank(sch: Schema, cells: seq<Cell>, i: nat)
    requires ValidGroups(sch) && |cells| == |sch.fields| && i < |sch.fields| && Singular(sch, i)
    requires forall h :: 0 <= h < |sch.groups| ==> GroupBlank(sch, cells, sch.groups[h])
    ensures Blank(sch.fields[i], cells[i])
  {
    assert Covered(sch.groups, i);
    var h :| 0 <= h < |sch.groups| && i in sch.groups[h].members;
    var k :| 0 <= k < |sch.groups[h].members| && sch.groups[h].members[k] == i;
    assert GroupBlank(sch, cells, sch.groups[h]);
  }

  /** Dropping every bit of an object whose singular members are blank and repeated members empty makes it empty. */
  lemma AllBlankIsEmpty(sch: Schema, o: Obj)
    requires Sized32(sch, o) && o.has == 0
    requires forall i :: 0 <= i < |sch.fields| ==> Blank(sch.fields[i], o.cells[i])
    requires forall i :: 0 <= i < |sch.fields| && sch.fields[i].rule.Repeated? ==> o.cells[i] == NewCell(sch.fields[i])
    ensures Coherent(sch, o) && Abs(sch, o) == Empty(sch)
  {
    forall i | 0 <= i < |sch.fields|
      ensures CellCoherent(sch.fields[i], Has(o.has, i), o.cells[i]) && Abs(sch, o).slots[i] == []
    {
      NoBits(i);
      assert Blank(sch.fields[i], o.cells[i]);
    }
    assert Abs(sch, o).slots == Empty(sch).slots;
  }

  /** A scalar holds its default, a repeated member no elements, a submessage is NULL or an empty object. */
  ghost predicate HoldsDefault(f: Field, c: Cell) {
    if SubMember(f) && !f.rule.Repeated? then
      c.Subs? && forall j :: 0 <= j < |c.os| ==> AbsSub(f.kind.sub, c.os[j]) == Empty(f.kind.sub)
    else c == NewCell(f)
  }

  ghost predicate HoldsDefaults(sch: Schema, o: Obj) {
    && Sized32(sch, o)
    && forall i :: 0 <= i < |sch.fields| && Abs(sch, o).slots[i] == [] ==> HoldsDefault(sch.fields[i], o.cells[i])
  }

  /** The presence invariant means that every absent member holds its default. */
  lemma CoherentHoldsDefaults(sch: Schema, o: Obj)
    requires Coherent(sch, o)
    ensures HoldsDefaults(sch, o)
  {
    forall i | 0 <= i < |sch.fields| && Abs(sch, o).slots[i] == [] ensures HoldsDefault(sch.fields[i], o.cells[i]) {
      BlankSlot(sch.fields[i], Has(o.has, i), o.cells[i]);
    }
  }

  lemma BlankSlot(f: Field, present: bool, c: Cell)
    requires CellCoherent(f, present, c) && AbsCell(f, present, c) == []
    ensures HoldsDefault(f, c)
  {
    if SubMember(f) && f.rule.Repeated? {
      assert |AbsCell(f, present, c)| == |c.os|;
    }
  }

  // ---------------------------------------------------------------- visiting members group by group

  /** Each visited slot has been merged; the others are as they were. */
  ghost predicate MergedOn(sch: Schema, x: Msg, y: Msg, cur: Msg, done: set<nat>)
    requires Shaped(sch, x) && Shaped(sch, y) && Shaped(sch, cur)
  {
    forall i :: 0 <= i < |sch.fields| ==>
      cur.slots[i] == if i in done then MergeSlot(sch.fields[i], x.slots[i], y.slots[i]) else x.slots[i]
  }

  lemma MergedEverywhere(sch: Schema, x: Msg, y: Msg, cur: Msg, done: set<nat>)
    requires Shaped(sch, x) && Shaped(sch, y) && Shaped(sch, cur) && MergedOn(sch, x, y, cur, done)
    requires forall i :: 0 <= i < |sch.fields| ==> i in done
    ensures cur == Merge(sch, x, y)
  {
    assert cur.slots == Merge(sch, x, y).slots;
  }

  /** Before group g: all earlier groups are visited, and no member of g or a later group is. */
  ghost predicate VisitedBefore(sch: Schema, g: nat, done: set<nat>)
    requires ValidGroups(sch) && g <= |sch.groups|
  {
    && (forall h :: 0 <= h < g ==> GroupVisited(sch.groups[h], done))
    && (g < |sch.groups| ==> forall i :: i in done && i < |sch.fields| && Singular(sch, i) ==> i < sch.groups[g].start)
  }

  ghost predicate GroupVisited(g: MaskGroup, done: set<nat>) {
    forall k :: 0 <= k < |g.members| ==> g.members[k] in done
  }

  function Members(g: MaskGroup): set<nat> {
    set i | i in g.members
  }

  lemma VisitGroup(sch: Schema, g: nat, done: set<nat>)
    requires ValidGroups(sch) && g < |sch.groups| && VisitedBefore(sch, g, done)
    ensures VisitedBefore(sch, g + 1, done + Members(sch.groups[g]))
    ensures forall k :: 0 <= k < |sch.groups[g].members| ==> sch.groups[g].members[k] !in done
  {
    assert ValidGroup(sch, sch.groups[g]);
    if g + 1 < |sch.groups| {
      assert GroupsAscend(sch.groups[g], sch.groups[g + 1]);
    }
  }

  lemma AllVisited(sch: Schema, done: set<nat>)
    requires ValidGroups(sch) && VisitedBefore(sch, |sch.groups|, done)
    requires forall i :: 0 <= i < |sch.fields| && !Singular(sch, i) ==> i in done
    ensures forall i :: 0 <= i < |sch.fields| ==> i in done
  {
    forall i | 0 <= i < |sch.fields| ensures i in done {
      if Singular(sch, i) {
        assert Covered(sch.groups, i);
        var h :| 0 <= h < |sch.groups| && i in sch.groups[h].members;
        assert GroupVisited(sch.groups[h], done);
      }
    }
  }

  lemma AbsentSlot(sch: Schema, o: Obj, i: Index)
    requires Coherent(sch, o) && i < |sch.fields| && Singular(sch, i)
    ensures Has(o.has, i) <==> Abs(sch, o).slots[i] != []
  {
    assert CellCoherent(sch.fields[i], Has(o.has, i), o.cells[i]);
  }

  lemma MissedMember(sch: Schema, o: Obj, g: MaskGroup, k: nat)
    requires Coherent(sch, o) && ValidGroup(sch, g) && k < |g.members| && !GroupHit(o.has, g.start)
    ensures Abs(sch, o).slots[g.members[k]] == []
  {
    var i := g.members[k];
    AbsentSlot(sch, o, i);
    if Has(o.has, i) {
      MemberHitsGroup(o.has, g.start, i);
    }
  }

  lemma MissedGroupMembers(sch: Schema, o: Obj, g: MaskGroup)
    requires Coherent(sch, o) && ValidGroup(sch, g) && !GroupHit(o.has, g.start)
    ensures forall k :: 0 <= k < |g.members| ==> Abs(sch, o).slots[g.members[k]] == []
  {
    forall k | 0 <= k < |g.members| ensures Abs(sch, o).slots[g.members[k]] == [] {
      MissedMember(sch, o, g, k);
    }
  }

  // ---------------------------------------------------------------- sizes and required fields

  /** The size of a present or repeated scalar member. */
  lemma ScalarsTotal(sch: Schema, o: Obj, i: Index)
    requires Coherent(sch, o) && i < |sch.fields| && !SubMember(sch.fields[i])
    requires Has(o.has, i) || !Singular(sch, i)
    ensures var f, x := sch.fields[i], Abs(sch, o).slots[i];
            if f.rule.Repeated? then o.cells[i].Many? && x == o.cells[i].vs
            else o.cells[i].Scalar?
                 && TagSize(f.num) * |x| + DataSum(f.kind, x) == TagSize(f.num) + DataSize(f.kind, o.cells[i].v)
  {
    ScalarSlot(sch, o, i);
    if Singular(sch, i) {
      OneValueSize(sch.fields[i], Abs(sch, o).slots[i]);
    }
  }

  /** Changing only what a nested object has cached changes no value. */
  lemma SameSubEffect(sch: Schema, o: Obj, i: Index, j: nat, s: Obj)
    requires Coherent(sch, o) && i < |sch.fields| && SubMember(sch.fields[i])
    requires o.cells[i].Subs? && j < |o.cells[i].os| && (sch.fields[i].rule.Repeated? || Has(o.has, i))
    requires Coherent(sch.fields[i].kind.sub, s) && Coherent(sch.fields[i].kind.sub, o.cells[i].os[j])
    requires Abs(sch.fields[i].kind.sub, s) == Abs(sch.fields[i].kind.sub, o.cells[i].os[j])
    ensures Coherent(sch, Put(o, i, o.has, Subs(o.cells[i].os[j := s])))
    ensures Abs(sch, Put(o, i, o.has, Subs(o.cells[i].os[j := s]))) == Abs(sch, o)
  {
    var f, os := sch.fields[i], o.cells[i].os;
    assert CellCoherent(f, Has(o.has, i), o.cells[i]);
    var os' := os[j := s];
    forall k | 0 <= k < |os'|
      ensures Coherent(f.kind.sub, os'[k]) && AbsSub(f.kind.sub, os'[k]) == AbsSub(f.kind.sub, os[k])
    {
    }
    assert AbsCell(f, Has(o.has, i), Subs(os')) == AbsCell(f, Has(o.has, i), Subs(os));
    PutCell(sch, o, i, o.has, Subs(os'));
    assert Abs(sch, o).slots[i := Abs(sch, o).slots[i]] == Abs(sch, o).slots;
  }

  lemma {:induction false} SumVisitAll(ns: seq<nat>, done: set<nat>, ks: seq<nat>)
    requires forall k :: 0 <= k < |ks| ==> ks[k] < |ns| && ks[k] !in done && ns[ks[k]] == 0
    requires forall k, l :: 0 <= k < l < |ks| ==> ks[k] < ks[l]
    ensures SumFrom(ns, done + (set i | i in ks), 0) == SumFrom(ns, done, 0)
    decreases |ks|
  {
    if ks == [] {
      assert done + (set i | i in ks) == done;
    } else {
      var n := |ks| - 1;
      SumVisitAll(ns, done, ks[..n]);
      SumVisit(ns, done + (set i | i in ks[..n]), ks[n], 0);
      assert done + (set i | i in ks) == (done + (set i | i in ks[..n])) + {ks[n]};
    }
  }

  /** A group whose mask is missed adds nothing to the size. */
  lemma MissedGroupSizes(sch: Schema, o: Obj, g: MaskGroup, done: set<nat>)
    requires Coherent(sch, o) && ValidGroup(sch, g) && !GroupHit(o.has, g.start)
    requires forall k :: 0 <= k < |g.members| ==> g.members[k] !in done
    ensures SumFrom(SlotSizes(sch, Abs(sch, o)), done + Members(g), 0) == SumFrom(SlotSizes(sch, Abs(sch, o)), done, 0)
    ensures forall k :: 0 <= k < |g.members| ==>
              CellCachesRight(sch.fields[g.members[k]], Has(o.has, g.members[k]), o.cells[g.members[k]])
  {
    forall k | 0 <= k < |g.members|
      ensures SlotSizes(sch, Abs(sch, o))[g.members[k]] == 0 && !Has(o.has, g.members[k])
    {
      MissedMember(sch, o, g, k);
      AbsentSlot(sch, o, g.members[k]);
      assert SlotRecords(sch.fields[g.members[k]], []) == [];
    }
    SumVisitAll(SlotSizes(sch, Abs(sch, o)), done, g.members);
  }

  lemma SingularVisited(sch: Schema, done: set<nat>)
    requires ValidGroups(sch) && VisitedBefore(sch, |sch.groups|, done)
    ensures forall i :: 0 <= i < |sch.fields| && Singular(sch, i) ==> i in done
  {
    forall i | 0 <= i < |sch.fields| && Singular(sch, i) ensures i in done {
      assert Covered(sch.groups, i);
      var h :| 0 <= h < |sch.groups| && i in sch.groups[h].members;
      assert GroupVisited(sch.groups[h], done);
    }
  }

  ghost predicate SubsComplete(sub: Schema, x: seq<Val>) {
    forall j :: 0 <= j < |x| ==> Complete(sub, SubOf(sub, [x[j]]))
  }

  ghost predicate ObjectsComplete(sub: Schema, os: seq<Obj>) {
    forall j :: 0 <= j < |os| ==> Complete(sub, AbsSub(sub, os[j]))
  }

  /** A present or repeated submessage member is complete if its objects are. */
  lemma SubSlotComplete(sch: Schema, o: Obj, i: Index)
    requires Coherent(sch, o) && i < |sch.fields| && SubMember(sch.fields[i])
    requires sch.fields[i].rule.Repeated? || Has(o.has, i)
    ensures var sub, x := sch.fields[i].kind.sub, Abs(sch, o).slots[i];
            && o.cells[i].Subs? && (forall j :: 0 <= j < |o.cells[i].os| ==> Coherent(sub, o.cells[i].os[j]))
            && (SubsComplete(sub, x) <==> ObjectsComplete(sub, o.cells[i].os))
  {
    SubSlot(sch, o, i);
    var sub, x, os := sch.fields[i].kind.sub, Abs(sch, o).slots[i], o.cells[i].os;
    assert forall j :: 0 <= j < |os| ==> SubOf(sub, [x[j]]) == AbsSub(sub, os[j]);
  }

  /** Which members IsInitialized may pass over. */
  lemma AbsentOrComplete(sch: Schema, o: Obj, i: Index)
    requires Coherent(sch, o) && i < |sch.fields|
    ensures sch.fields[i].rule.Required? && !Has(o.has, i) ==> !SlotComplete(sch.fields[i], Abs(sch, o).slots[i])
    ensures Singular(sch, i) ==> (Has(o.has, i) <==> Abs(sch, o).slots[i] != [])
    ensures SubMember(sch.fields[i]) && !HasRequired(sch.fields[i].kind.sub) ==>
              forall j :: 0 <= j < |Abs(sch, o).slots[i]| ==>
                Complete(sch.fields[i].kind.sub, SubOf(sch.fields[i].kind.sub, [Abs(sch, o).slots[i][j]]))
  {
    if Singular(sch, i) {
      AbsentSlot(sch, o, i);
    }
    if SubMember(sch.fields[i]) && !HasRequired(sch.fields[i].kind.sub) {
      var sub := sch.fields[i].kind.sub;
      forall j | 0 <= j < |Abs(sch, o).slots[i]| ensures Complete(sub, SubOf(sub, [Abs(sch, o).slots[i][j]])) {
        NothingRequiredIsComplete(sub, SubOf(sub, [Abs(sch, o).slots[i][j]]));
      }
    }
  }
}
