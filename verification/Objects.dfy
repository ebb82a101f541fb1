/**
  The state of a generated message object: presence bits, member storage and the
  cached size, with nested objects held by value. Abs is the message value the
  object stands for; Coherent is the invariant every operation keeps.
 */
module Objects {
  import opened Wire
  import opened Messages
  import opened HasBits

  /**
    The storage of one member: a scalar or string, a repeated scalar, or a
    submessage pointer (no element for NULL, one if allocated) or repeated
    submessage.
   */
  datatype Cell =
    | Scalar(v: Val)
    | Many(vs: seq<Val>)
    | Subs(os: seq<Obj>)

  datatype Obj = Obj(has: bv32, cells: seq<Cell>, cachedSize: nat)

  function Default(k: Kind): Val {
    match k
    case KBool(b) => Flag(b)
    case KFloat => Str([0, 0, 0, 0])
    case KBytes => Str([])
    case KMessage(sub) => Sub(Empty(sub))
    case _ => Num(0)
  }

  /** What SharedCtor leaves in a member. */
  function NewCell(f: Field): Cell {
    if f.kind.KMessage? then Subs([])
    else if f.rule.Repeated? then Many([])
    else Scalar(Default(f.kind))
  }

  function NewObj(sch: Schema): Obj {
    Obj(0, seq(|sch.fields|, i requires 0 <= i < |sch.fields| => NewCell(sch.fields[i])), 0)
  }

  predicate Sized32(sch: Schema, o: Obj) {
    |o.cells| == |sch.fields| <= 32
  }

  // ---------------------------------------------------------------- abstraction

  function Abs(sch: Schema, o: Obj): (m: Msg)
    requires Sized32(sch, o)
    ensures Shaped(sch, m)
    decreases sch, 1
  {
    Msg(seq(|sch.fields|, i requires 0 <= i < |sch.fields| => AbsCell(sch.fields[i], Has(o.has, i), o.cells[i])))
  }

  function AbsSub(sub: Schema, o: Obj): (m: Msg)
    ensures Shaped(sub, m)
    decreases sub, 2
  {
    if Sized32(sub, o) then Abs(sub, o) else Empty(sub)
  }

  /** An absent scalar or submessage has no value, whatever its storage holds. */
  function AbsCell(f: Field, present: bool, c: Cell): seq<Val>
    decreases f, 0
  {
    match c
    case Scalar(v) => if present then [v] else []
    case Many(vs) => vs
    case Subs(os) =>
      if !f.kind.KMessage? then []
      else if f.rule.Repeated? then seq(|os|, j requires 0 <= j < |os| => Sub(AbsSub(f.kind.sub, os[j])))
      else if !present then []
      else if os == [] then [Sub(Empty(f.kind.sub))]
      else [Sub(AbsSub(f.kind.sub, os[0]))]
  }

  // ---------------------------------------------------------------- the presence invariant

  ghost predicate Coherent(sch: Schema, o: Obj)
    decreases sch, 1
  {
    && Sized32(sch, o)
    && forall i :: 0 <= i < |sch.fields| ==> CellCoherent(sch.fields[i], Has(o.has, i), o.cells[i])
  }

  /**
    An absent scalar holds its default; an absent submessage is NULL or empty; a
    present one is allocated; repeated members have no presence bit.
   */
  ghost predicate CellCoherent(f: Field, present: bool, c: Cell)
    decreases f, 0
  {
    if f.kind.KMessage? then
      && c.Subs?
      && (forall j :: 0 <= j < |c.os| ==> Coherent(f.kind.sub, c.os[j]))
      && (if f.rule.Repeated? then !present
          else |c.os| <= 1 && (present ==> c.os != [])
               && (!present && c.os != [] ==> Abs(f.kind.sub, c.os[0]) == Empty(f.kind.sub)))
    else if f.rule.Repeated? then
      !present && c.Many? && forall j :: 0 <= j < |c.vs| ==> Typed(f.kind, c.vs[j])
    else
      c.Scalar? && Typed(f.kind, c.v) && (!present ==> c.v == Default(f.kind))
  }

  lemma DefaultTyped(f: Field)
    requires ValidField(f)
    ensures Typed(f.kind, Default(f.kind))
  {
    if f.kind.KMessage? { EmptyTyped(f.kind.sub); }
  }

  lemma NewCellCoherent(f: Field)
    requires ValidField(f)
    ensures CellCoherent(f, false, NewCell(f)) && AbsCell(f, false, NewCell(f)) == []
  {
    DefaultTyped(f);
  }

  lemma NewObjCoherent(sch: Schema)
    requires ValidSchema(sch)
    ensures Coherent(sch, NewObj(sch)) && Abs(sch, NewObj(sch)) == Empty(sch)
  {
    forall i | 0 <= i < |sch.fields|
      ensures !Has(0, i) && CellCoherent(sch.fields[i], false, NewCell(sch.fields[i]))
      ensures Abs(sch, NewObj(sch)).slots[i] == []
    {
      NoBits(i);
      NewCellCoherent(sch.fields[i]);
    }
    assert Abs(sch, NewObj(sch)).slots == Empty(sch).slots;
  }

  /** The value of a coherent object is well typed. */
  lemma {:induction false} CoherentTyped(sch: Schema, o: Obj)
    requires Coherent(sch, o)
    ensures WellTyped(sch, Abs(sch, o))
    decreases sch, 1
  {
    forall i | 0 <= i < |sch.fields| ensures SlotTyped(sch.fields[i], Abs(sch, o).slots[i]) {
      CellTyped(sch.fields[i], Has(o.has, i), o.cells[i]);
    }
  }

  lemma {:induction false} CellTyped(f: Field, present: bool, c: Cell)
    requires CellCoherent(f, present, c)
    ensures SlotTyped(f, AbsCell(f, present, c))
    decreases f, 0
  {
    if f.kind.KMessage? {
      EmptyTyped(f.kind.sub);
      forall j | 0 <= j < |c.os| ensures WellTyped(f.kind.sub, AbsSub(f.kind.sub, c.os[j])) {
        CoherentTyped(f.kind.sub, c.os[j]);
      }
    }
  }

  // ---------------------------------------------------------------- mask groups

  predicate Singular(sch: Schema, i: nat)
    requires i < |sch.fields|
  {
    !sch.fields[i].rule.Repeated?
  }

  /**
    The groups of a generated class: every singular field is tested under exactly
    one mask, whose eight bits from start on include its own.
   */
  ghost predicate ValidGroups(sch: Schema)
    decreases sch
  {
    && (forall g :: 0 <= g < |sch.groups| ==> ValidGroup(sch, sch.groups[g]))
    && (forall g :: 0 <= g < |sch.groups| - 1 ==> GroupsAscend(sch.groups[g], sch.groups[g + 1]))
    && (forall i :: 0 <= i < |sch.fields| && Singular(sch, i) ==> Covered(sch.groups, i))
    && (forall i :: 0 <= i < |sch.fields| && sch.fields[i].kind.KMessage? ==> ValidGroups(sch.fields[i].kind.sub))
  }

  ghost predicate ValidGroup(sch: Schema, g: MaskGroup) {
    && g.start < 32
    && (forall k :: 0 <= k < |g.members| ==>
          g.start <= g.members[k] < g.start + 8 && g.members[k] < |sch.fields| && Singular(sch, g.members[k]))
    && (forall k, l :: 0 <= k < l < |g.members| ==> g.members[k] < g.members[l])
  }

  ghost predicate GroupsAscend(g: MaskGroup, h: MaskGroup) {
    g.start <= h.start && forall k :: 0 <= k < |g.members| ==> g.members[k] < h.start
  }

  ghost predicate Covered(gs: seq<MaskGroup>, i: nat) {
    exists g :: 0 <= g < |gs| && i in gs[g].members
  }

  // ---------------------------------------------------------------- cached sizes

  /** Every cached size, at every depth, is the length its message serializes to. */
  ghost predicate CachesRight(sch: Schema, o: Obj)
    decreases sch, 1
  {
    && Sized32(sch, o)
    && o.cachedSize == |Serialize(sch, Abs(sch, o))|
    && forall i :: 0 <= i < |sch.fields| ==> CellCachesRight(sch.fields[i], Has(o.has, i), o.cells[i])
  }

  ghost predicate CellCachesRight(f: Field, present: bool, c: Cell)
    decreases f, 0
  {
    c.Subs? && f.kind.KMessage? && (present || f.rule.Repeated?) ==>
      forall j :: 0 <= j < |c.os| ==> CachesRight(f.kind.sub, c.os[j])
  }

  /** The bytes SerializeWithCachedSizes writes: nested lengths come from the caches. */
  function CachedBytes(sch: Schema, o: Obj): Bytes
    requires Sized32(sch, o)
    decreases sch, 2
  {
    CachedBytesFrom(sch, o, 0)
  }

  function CachedBytesFrom(sch: Schema, o: Obj, i: nat): Bytes
    requires Sized32(sch, o) && i <= |sch.fields|
    decreases sch, 1, |sch.fields| - i
  {
    if i == |sch.fields| then []
    else CachedCellBytes(sch.fields[i], Has(o.has, i), o.cells[i]) + CachedBytesFrom(sch, o, i + 1)
  }

  function CachedCellBytes(f: Field, present: bool, c: Cell): Bytes
    decreases f, 1
  {
    match c
    case Scalar(v) => if present then Join(SlotRecords(f, [v])) else []
    case Many(vs) => Join(SlotRecords(f, vs))
    case Subs(os) =>
      if !f.kind.KMessage? || (!present && !f.rule.Repeated?) then []
      else if os == [] && !f.rule.Repeated? then EncodeVarint(Tag(f.num, DELIMITED)) + EncodeVarint(0)
      else CachedSubBytes(f, os)
  }

  function CachedSubBytes(f: Field, os: seq<Obj>): Bytes
    requires f.kind.KMessage?
    decreases f, 0, |os|
  {
    if os == [] then []
    else EncodeVarint(Tag(f.num, DELIMITED)) + EncodeVarint(os[0].cachedSize)
         + (if Sized32(f.kind.sub, os[0]) then CachedBytes(f.kind.sub, os[0]) else [])
         + CachedSubBytes(f, os[1..])
  }

  lemma CachedSubStep(f: Field, os: seq<Obj>, before: Bytes)
    requires f.kind.KMessage? && os != [] && Sized32(f.kind.sub, os[0])
    ensures before + CachedSubBytes(f, os)
         == before + EncodeVarint(Tag(f.num, DELIMITED)) + EncodeVarint(os[0].cachedSize)
            + CachedBytes(f.kind.sub, os[0]) + CachedSubBytes(f, os[1..])
  {
    var a, b, c, d := EncodeVarint(Tag(f.num, DELIMITED)), EncodeVarint(os[0].cachedSize),
                      CachedBytes(f.kind.sub, os[0]), CachedSubBytes(f, os[1..]);
    assert before + (a + b + c + d) == before + a + b + c + d;
  }

  lemma {:induction false} RightCachesSerialize(sch: Schema, o: Obj)
    requires Coherent(sch, o) && CachesRight(sch, o)
    ensures CachedBytes(sch, o) == Serialize(sch, Abs(sch, o))
    decreases sch, 2
  {
    RightCachesSerializeFrom(sch, o, 0);
  }

  lemma {:induction false} RightCachesSerializeFrom(sch: Schema, o: Obj, i: nat)
    requires Coherent(sch, o) && CachesRight(sch, o) && i <= |sch.fields|
    ensures CachedBytesFrom(sch, o, i) == Join(RecordsFrom(sch, Abs(sch, o), i))
    decreases sch, 1, |sch.fields| - i
  {
    if i < |sch.fields| {
      var m := Abs(sch, o);
      JoinConcat(SlotRecords(sch.fields[i], m.slots[i]), RecordsFrom(sch, m, i + 1));
      RightCachesSerializeCell(sch.fields[i], Has(o.has, i), o.cells[i]);
      RightCachesSerializeFrom(sch, o, i + 1);
    }
  }

  lemma {:induction false} RightCachesSerializeCell(f: Field, present: bool, c: Cell)
    requires CellCoherent(f, present, c) && CellCachesRight(f, present, c)
    ensures CachedCellBytes(f, present, c) == Join(SlotRecords(f, AbsCell(f, present, c)))
    decreases f, 1
  {
    if f.kind.KMessage? && (present || f.rule.Repeated?) {
      RightCachesSerializeSubs(f, c.os);
      assert AbsCell(f, present, c) == seq(|c.os|, j requires 0 <= j < |c.os| => Sub(AbsSub(f.kind.sub, c.os[j])));
    }
  }

  lemma {:induction false} RightCachesSerializeSubs(f: Field, os: seq<Obj>)
    requires f.kind.KMessage?
    requires forall j :: 0 <= j < |os| ==> Coherent(f.kind.sub, os[j]) && CachesRight(f.kind.sub, os[j])
    ensures CachedSubBytes(f, os)
         == Join(SlotRecords(f, seq(|os|, j requires 0 <= j < |os| => Sub(AbsSub(f.kind.sub, os[j])))))
    decreases f, 0, |os|
  {
    var vs := seq(|os|, j requires 0 <= j < |os| => Sub(AbsSub(f.kind.sub, os[j])));
    if os != [] {
      var rs := SlotRecords(f, vs);
      assert rs[1..] == SlotRecords(f, vs[1..]);
      assert vs[1..] == seq(|os[1..]|, j requires 0 <= j < |os[1..]| => Sub(AbsSub(f.kind.sub, os[1..][j])));
      RightCachesSerialize(f.kind.sub, os[0]);
      RightCachesSerializeSubs(f, os[1..]);
      var b := Serialize(f.kind.sub, Abs(f.kind.sub, os[0]));
      assert vs[0] == Sub(Abs(f.kind.sub, os[0])) && SubOf(f.kind.sub, [vs[0]]) == vs[0].m;
      assert ValPayload(f.kind, vs[0]) == Delimited(b);
      var more := Join(rs[1..]);
      assert EncodeRecord(rs[0]) == EncodeVarint(Tag(f.num, DELIMITED)) + (EncodeVarint(|b|) + b);
      assert EncodeVarint(Tag(f.num, DELIMITED)) + (EncodeVarint(|b|) + b) + more
          == EncodeVarint(Tag(f.num, DELIMITED)) + EncodeVarint(|b|) + b + more;
    }
  }
}
