/**
  Laws of parsing: parsing into a message merges into it, the bytes of two
  messages one after the other parse to their merge, and a slot of the result
  depends only on the records of its own field, in their order.
 */
module ParseLaws {
  import opened Wire
  import opened Messages
  import opened MergeLaws

  // ---------------------------------------------------------------- types are kept

  lemma DecodeVarintTyped(f: Field, v: nat)
    requires ValidField(f) && NaturalWireType(f.kind) == VARINT
    ensures |DecodeVarint(f.kind, v)| <= 1
    ensures forall j :: 0 <= j < |DecodeVarint(f.kind, v)| ==> Typed(f.kind, DecodeVarint(f.kind, v)[j])
  {
  }

  lemma {:induction false} DecodePackedTyped(f: Field, s: Bytes)
    requires ValidField(f) && Packable(f) && DecodePacked(f.kind, s).Some?
    ensures forall j :: 0 <= j < |DecodePacked(f.kind, s).value| ==> Typed(f.kind, DecodePacked(f.kind, s).value[j])
    decreases |s|
  {
    if s != [] {
      var g := ReadVarint(s, MAX_VARINT);
      DecodeVarintTyped(f, g.value);
      DecodePackedTyped(f, g.rest);
    }
  }

  ghost predicate ValidWidths(p: Payload) {
    p.Fixed32? ==> |p.b| == 4
  }

  lemma {:induction false} ApplySlotTyped(f: Field, x: seq<Val>, p: Payload)
    requires ValidField(f) && SlotTyped(f, x) && WireMatches(f, WireType(p)) && ValidWidths(p)
    requires ApplySlot(f, x, p).Some?
    ensures SlotTyped(f, ApplySlot(f, x, p).value)
    decreases f, 0
  {
    if f.kind.KMessage? {
      var sub := f.kind.sub;
      var base := if f.rule.Repeated? then Empty(sub) else SubOf(sub, x);
      assert x != [] ==> Typed(f.kind, x[0]);
      EmptyTyped(sub);
      ParseIntoTyped(sub, base, p.b);
    } else if Packable(f) && p.Delimited? {
      DecodePackedTyped(f, p.b);
    } else if NaturalWireType(f.kind) == VARINT {
      DecodeVarintTyped(f, p.v);
    }
  }

  lemma {:induction false} ParseIntoTyped(sch: Schema, m: Msg, s: Bytes)
    requires ValidSchema(sch) && WellTyped(sch, m) && ParseInto(sch, m, s).Some?
    ensures WellTyped(sch, ParseInto(sch, m, s).value)
    decreases sch, 3
  {
    SplitWidths(s);
    FoldTyped(sch, m, Split(s).value);
  }

  lemma {:induction false} SplitWidths(s: Bytes)
    requires Split(s).Some?
    ensures forall r :: r in Split(s).value ==> ValidWidths(r.payload)
    decreases |s|
  {
    if s != [] {
      SplitWidths(Next(s).rest);
    }
  }

  lemma ApplyTyped(sch: Schema, m: Msg, r: Record)
    requires ValidSchema(sch) && WellTyped(sch, m) && ValidWidths(r.payload) && Apply(sch, m, r).Some?
    ensures WellTyped(sch, Apply(sch, m, r).value)
    decreases sch, 1
  {
    var i := Target(sch, r.num, WireType(r.payload));
    if i < |sch.fields| {
      ApplySlotTyped(sch.fields[i], m.slots[i], r.payload);
    }
  }

  lemma {:induction false} FoldTyped(sch: Schema, m: Msg, rs: seq<Record>)
    requires ValidSchema(sch) && WellTyped(sch, m) && Fold(sch, m, rs).Some?
    requires forall r :: r in rs ==> ValidWidths(r.payload)
    ensures WellTyped(sch, Fold(sch, m, rs).value)
    decreases sch, 2, |rs|
  {
    if rs != [] {
      ApplyTyped(sch, m, rs[0]);
      FoldTyped(sch, Apply(sch, m, rs[0]).value, rs[1..]);
    }
  }

  // ---------------------------------------------------------------- parsing into a message merges into it

  function MapMerge(sch: Schema, m: Msg, o: Option<Msg>): (r: Option<Msg>)
    requires Shaped(sch, m) && (o.Some? ==> Shaped(sch, o.value))
    ensures r.Some? ==> Shaped(sch, r.value)
  {
    match o
    case None => None
    case Some(b) => Some(Merge(sch, m, b))
  }

  function MapMergeSlot(f: Field, x: seq<Val>, o: Option<seq<Val>>): Option<seq<Val>> {
    match o
    case None => None
    case Some(y) => Some(MergeSlot(f, x, y))
  }

  lemma {:induction false} ApplySlotIsMerge(f: Field, x: seq<Val>, p: Payload)
    requires ValidField(f) && SlotTyped(f, x) && WireMatches(f, WireType(p))
    ensures ApplySlot(f, x, p) == MapMergeSlot(f, x, ApplySlot(f, [], p))
    decreases f, 0
  {
    if f.kind.KMessage? {
      if !f.rule.Repeated? {
        assert x != [] ==> Typed(f.kind, x[0]);
        SubTyped(f.kind.sub, x);
        ParseIntoIsMerge(f.kind.sub, SubOf(f.kind.sub, x), p.b);
      } else if ApplySlot(f, x, p).Some? {
        var one := ApplySlot(f, [], p).value;
        assert ApplySlot(f, x, p).value == x + one;
      }
    } else if Packable(f) && p.Delimited? {
      var o := DecodePacked(f.kind, p.b);
      assert o.Some? ==> [] + o.value == o.value;
    } else if f.rule.Repeated? {
      assert [] + DecodeScalar(f.kind, p) == DecodeScalar(f.kind, p);
    }
  }

  lemma {:induction false} ApplyIsMerge(sch: Schema, m: Msg, r: Record)
    requires ValidSchema(sch) && WellTyped(sch, m)
    ensures Apply(sch, m, r) == MapMerge(sch, m, Apply(sch, Empty(sch), r))
    decreases sch, 1
  {
    var i := Target(sch, r.num, WireType(r.payload));
    if i == |sch.fields| {
      MergeEmptyRight(sch, m);
    } else {
      ApplySlotIsMerge(sch.fields[i], m.slots[i], r.payload);
      var o := ApplySlot(sch.fields[i], [], r.payload);
      if o.Some? {
        var d := Msg(Empty(sch).slots[i := o.value]);
        MergeEmptyRight(sch, m);
        forall j | 0 <= j < |sch.fields|
          ensures Merge(sch, m, d).slots[j] == Apply(sch, m, r).value.slots[j]
        {
          if j != i {
            assert Merge(sch, m, Empty(sch)).slots[j] == m.slots[j];
          }
        }
        assert Merge(sch, m, d).slots == Apply(sch, m, r).value.slots;
      }
    }
  }

  lemma {:induction false} FoldIsMerge(sch: Schema, m: Msg, rs: seq<Record>)
    requires ValidSchema(sch) && WellTyped(sch, m)
    requires forall r :: r in rs ==> ValidWidths(r.payload)
    ensures Fold(sch, m, rs) == MapMerge(sch, m, Fold(sch, Empty(sch), rs))
    decreases sch, 2, |rs|
  {
    EmptyTyped(sch);
    if rs == [] {
      MergeEmptyRight(sch, m);
    } else {
      var first := Apply(sch, Empty(sch), rs[0]);
      ApplyIsMerge(sch, m, rs[0]);
      if first.Some? {
        ApplyTyped(sch, Empty(sch), rs[0]);
        MergeTyped(sch, m, first.value);
        FoldIsMerge(sch, first.value, rs[1..]);
        FoldIsMerge(sch, Merge(sch, m, first.value), rs[1..]);
        var more := Fold(sch, Empty(sch), rs[1..]);
        if more.Some? {
          FoldTyped(sch, Empty(sch), rs[1..]);
          MergeAssociative(sch, m, first.value, more.value);
        }
      }
    }
  }

  /** Parsing into an existing message is parsing into an empty one and merging the result. */
  lemma {:induction false} ParseIntoIsMerge(sch: Schema, m: Msg, s: Bytes)
    requires ValidSchema(sch) && WellTyped(sch, m)
    ensures ParseInto(sch, m, s) == MapMerge(sch, m, Parse(sch, s))
    decreases sch, 3
  {
    if Split(s).Some? {
      SplitWidths(s);
      FoldIsMerge(sch, m, Split(s).value);
    }
  }

  lemma {:induction false} FoldConcat(sch: Schema, m: Msg, a: seq<Record>, b: seq<Record>)
    requires Shaped(sch, m)
    ensures Fold(sch, m, a + b) ==
            match Fold(sch, m, a) { case None => None case Some(m') => Fold(sch, m', b) }
    decreases |a|
  {
    if a == [] {
      assert a + b == b;
    } else {
      assert (a + b)[1..] == a[1..] + b;
      var first := Apply(sch, m, a[0]);
      if first.Some? {
        FoldConcat(sch, first.value, a[1..], b);
      }
    }
  }

  /**
    Concatenation is merge: if a parses, the input a followed by b parses exactly
    when b does, to the merge of the two.
   */
  lemma ParseConcatIsMerge(sch: Schema, a: Bytes, b: Bytes)
    requires ValidSchema(sch) && Parse(sch, a).Some?
    ensures Parse(sch, a + b) == MapMerge(sch, Parse(sch, a).value, Parse(sch, b))
  {
    SplitConcat(a, b);
    EmptyTyped(sch);
    ParseIntoTyped(sch, Empty(sch), a);
    ParseIntoIsMerge(sch, Parse(sch, a).value, b);
    if Split(b).Some? {
      FoldConcat(sch, Empty(sch), Split(a).value, Split(b).value);
    }
  }

  // ---------------------------------------------------------------- a slot sees only its own records

  lemma FieldIsItsTarget(sch: Schema, i: nat, wt: nat)
    requires ValidSchema(sch) && i < |sch.fields| && WireMatches(sch.fields[i], wt)
    ensures Target(sch, sch.fields[i].num, wt) == i
  {
    assert forall j :: 0 <= j < i ==> sch.fields[j].num < sch.fields[i].num;
  }

  /** The payloads, in order, of the records that the parser reads into field i. */
  function Relevant(sch: Schema, i: nat, rs: seq<Record>): (ps: seq<Payload>)
    requires i < |sch.fields|
    ensures forall j :: 0 <= j < |ps| ==> WireMatches(sch.fields[i], WireType(ps[j]))
  {
    if rs == [] then []
    else (if Target(sch, rs[0].num, WireType(rs[0].payload)) == i then [rs[0].payload] else [])
         + Relevant(sch, i, rs[1..])
  }

  function FoldSlot(f: Field, x: seq<Val>, ps: seq<Payload>): Option<seq<Val>>
    requires forall j :: 0 <= j < |ps| ==> WireMatches(f, WireType(ps[j]))
    decreases |ps|
  {
    if ps == [] then Some(x)
    else match ApplySlot(f, x, ps[0])
      case None => None
      case Some(x') => FoldSlot(f, x', ps[1..])
  }

  lemma RelevantStep(sch: Schema, i: nat, rs: seq<Record>)
    requires i < |sch.fields| && rs != []
    ensures Target(sch, rs[0].num, WireType(rs[0].payload)) == i ==>
              var ps := Relevant(sch, i, rs);
              ps != [] && ps[0] == rs[0].payload && ps[1..] == Relevant(sch, i, rs[1..])
    ensures Target(sch, rs[0].num, WireType(rs[0].payload)) != i ==>
              Relevant(sch, i, rs) == Relevant(sch, i, rs[1..])
  {
  }

  /**
    Parsing succeeds exactly when every field can read its own records, and then
    each slot holds what its own records, in their order, make of it.
   */
  lemma {:induction false} FoldBySlots(sch: Schema, m: Msg, rs: seq<Record>)
    requires Shaped(sch, m)
    ensures Fold(sch, m, rs).Some? <==>
            forall i :: 0 <= i < |sch.fields| ==> FoldSlot(sch.fields[i], m.slots[i], Relevant(sch, i, rs)).Some?
    ensures Fold(sch, m, rs).Some? ==>
            forall i :: 0 <= i < |sch.fields| ==>
              FoldSlot(sch.fields[i], m.slots[i], Relevant(sch, i, rs)) == Some(Fold(sch, m, rs).value.slots[i])
    decreases |rs|
  {
    if rs != [] {
      forall i | 0 <= i < |sch.fields| {
        RelevantStep(sch, i, rs);
      }
      var t := Target(sch, rs[0].num, WireType(rs[0].payload));
      var o := Apply(sch, m, rs[0]);
      if o.None? {
        assert FoldSlot(sch.fields[t], m.slots[t], Relevant(sch, t, rs)).None?;
      } else {
        FoldBySlots(sch, o.value, rs[1..]);
        forall i | 0 <= i < |sch.fields|
          ensures FoldSlot(sch.fields[i], m.slots[i], Relevant(sch, i, rs))
               == FoldSlot(sch.fields[i], o.value.slots[i], Relevant(sch, i, rs[1..]))
        {
        }
      }
    }
  }

  /**
    Order independence: two record sequences that give every known field the same
    payloads in the same order parse alike. Records of different fields may be
    interleaved in any way, and records that are skipped (unknown numbers, or a
    wire type the field does not take) may stand anywhere.
   */
  lemma OrderIndependence(sch: Schema, m: Msg, rs: seq<Record>, rs': seq<Record>)
    requires Shaped(sch, m)
    requires forall i :: 0 <= i < |sch.fields| ==> Relevant(sch, i, rs) == Relevant(sch, i, rs')
    ensures Fold(sch, m, rs) == Fold(sch, m, rs')
  {
    FoldBySlots(sch, m, rs);
    FoldBySlots(sch, m, rs');
    if Fold(sch, m, rs).Some? {
      var a, b := Fold(sch, m, rs).value, Fold(sch, m, rs').value;
      forall i | 0 <= i < |sch.fields| ensures a.slots[i] == b.slots[i] {
        assert Some(a.slots[i]) == Some(b.slots[i]);
      }
      assert a.slots == b.slots;
    }
  }

  lemma OrderIndependenceOfBytes(sch: Schema, rs: seq<Record>, rs': seq<Record>)
    requires ValidRecords(rs) && ValidRecords(rs')
    requires forall i :: 0 <= i < |sch.fields| ==> Relevant(sch, i, rs) == Relevant(sch, i, rs')
    ensures Parse(sch, Join(rs)) == Parse(sch, Join(rs'))
  {
    SplitJoin(rs);
    SplitJoin(rs');
    OrderIndependence(sch, Empty(sch), rs, rs');
  }

  /** The records of one number that the parser does not skip, in order. */
  function TakenFrom(sch: Schema, num: nat, rs: seq<Record>): seq<Record> {
    if rs == [] then []
    else (if rs[0].num == num && Target(sch, num, WireType(rs[0].payload)) < |sch.fields| then [rs[0]] else [])
         + TakenFrom(sch, num, rs[1..])
  }

  lemma {:induction false} RelevantIsTaken(sch: Schema, i: nat, rs: seq<Record>)
    requires i < |sch.fields|
    ensures Relevant(sch, i, rs) == Relevant(sch, i, TakenFrom(sch, sch.fields[i].num, rs))
  {
    if rs != [] {
      RelevantIsTaken(sch, i, rs[1..]);
      var num := sch.fields[i].num;
      var taken := TakenFrom(sch, num, rs);
      RelevantStep(sch, i, rs);
      if rs[0].num == num && Target(sch, num, WireType(rs[0].payload)) < |sch.fields| {
        assert taken[0] == rs[0] && taken[1..] == TakenFrom(sch, num, rs[1..]);
        RelevantStep(sch, i, taken);
        if Target(sch, num, WireType(rs[0].payload)) == i {
          var ps, qs := Relevant(sch, i, rs), Relevant(sch, i, taken);
          assert ps == [ps[0]] + ps[1..] && qs == [qs[0]] + qs[1..];
        }
      } else {
        assert taken == TakenFrom(sch, num, rs[1..]);
      }
    }
  }

  /**
    Permuting records while keeping the order within each field number, and putting
    records that are skipped between any two, leaves the parsed message unchanged.
   */
  lemma PermutingDoesNotShow(sch: Schema, rs: seq<Record>, rs': seq<Record>)
    requires ValidRecords(rs) && ValidRecords(rs')
    requires forall num: nat :: TakenFrom(sch, num, rs) == TakenFrom(sch, num, rs')
    ensures Parse(sch, Join(rs)) == Parse(sch, Join(rs'))
  {
    forall i | 0 <= i < |sch.fields| ensures Relevant(sch, i, rs) == Relevant(sch, i, rs') {
      RelevantIsTaken(sch, i, rs);
      RelevantIsTaken(sch, i, rs');
    }
    OrderIndependenceOfBytes(sch, rs, rs');
  }

  /** A record that no field takes may be put anywhere without changing the result. */
  lemma {:induction false} SkippedRecord(sch: Schema, m: Msg, a: seq<Record>, r: Record, b: seq<Record>)
    requires Shaped(sch, m)
    requires Target(sch, r.num, WireType(r.payload)) == |sch.fields|
    ensures Fold(sch, m, a + [r] + b) == Fold(sch, m, a + b)
  {
    assert a + [r] + b == a + ([r] + b);
    FoldConcat(sch, m, a, [r] + b);
    FoldConcat(sch, m, a, b);
    assert ([r] + b)[1..] == b;
  }

  /** An enum number outside the declared range leaves the earlier value in place. */
  lemma InvalidEnumKeepsValue(sch: Schema, m: Msg, r: Record, i: nat)
    requires Shaped(sch, m) && ValidSchema(sch)
    requires i == Target(sch, r.num, WireType(r.payload)) < |sch.fields|
    requires sch.fields[i].kind.KEnum? && !(0 <= ToInt32(r.payload.v) <= sch.fields[i].kind.max)
    ensures Apply(sch, m, r) == Some(m)
  {
    assert m.slots[i := m.slots[i]] == m.slots;
  }
}
