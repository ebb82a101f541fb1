/** The generated message class, over any field table. */
module MessageObjects {
  import opened Wire
  import opened Messages
  import opened MergeLaws
  import opened ParseLaws
  import opened HasBits
  import opened Objects
  import opened ObjectOps
  import opened Sizes
  import opened PlainLoop
  import opened CodedStreams
  import Paths

  /** The constant a generated ExpectTag call looks for. */
  function FieldTag(f: Field): nat {
    Tag(f.num, NaturalWireType(f.kind))
  }

  /** The loop from the payload of field i on. */
  ghost function AfterFieldStart(lib: Library, sch: Schema, m: Msg, i: Index, packed: bool, s: Bytes): Outcome
    requires Shaped(sch, m) && i < |sch.fields|
  {
    AfterTag(lib, sch, m, Tag(sch.fields[i].num, FieldWireType(sch.fields[i], packed)), s)
  }

  lemma LoopAtField(lib: Library, sch: Schema, m: Msg, i: Index, s: Bytes, rest: Bytes)
    requires ValidSchema(sch) && Shaped(sch, m) && i < |sch.fields|
    requires s == EncodeVarint(FieldTag(sch.fields[i])) + rest
    ensures Loop(lib, sch, m, s) == AfterFieldStart(lib, sch, m, i, false, rest)
  {
    assert ValidField(sch.fields[i]);
    LoopAtTag(lib, sch, m, sch.fields[i].num, NaturalWireType(sch.fields[i].kind), s, rest);
  }

  /** Reading stays within the limit it started with; if it fails it may leave a narrower one in place. */
  ghost predicate Within(input: CodedInputStream, outer: nat, ok: bool)
    reads input
  {
    input.Valid() && input.limit <= outer <= |input.data| && (ok ==> input.limit == outer)
  }

  /** The input up to an outer limit is the input up to the current one followed by what lies between. */
  lemma UntilOuter(input: CodedInputStream, outer: nat)
    requires input.Valid() && input.limit <= outer <= |input.data|
    ensures input.Until(outer) == input.Remaining() + input.data[input.limit..outer]
  {
  }

  lemma UntilSplits(input: CodedInputStream, inner: nat, outer: nat)
    requires input.pos <= inner <= outer <= |input.data|
    ensures input.Until(outer) == input.Until(inner) + input.data[inner..outer]
  {
  }

  class Message {
    const schema: Schema
    var has: bv32
    var cells: seq<Cell>
    var cachedSize: nat

    function State(): Obj
      reads this
    {
      Obj(has, cells, cachedSize)
    }

    ghost predicate Valid()
      reads this
    {
      ValidSchema(schema) && ValidGroups(schema) && Coherent(schema, State())
    }

    ghost function Value(): (m: Msg)
      requires Valid()
      reads this
      ensures Shaped(schema, m)
    {
      Abs(schema, State())
    }

    /** SharedCtor. */
    constructor (sch: Schema)
      requires ValidSchema(sch) && ValidGroups(sch)
      ensures schema == sch && State() == NewObj(sch)
      ensures Valid() && Value() == Empty(sch)
    {
      schema := sch;
      has, cells, cachedSize := NewObj(sch).has, NewObj(sch).cells, NewObj(sch).cachedSize;
      new;
      NewObjCoherent(sch);
    }

    /** The nested object held in a member of its owner. */
    constructor Of(sch: Schema, o: Obj)
      requires ValidSchema(sch) && ValidGroups(sch) && Coherent(sch, o)
      ensures schema == sch && State() == o
      ensures Valid() && Value() == Abs(sch, o)
    {
      schema := sch;
      has, cells, cachedSize := o.has, o.cells, o.cachedSize;
    }

    // -------------------------------------------------------------- accessors

    method HasField(i: Index) returns (b: bool)
      requires Valid() && i < |schema.fields| && Singular(schema, i)
      ensures b <==> Value().slots[i] != []
    {
      AbsentSlot(schema, State(), i);
      b := Has(has, i);
    }

    /** x() for a scalar or string: just the member, which the invariant makes the default when absent. */
    method GetScalar(i: Index) returns (v: Val)
      requires Valid() && i < |schema.fields| && Singular(schema, i) && !SubMember(schema.fields[i])
      ensures v == if Value().slots[i] == [] then Default(schema.fields[i].kind) else Value().slots[i][0]
      ensures Value().slots[i] == [] ==>
                match schema.fields[i].kind
                case KBool(dflt) => v == Flag(dflt)
                case KFloat => v == Str([0, 0, 0, 0])
                case KBytes => v == Str([])
                case _ => v == Num(0)
    {
      assert CellCoherent(schema.fields[i], Has(has, i), cells[i]);
      ScalarSlot(schema, State(), i);
      v := cells[i].v;
    }

    method SetScalar(i: Index, v: Val)
      requires Valid() && i < |schema.fields| && Singular(schema, i) && !SubMember(schema.fields[i])
      requires Typed(schema.fields[i].kind, v)
      modifies this
      ensures Valid() && Value() == Msg(old(Value()).slots[i := [v]])
    {
      PutScalarEffect(schema, State(), i, v);
      has := Set(has, i);
      cells := cells[i := Scalar(v)];
    }

    method AddScalar(i: Index, v: Val)
      requires Valid() && i < |schema.fields| && !Singular(schema, i) && !SubMember(schema.fields[i])
      requires Typed(schema.fields[i].kind, v)
      modifies this
      ensures Valid() && Value() == Msg(old(Value()).slots[i := old(Value()).slots[i] + [v]])
    {
      AddScalarsEffect(schema, State(), i, [v]);
      cells := cells[i := Many(cells[i].vs + [v])];
    }

    /** clear_x(): the default, an emptied submessage, or no elements; and no presence bit. */
    method ClearField(i: Index)
      requires Valid() && i < |schema.fields|
      modifies this
      ensures Valid() && Value() == Msg(old(Value()).slots[i := []])
    {
      var c := ClearedCell(i);
      PutAbsentEffect(schema, State(), i, c);
      has := Unset(has, i);
      cells := cells[i := c];
    }

    /** The storage that clear_x() leaves: an allocated submessage stays allocated and is cleared. */
    method ClearedCell(i: Index) returns (c: Cell)
      requires Valid() && i < |schema.fields|
      ensures Blank(schema.fields[i], c)
      ensures !Singular(schema, i) ==> c == NewCell(schema.fields[i])
    {
      var f := schema.fields[i];
      assert ValidField(f) && CellCoherent(f, Has(has, i), cells[i]);
      if !f.kind.KMessage? || f.rule.Repeated? {
        BlankNewCell(f);
        c := NewCell(f);
      } else if cells[i].os != [] {
        var s := Cleared(f.kind.sub, cells[i].os[0]);
        c := Subs([s]);
      } else {
        c := Subs([]);
      }
    }

    /** x_->Clear() on the object a member points to. */
    static method Cleared(sub: Schema, s: Obj) returns (r: Obj)
      requires ValidSchema(sub) && ValidGroups(sub) && Coherent(sub, s)
      ensures Coherent(sub, r) && Abs(sub, r) == Empty(sub)
      decreases sub, 3
    {
      var child := new Message.Of(sub, s);
      child.Clear();
      r := child.State();
    }

    /** x() for a submessage: the one allocated, or else the default instance. */
    method GetSub(i: Index) returns (s: Obj)
      requires Valid() && i < |schema.fields| && Singular(schema, i) && SubMember(schema.fields[i])
      ensures Coherent(schema.fields[i].kind.sub, s)
      ensures Abs(schema.fields[i].kind.sub, s) == SubOf(schema.fields[i].kind.sub, Value().slots[i])
    {
      var sub := schema.fields[i].kind.sub;
      assert ValidField(schema.fields[i]);
      NewObjCoherent(sub);
      HeldSub(schema, State(), i);
      s := if cells[i].os != [] then cells[i].os[0] else NewObj(sub);
    }

    /**
      mutable_x() or add_x(), and what the caller then makes of the object it points
      to: s is that object afterwards.
     */
    method MutateSub(i: Index, s: Obj)
      requires Valid() && i < |schema.fields| && SubMember(schema.fields[i]) && Coherent(schema.fields[i].kind.sub, s)
      modifies this
      ensures Valid()
      ensures var f, x := schema.fields[i], old(Value()).slots[i];
              Value() == Msg(old(Value()).slots[i := Kept(f, x) + [Sub(Abs(f.kind.sub, s))]])
    {
      var f := schema.fields[i];
      assert ValidField(f);
      MutableSubEffect(schema, State(), i);
      MutateSubEffect(schema, State(), i, s);
      var o := StoreSub(MutableSub(f, State(), i), i, s);
      has, cells := o.has, o.cells;
    }

    /** release_x(): hands the submessage over and leaves NULL; an absent one may come back emptied. */
    method ReleaseSub(i: Index) returns (p: Option<Obj>)
      requires Valid() && i < |schema.fields| && Singular(schema, i) && SubMember(schema.fields[i])
      modifies this
      ensures Valid() && Value() == Msg(old(Value()).slots[i := []]) && cells[i] == Subs([])
      ensures p.Some? ==>
                var sub := schema.fields[i].kind.sub;
                Coherent(sub, p.value) && Abs(sub, p.value) == SubOf(sub, old(Value()).slots[i])
      ensures p.None? ==> old(Value()).slots[i] == []
    {
      HeldSub(schema, State(), i);
      p := if cells[i].os != [] then Some(cells[i].os[0]) else None;
      PutAbsentEffect(schema, State(), i, Subs([]));
      has := Unset(has, i);
      cells := cells[i := Subs([])];
    }

    /** set_allocated_x(): takes the object given, or NULL. */
    method SetAllocatedSub(i: Index, p: Option<Obj>)
      requires Valid() && i < |schema.fields| && Singular(schema, i) && SubMember(schema.fields[i])
      requires p.Some? ==> Coherent(schema.fields[i].kind.sub, p.value)
      modifies this
      ensures Valid()
      ensures Value() == Msg(old(Value()).slots[i :=
                if p.Some? then [Sub(Abs(schema.fields[i].kind.sub, p.value))] else []])
    {
      ghost var o := State();
      assert CellCoherent(schema.fields[i], Has(has, i), cells[i]);
      match p {
        case Some(s) =>
          PutCell(schema, o, i, Set(has, i), Subs([s]));
          cells := cells[i := Subs([s])];
          has := Set(has, i);
        case None =>
          PutAbsentEffect(schema, o, i, Subs([]));
          has := Unset(has, i);
          cells := cells[i := Subs([])];
      }
    }

    // -------------------------------------------------------------- parsing one field

    /** ReadPrimitive into a singular member, or ReadRepeatedPrimitive. */
    method ReadNumber(i: Index, input: CodedInputStream) returns (ok: bool)
      requires Valid() && input.Valid() && i < |schema.fields|
      requires NaturalWireType(schema.fields[i].kind) == VARINT
      modifies this, input`pos
      ensures Valid() && input.Valid()
      ensures SlotRead(ok, Value().slots[i], input.Remaining(), false)
           == ReadNumberSlot(input.lib, schema.fields[i], old(Value()).slots[i], old(input.Remaining()))
      ensures Value() == Msg(old(Value()).slots[i := Value().slots[i]])
    {
      var f := schema.fields[i];
      var v;
      ghost var o, slots := State(), Value().slots;
      assert ValidField(f) && CellCoherent(f, Has(has, i), cells[i]);
      assert slots[i := slots[i]] == slots;
      ok, v := input.ReadVarint64();
      if ok {
        DecodeVarintTyped(f, v);
        var d := DecodeVarint(f.kind, v);
        if f.rule.Repeated? {
          AddScalarsEffect(schema, o, i, d);
          cells := cells[i := Many(cells[i].vs + d)];
        } else if d != [] {
          PutScalarEffect(schema, o, i, d[0]);
          cells := cells[i := Scalar(d[0])];
          has := Set(has, i);
          assert d == [d[0]];
        }
      }
    }

    /** Varints up to the current limit, appended to a repeated field. */
    method ReadValuesToLimit(i: Index, input: CodedInputStream) returns (ok: bool)
      requires Valid() && input.Valid() && i < |schema.fields| && Packable(schema.fields[i])
      modifies this, input`pos
      ensures Valid() && input.Valid()
      ensures SlotRead(ok, Value().slots[i], input.Remaining(), false)
           == ReadValues(input.lib, schema.fields[i].kind, old(Value()).slots[i], old(input.Remaining()))
      ensures Value() == Msg(old(Value()).slots[i := Value().slots[i]])
    {
      var f := schema.fields[i];
      ghost var slots := Value().slots;
      ghost var want := ReadValues(input.lib, f.kind, slots[i], input.Remaining());
      assert slots[i := slots[i]] == slots;
      ok := true;
      while input.pos < input.limit
        invariant Valid() && input.Valid() && ok
        invariant ReadValues(input.lib, f.kind, Value().slots[i], input.Remaining()) == want
        invariant Value() == Msg(slots[i := Value().slots[i]])
        decreases |input.Remaining()|
      {
        ghost var x := Value().slots[i];
        ok := ReadNumber(i, input);
        UpdateTwice(slots, i, x, Value().slots[i]);
        if !ok { return; }
      }
    }

    /** ReadPackedPrimitive: a length, then varints up to it. */
    method ReadPacked(i: Index, input: CodedInputStream) returns (ok: bool)
      requires Valid() && input.Valid() && i < |schema.fields| && Packable(schema.fields[i])
      requires !input.consumedEntireMessage
      modifies this, input
      ensures Valid() && Within(input, old(input.limit), ok)
      ensures SlotRead(ok, Value().slots[i], input.Until(old(input.limit)), input.consumedEntireMessage)
           == ReadPackedSlot(input.lib, schema.fields[i], old(Value()).slots[i], old(input.Remaining()))
      ensures Value() == Msg(old(Value()).slots[i := Value().slots[i]])
    {
      ghost var slots := Value().slots;
      assert slots[i := slots[i]] == slots;
      var outer;
      ok, outer := input.ReadLengthAndPushLimit();
      if !ok { return; }
      ok := ReadValuesToLimit(i, input);
      UntilOuter(input, outer);
      if !ok { return; }
      input.PopLimit(outer);
    }

    /** ReadString or ReadBytes into mutable_x() or add_x(); a failed read may leave a torn string. */
    method ReadStringField(i: Index, input: CodedInputStream) returns (ok: bool)
      requires Valid() && input.Valid() && i < |schema.fields| && schema.fields[i].kind.KBytes?
      modifies this, input`pos
      ensures Valid() && input.Valid()
      ensures SlotRead(ok, Value().slots[i], input.Remaining(), false)
           == ReadTextSlot(input.lib, schema.fields[i], old(Value()).slots[i], old(input.Remaining()))
      ensures Value() == Msg(old(Value()).slots[i := Value().slots[i]])
    {
      var f := schema.fields[i];
      ghost var o, x := State(), Value().slots[i];
      assert CellCoherent(f, Has(has, i), cells[i]);
      ScalarSlot(schema, o, i);
      var b;
      if f.rule.Repeated? {
        ok, b := input.ReadString([]);
        AddScalarsEffect(schema, o, i, [Str(b)]);
        cells := cells[i := Many(cells[i].vs + [Str(b)])];
      } else {
        assert cells[i].v.s == OldText(f, x);
        ok, b := input.ReadString(cells[i].v.s);
        PutScalarEffect(schema, o, i, Str(b));
        has := Set(has, i);
        cells := cells[i := Scalar(Str(b))];
        assert [] + [Str(b)] == [Str(b)];
      }
    }

    method ReadFloatField(i: Index, input: CodedInputStream) returns (ok: bool)
      requires Valid() && input.Valid() && i < |schema.fields| && schema.fields[i].kind.KFloat?
      modifies this, input`pos
      ensures Valid() && input.Valid()
      ensures SlotRead(ok, Value().slots[i], input.Remaining(), false)
           == ReadFloatSlot(input.lib, old(Value()).slots[i], old(input.Remaining()))
      ensures Value() == Msg(old(Value()).slots[i := Value().slots[i]])
    {
      ghost var o, slots := State(), Value().slots;
      assert ValidField(schema.fields[i]);
      assert slots[i := slots[i]] == slots;
      var b;
      ok, b := input.ReadFixed32();
      if ok {
        PutScalarEffect(schema, o, i, Str(b));
        cells := cells[i := Scalar(Str(b))];
        has := Set(has, i);
      }
    }

    /** ReadMessage into mutable_x() or add_x(): a length, then the submessage's own parser. */
    method ReadMessage(i: Index, input: CodedInputStream) returns (ok: bool)
      requires Valid() && input.Valid() && i < |schema.fields| && SubMember(schema.fields[i])
      requires !input.consumedEntireMessage
      modifies this, input
      ensures Valid() && Within(input, old(input.limit), ok)
      ensures SlotRead(ok, Value().slots[i], input.Until(old(input.limit)), input.consumedEntireMessage)
           == ReadSubSlot(input.lib, schema.fields[i], old(Value()).slots[i], old(input.Remaining()))
      ensures Value() == Msg(old(Value()).slots[i := Value().slots[i]])
      decreases schema, 0
    {
      var f := schema.fields[i];
      ghost var o := State();
      assert ValidField(f);
      MutableSubEffect(schema, o, i);
      var o' := MutableSub(f, State(), i);
      has, cells := o'.has, o'.cells;
      var child := new Message.Of(f.kind.sub, LastSub(o', i));
      ok := child.ReadNested(input);
      MutateSubEffect(schema, o, i, child.State());
      cells := StoreSub(o', i, child.State()).cells;
    }

    /** ReadMessageNoVirtual: a length, and the message's own parser, which must stop at the limit. */
    method ReadNested(input: CodedInputStream) returns (ok: bool)
      requires Valid() && input.Valid() && !input.consumedEntireMessage
      modifies this, input
      ensures Valid() && Within(input, old(input.limit), ok)
      ensures Outcome(ok, Value(), input.Until(old(input.limit)), input.consumedEntireMessage)
           == Nested(input.lib, schema, old(Value()), old(input.Remaining()))
      decreases schema, 5
    {
      var outer;
      ok, outer := input.ReadLengthAndPushLimit();
      if !ok { return; }
      ghost var inner := input.limit;
      ok := MergePartialFromCodedStream(input);
      UntilSplits(input, inner, outer);
      if !ok || !input.consumedEntireMessage {
        ok := false;
        return;
      }
      LoopEndsClean(input.lib, schema, old(Value()), old(ReadDelimited(input.Remaining()).value));
      input.PopLimit(outer);
    }

    /** The body of one `case`, entered by its tag or by a jump: reads the payload into field i. */
    method ReadField(i: Index, packed: bool, input: CodedInputStream) returns (ok: bool)
      requires Valid() && input.Valid() && i < |schema.fields| && !input.consumedEntireMessage
      requires packed ==> Packable(schema.fields[i])
      modifies this, input
      ensures Valid() && Within(input, old(input.limit), ok)
      ensures SlotRead(ok, Value().slots[i], input.Until(old(input.limit)), input.consumedEntireMessage)
           == ReadSlot(input.lib, schema.fields[i], old(Value()).slots[i], packed, old(input.Remaining()))
      ensures Value() == Msg(old(Value()).slots[i := Value().slots[i]])
      decreases schema, 1
    {
      ghost var f, x, s := schema.fields[i], Value().slots[i], input.Remaining();
      if schema.fields[i].kind.KMessage? {
        assert ReadSlot(input.lib, f, x, packed, s) == ReadSubSlot(input.lib, f, x, s);
        ok := ReadMessage(i, input);
      } else if packed {
        assert ReadSlot(input.lib, f, x, packed, s) == ReadPackedSlot(input.lib, f, x, s);
        ok := ReadPacked(i, input);
      } else {
        ok := ReadPlain(i, input);
      }
    }

    /** The case of a number, a float or a string. */
    method ReadPlain(i: Index, input: CodedInputStream) returns (ok: bool)
      requires Valid() && input.Valid() && i < |schema.fields| && !SubMember(schema.fields[i])
      modifies this, input`pos
      ensures Valid() && input.Valid()
      ensures SlotRead(ok, Value().slots[i], input.Remaining(), false)
           == ReadSlot(input.lib, schema.fields[i], old(Value()).slots[i], false, old(input.Remaining()))
      ensures Value() == Msg(old(Value()).slots[i := Value().slots[i]])
    {
      if schema.fields[i].kind.KBytes? {
        ok := ReadStringField(i, input);
      } else if schema.fields[i].kind.KFloat? {
        ok := ReadFloatField(i, input);
      } else {
        ok := ReadNumber(i, input);
      }
    }

    /** One case, as a step of the plain loop. */
    method ReadCase(i: Index, packed: bool, input: CodedInputStream, ghost want: Outcome) returns (ok: bool)
      requires Valid() && input.Valid() && i < |schema.fields| && !input.consumedEntireMessage
      requires packed ==> Packable(schema.fields[i])
      requires want == AfterFieldStart(input.lib, schema, Value(), i, packed, input.Remaining())
      modifies this, input
      ensures Valid() && Within(input, old(input.limit), ok)
      ensures if ok then
                && want == Loop(input.lib, schema, Value(), input.Remaining())
                && |input.Remaining()| < old(|input.Remaining()|) && !input.consumedEntireMessage
              else want == Outcome(false, Value(), input.Until(old(input.limit)), input.consumedEntireMessage)
      decreases schema, 2
    {
      ghost var slots, s := Value().slots, input.Remaining();
      ghost var r := ReadSlot(input.lib, schema.fields[i], slots[i], packed, s);
      AfterFieldTag(input.lib, schema, Value(), i, packed, s);
      ok := ReadField(i, packed, input);
      assert Value() == Msg(slots[i := r.x]);
    }

    /**
      From the payload of field `start` on: reads it, then keeps jumping while
      ExpectTag finds the tag of the same repeated field or of the next field.
      Answers end if ExpectAtEnd found the end after the last field.
     */
    method ReadRun(start: Index, startPacked: bool, input: CodedInputStream, ghost want: Outcome)
      returns (ok: bool, end: bool)
      requires Valid() && input.Valid() && start < |schema.fields| && !input.consumedEntireMessage
      requires startPacked ==> Packable(schema.fields[start])
      requires want == AfterFieldStart(input.lib, schema, Value(), start, startPacked, input.Remaining())
      modifies this, input
      ensures Valid() && Within(input, old(input.limit), ok)
      ensures ok ==> Loop(input.lib, schema, Value(), input.Remaining()) == want
      ensures ok ==> |input.Remaining()| <= old(|input.Remaining()|)
      ensures ok && end ==> input.Remaining() == [] && input.consumedEntireMessage
      ensures !ok ==> want == Outcome(false, Value(), input.Until(old(input.limit)), input.consumedEntireMessage)
      decreases schema, 3
    {
      var i: Index, packed := start, startPacked;
      var jump := true;
      ok, end := true, false;
      while jump
        invariant Valid() && input.Valid() && input.limit == old(input.limit) && i < |schema.fields|
        invariant packed ==> Packable(schema.fields[i])
        invariant |input.Remaining()| <= old(|input.Remaining()|)
        invariant ok && (if end then !jump && input.Remaining() == [] && input.consumedEntireMessage
                         else !input.consumedEntireMessage)
        invariant want == if jump then AfterFieldStart(input.lib, schema, Value(), i, packed, input.Remaining())
                          else Loop(input.lib, schema, Value(), input.Remaining())
        decreases jump, |input.Remaining()|
      {
        ok := ReadCase(i, packed, input, want);
        if !ok { return; }
        packed := false;
        jump, end, i := JumpOn(i, input, want);
      }
    }

    /** The tests that end a `case`: which label to go to next, if any. */
    method JumpOn(i: Index, input: CodedInputStream, ghost want: Outcome) returns (jump: bool, end: bool, next: Index)
      requires Valid() && input.Valid() && i < |schema.fields| && !input.consumedEntireMessage
      requires want == Loop(input.lib, schema, Value(), input.Remaining())
      modifies input
      ensures input.Valid() && input.limit == old(input.limit) && next < |schema.fields|
      ensures if jump then
                !end && |input.Remaining()| < old(|input.Remaining()|)
                && want == AfterFieldStart(input.lib, schema, Value(), next, false, input.Remaining())
              else input.Remaining() == old(input.Remaining())
      ensures if end then input.Remaining() == [] && input.consumedEntireMessage else !input.consumedEntireMessage
    {
      jump, end, next := false, false, i;
      if schema.fields[i].rule.Repeated? {
        jump := ExpectField(i, input, want);
      }
      if !jump {
        if i + 1 < |schema.fields| {
          jump := ExpectField(i + 1, input, want);
          if jump { next := i + 1; }
        } else {
          end := input.ExpectAtEnd();
        }
      }
    }

    /** One test for a label, and what jumping there means. */
    method ExpectField(i: Index, input: CodedInputStream, ghost want: Outcome) returns (jump: bool)
      requires Valid() && input.Valid() && i < |schema.fields|
      requires want == Loop(input.lib, schema, Value(), input.Remaining())
      modifies input`pos
      ensures input.Valid()
      ensures if jump then
                |input.Remaining()| < old(|input.Remaining()|)
                && want == AfterFieldStart(input.lib, schema, Value(), i, false, input.Remaining())
              else input.Remaining() == old(input.Remaining())
    {
      ghost var s := input.Remaining();
      jump := input.ExpectTag(FieldTag(schema.fields[i]));
      if jump {
        LoopAtField(input.lib, schema, Value(), i, s, input.Remaining());
      }
    }

    /**
      The generated parser, with its jumps: after a field it may find the tag of
      the same repeated field or of the next field, or the end, and go there
      directly. For every input, malformed or not, and whatever ExpectTag and
      ExpectAtEnd answer, result, message, position and end flag are those of the
      plain loop.
     */
    method MergePartialFromCodedStream(input: CodedInputStream) returns (ok: bool)
      requires Valid() && input.Valid()
      modifies this, input
      ensures Valid() && Within(input, old(input.limit), ok)
      ensures Outcome(ok, Value(), input.Until(old(input.limit)), input.consumedEntireMessage)
           == Loop(input.lib, schema, old(Value()), old(input.Remaining()))
      decreases schema, 4
    {
      ghost var want := Loop(input.lib, schema, Value(), input.Remaining());
      while true
        invariant Valid() && input.Valid() && input.limit == old(input.limit)
        invariant Loop(input.lib, schema, Value(), input.Remaining()) == want
        decreases |input.Remaining()|
      {
        var tag := input.ReadTag();
        if tag == 0 { return true; }
        var i := Target(schema, tag / 8, tag % 8);
        if i == |schema.fields| {
          if tag % 8 == END_GROUP { return true; }
          ok := input.SkipField(tag);
          if !ok { return; }
        } else {
          var packed := IsPacked(schema.fields[i], tag % 8);
          assert tag == Tag(schema.fields[i].num, FieldWireType(schema.fields[i], packed));
          var end;
          ok, end := ReadRun(i, packed, input, want);
          if !ok || end { return; }
        }
      }
    }

    // -------------------------------------------------------------- clearing

    /** The lines of Clear() for one member of a mask group. */
    method ClearMember(i: Index)
      requires Valid() && i < |schema.fields| && Singular(schema, i)
      modifies this
      ensures Valid() && has == old(has)
      ensures Blank(schema.fields[i], cells[i]) && cells == old(cells)[i := cells[i]]
      decreases schema, 0
    {
      var f := schema.fields[i];
      ghost var o := State();
      assert ValidField(f) && CellCoherent(f, Has(has, i), cells[i]);
      if f.kind.KMessage? {
        if Has(has, i) && cells[i].os != [] {
          var s := Cleared(f.kind.sub, cells[i].os[0]);
          PutBlank(schema, o, i, Subs([s]));
          cells := cells[i := Subs([s])];
        }
      } else if f.kind.KBytes? {
        if Has(has, i) {
          PutBlank(schema, o, i, Scalar(Str([])));
          cells := cells[i := Scalar(Str([]))];
        }
      } else {
        BlankNewCell(f);
        PutBlank(schema, o, i, Scalar(Default(f.kind)));
        cells := cells[i := Scalar(Default(f.kind))];
      }
    }

    method ClearGroup(g: MaskGroup)
      requires Valid() && ValidGroup(schema, g)
      modifies this
      ensures Valid() && has == old(has) && |cells| == |old(cells)|
      ensures GroupBlank(schema, cells, g)
      ensures forall i :: 0 <= i < |cells| ==>
                cells[i] == old(cells)[i] || (Singular(schema, i) && Blank(schema.fields[i], cells[i]))
      decreases schema, 1
    {
      for k := 0 to |g.members|
        invariant Valid() && has == old(has) && |cells| == |old(cells)|
        invariant forall l :: 0 <= l < k ==> Blank(schema.fields[g.members[l]], cells[g.members[l]])
        invariant forall i :: 0 <= i < |cells| ==>
                    cells[i] == old(cells)[i] || (Singular(schema, i) && Blank(schema.fields[i], cells[i]))
      {
        ClearMember(g.members[k]);
      }
    }

    /**
      Clear() tests each group's mask and leaves the members of a missed group
      alone; the presence invariant makes that enough for the result to be as good
      as a new object.
     */
    method Clear()
      requires Valid()
      modifies this
      ensures Valid() && has == 0 && Value() == Empty(schema)
      decreases schema, 2
    {
      for g := 0 to |schema.groups|
        invariant Valid() && has == old(has)
        invariant forall h :: 0 <= h < g ==> GroupBlank(schema, cells, schema.groups[h])
      {
        if GroupHit(has, schema.groups[g].start) {
          ClearGroup(schema.groups[g]);
        } else {
          MissedGroupIsBlank(schema, State(), schema.groups[g]);
        }
      }
      forall i | 0 <= i < |schema.fields| && Singular(schema, i) ensures Blank(schema.fields[i], cells[i]) {
        AllGroupsBlank(schema, cells, i);
      }
      ClearRepeated();
      forall i | 0 <= i < |schema.fields| && !Singular(schema, i) ensures Blank(schema.fields[i], cells[i]) {
        assert ValidField(schema.fields[i]);
        BlankNewCell(schema.fields[i]);
      }
      has := 0;
      AllBlankIsEmpty(schema, State());
    }

    method ClearRepeated()
      requires Valid()
      modifies this
      ensures Valid() && has == old(has)
      ensures forall i :: 0 <= i < |schema.fields| ==>
                cells[i] == if schema.fields[i].rule.Repeated? then NewCell(schema.fields[i]) else old(cells)[i]
    {
      for i := 0 to |schema.fields|
        invariant Valid() && has == old(has)
        invariant forall j :: 0 <= j < |schema.fields| ==>
                    cells[j] == if j < i && schema.fields[j].rule.Repeated? then NewCell(schema.fields[j])
                                else old(cells)[j]
      {
        if schema.fields[i].rule.Repeated? {
          assert ValidField(schema.fields[i]) && CellCoherent(schema.fields[i], Has(has, i), cells[i]);
          BlankNewCell(schema.fields[i]);
          PutBlank(schema, State(), i, NewCell(schema.fields[i]));
          cells := cells[i := NewCell(schema.fields[i])];
        }
      }
    }

    // -------------------------------------------------------------- merging

    /** mutable_x()->MergeFrom(from.x()), or add_x()->MergeFrom(...), for a submessage. */
    method MergeSub(i: Index, src: Obj)
      requires Valid() && i < |schema.fields| && SubMember(schema.fields[i]) && Coherent(schema.fields[i].kind.sub, src)
      modifies this
      ensures Valid()
      ensures var f, x := schema.fields[i], old(Value()).slots[i];
              Value() == Msg(old(Value()).slots[i :=
                Kept(f, x) + [Sub(Merge(f.kind.sub, SlotBase(f, x), Abs(f.kind.sub, src)))]])
      decreases schema, 0
    {
      var f := schema.fields[i];
      ghost var o := State();
      assert ValidField(f);
      MutableSubEffect(schema, o, i);
      var o' := MutableSub(f, State(), i);
      has, cells := o'.has, o'.cells;
      var child := new Message.Of(f.kind.sub, LastSub(o', i));
      var from := new Message.Of(f.kind.sub, src);
      child.MergeFrom(from);
      MutateSubEffect(schema, o, i, child.State());
      cells := StoreSub(o', i, child.State()).cells;
    }

    /** One present singular member of from. */
    method MergeMember(i: Index, from: Message)
      requires Valid() && from.Valid() && from.schema == schema && from != this
      requires i < |schema.fields| && Singular(schema, i) && Has(from.has, i)
      modifies this
      ensures Valid()
      ensures Value() == Msg(old(Value()).slots[i :=
                MergeSlot(schema.fields[i], old(Value()).slots[i], from.Value().slots[i])])
      decreases schema, 1
    {
      var f := schema.fields[i];
      ghost var o := State();
      assert ValidField(f) && CellCoherent(f, Has(from.has, i), from.cells[i]);
      if f.kind.KMessage? {
        SubSlot(schema, from.State(), i);
        MergeSlotSub(f, Value().slots[i], from.Value().slots[i]);
        MergeSub(i, from.cells[i].os[0]);
      } else {
        PutScalarEffect(schema, o, i, from.cells[i].v);
        cells := cells[i := Scalar(from.cells[i].v)];
        has := Set(has, i);
      }
    }

    method MergeGroup(g: MaskGroup, from: Message, ghost x: Msg, ghost done: set<nat>)
      requires Valid() && from.Valid() && from.schema == schema && from != this && ValidGroup(schema, g)
      requires Shaped(schema, x) && MergedOn(schema, x, from.Value(), Value(), done)
      requires forall k :: 0 <= k < |g.members| ==> g.members[k] !in done
      modifies this
      ensures Valid() && MergedOn(schema, x, from.Value(), Value(), done + Members(g))
      decreases schema, 2
    {
      ghost var d: set<nat> := done;
      for k := 0 to |g.members|
        invariant Valid() && MergedOn(schema, x, from.Value(), Value(), d)
        invariant forall i :: i in d <==> i in done || i in g.members[..k]
      {
        var i: Index := g.members[k];
        assert i !in d;
        AbsentSlot(schema, from.State(), i);
        if Has(from.has, i) {
          MergeMember(i, from);
        }
        d := d + {g.members[k]};
      }
      assert d == done + Members(g);
    }

    /** add_x()->MergeFrom(src). */
    method AddMerged(i: Index, src: Obj)
      requires Valid() && i < |schema.fields| && !Singular(schema, i) && SubMember(schema.fields[i])
      requires Coherent(schema.fields[i].kind.sub, src)
      modifies this
      ensures Valid()
      ensures var x := old(Value()).slots[i];
              Value() == Msg(old(Value()).slots[i := x + [Sub(Abs(schema.fields[i].kind.sub, src))]])
      decreases schema, 1
    {
      CoherentTyped(schema.fields[i].kind.sub, src);
      MergeEmptyLeft(schema.fields[i].kind.sub, Abs(schema.fields[i].kind.sub, src));
      MergeSub(i, src);
    }

    method MergeRepeatedSubs(i: Index, from: Message)
      requires Valid() && from.Valid() && from.schema == schema && from != this
      requires i < |schema.fields| && !Singular(schema, i) && SubMember(schema.fields[i])
      modifies this
      ensures Valid()
      ensures Value() == Msg(old(Value()).slots[i := old(Value()).slots[i] + from.Value().slots[i]])
      decreases schema, 2
    {
      ghost var slots, y := Value().slots, from.Value().slots[i];
      SubSlot(schema, from.State(), i);
      var os := from.cells[i].os;
      assert slots[i] + y[..0] == slots[i] && slots[i := slots[i]] == slots;
      for j := 0 to |os|
        invariant Valid() && Value() == Msg(slots[i := slots[i] + y[..j]])
      {
        AddMerged(i, os[j]);
        AppendOne(slots, i, y, j);
      }
      assert y[..|os|] == y;
    }

    method MergeRepeatedMember(i: Index, from: Message)
      requires Valid() && from.Valid() && from.schema == schema && from != this
      requires i < |schema.fields| && !Singular(schema, i)
      modifies this
      ensures Valid()
      ensures Value() == Msg(old(Value()).slots[i := old(Value()).slots[i] + from.Value().slots[i]])
      decreases schema, 3
    {
      ghost var o := State();
      if schema.fields[i].kind.KMessage? {
        MergeRepeatedSubs(i, from);
      } else {
        ScalarSlot(schema, from.State(), i);
        AddScalarsEffect(schema, o, i, from.cells[i].vs);
        cells := cells[i := Many(cells[i].vs + from.cells[i].vs)];
      }
    }

    /** The repeated members, which MergeFrom appends first. */
    method MergeRepeated(from: Message) returns (ghost done: set<nat>)
      requires Valid() && from.Valid() && from.schema == schema && from != this
      modifies this
      ensures Valid() && MergedOn(schema, old(Value()), from.Value(), Value(), done)
      ensures forall j :: j in done <==> 0 <= j < |schema.fields| && !Singular(schema, j)
      decreases schema, 4
    {
      ghost var x, y := Value(), from.Value();
      done := {};
      for i := 0 to |schema.fields|
        invariant Valid() && MergedOn(schema, x, y, Value(), done)
        invariant forall j :: j in done <==> 0 <= j < i && !Singular(schema, j)
      {
        if !Singular(schema, i) {
          MergeRepeatedMember(i, from);
          done := done + {i};
        }
      }
    }

    /**
      MergeFrom: repeated members first, then the members of each group whose mask
      hits in from. The value becomes the merge of the two.
     */
    method MergeFrom(from: Message)
      requires Valid() && from.Valid() && from.schema == schema && from != this
      modifies this
      ensures Valid() && Value() == Merge(schema, old(Value()), from.Value())
      decreases schema, 5
    {
      ghost var x, y := Value(), from.Value();
      ghost var done := MergeRepeated(from);
      for g := 0 to |schema.groups|
        invariant Valid() && MergedOn(schema, x, y, Value(), done) && VisitedBefore(schema, g, done)
        invariant forall j :: 0 <= j < |schema.fields| && !Singular(schema, j) ==> j in done
      {
        VisitGroup(schema, g, done);
        if GroupHit(from.has, schema.groups[g].start) {
          MergeGroup(schema.groups[g], from, x, done);
        } else {
          MissedGroupMembers(schema, from.State(), schema.groups[g]);
        }
        done := done + Members(schema.groups[g]);
      }
      AllVisited(schema, done);
      MergedEverywhere(schema, x, y, Value(), done);
    }

    method CopyFrom(from: Message)
      requires Valid() && from.Valid() && from.schema == schema
      modifies this
      ensures Valid() && Value() == old(from.Value())
    {
      if from == this { return; }
      Clear();
      MergeFrom(from);
      CoherentTyped(schema, from.State());
      MergeEmptyLeft(schema, from.Value());
    }

    method Swap(other: Message)
      requires Valid() && other.Valid() && other.schema == schema
      modifies this, other
      ensures Valid() && other.Valid()
      ensures State() == old(other.State()) && other.State() == old(State())
    {
      if other != this {
        cells, other.cells := other.cells, cells;
        has, other.has := other.has, has;
        cachedSize, other.cachedSize := other.cachedSize, cachedSize;
      }
    }

    // -------------------------------------------------------------- sizes

    /** MessageSizeNoVirtual for one nested message: its ByteSize, remembered in it, plus the length prefix. */
    method SubSize(i: Index, j: nat) returns (n: nat)
      requires Valid() && i < |schema.fields| && SubMember(schema.fields[i])
      requires cells[i].Subs? && j < |cells[i].os| && (schema.fields[i].rule.Repeated? || Has(has, i))
      modifies this
      ensures Valid() && Value() == old(Value()) && has == old(has)
      ensures cells[i].Subs? && |cells[i].os| == |old(cells[i].os)| == |Value().slots[i]|
      ensures cells == old(cells)[i := Subs(old(cells[i].os)[j := cells[i].os[j]])]
      ensures n == DataSize(schema.fields[i].kind, Value().slots[i][j])
      ensures CachesRight(schema.fields[i].kind.sub, cells[i].os[j])
      decreases schema, 0
    {
      var f := schema.fields[i];
      ghost var o := State();
      assert ValidField(f);
      SubSlot(schema, o, i);
      var child := new Message.Of(f.kind.sub, cells[i].os[j]);
      var size := child.ByteSize();
      n := LengthDelimited(size);
      SameSubEffect(schema, o, i, j, child.State());
      cells := cells[i := Subs(cells[i].os[j := child.State()])];
    }

    /** The sizes of the nested messages of one member. */
    method SubSizes(i: Index) returns (total: nat)
      requires Valid() && i < |schema.fields| && SubMember(schema.fields[i])
      requires cells[i].Subs? && (schema.fields[i].rule.Repeated? || Has(has, i))
      modifies this
      ensures Valid() && Value() == old(Value()) && has == old(has)
      ensures total == DataSum(schema.fields[i].kind, Value().slots[i])
      ensures |cells| == |old(cells)| && forall j :: 0 <= j < |cells| && j != i ==> cells[j] == old(cells)[j]
      ensures cells[i].Subs?
              && forall j :: 0 <= j < |cells[i].os| ==> CachesRight(schema.fields[i].kind.sub, cells[i].os[j])
      decreases schema, 1
    {
      total := 0;
      var n := |cells[i].os|;
      ghost var x := Value().slots[i];
      SubSlot(schema, State(), i);
      for j := 0 to n
        invariant Valid() && Value() == old(Value()) && has == old(has)
        invariant cells[i].Subs? && |cells[i].os| == n == |x|
        invariant |cells| == |old(cells)| && forall k :: 0 <= k < |cells| && k != i ==> cells[k] == old(cells)[k]
        invariant forall k :: 0 <= k < j ==> CachesRight(schema.fields[i].kind.sub, cells[i].os[k])
        invariant total == DataSum(schema.fields[i].kind, x[..j])
      {
        var size := SubSize(i, j);
        total := total + size;
        assert x[..j + 1][..j] == x[..j];
      }
      assert x[..n] == x;
    }

    /** The lines of ByteSize() for one member that is present or repeated. */
    method MemberSize(i: Index) returns (size: nat)
      requires Valid() && i < |schema.fields| && (Has(has, i) || !Singular(schema, i))
      modifies this
      ensures Valid() && Value() == old(Value()) && has == old(has)
      ensures size == SlotSize(schema.fields[i], Value().slots[i])
      ensures |cells| == |old(cells)| && forall j :: 0 <= j < |cells| && j != i ==> cells[j] == old(cells)[j]
      ensures CellCachesRight(schema.fields[i], Has(has, i), cells[i])
      decreases schema, 2
    {
      var f := schema.fields[i];
      ghost var x := Value().slots[i];
      CoherentTyped(schema, State());
      assert SlotTyped(f, x);
      SlotSizeIsSum(f, x);
      if f.kind.KMessage? {
        SubSlot(schema, State(), i);
        var count := |cells[i].os|;
        size := SubSizes(i);
        size := TagSize(f.num) * count + size;
      } else {
        size := ScalarsSize(i);
      }
    }

    method ScalarsSize(i: Index) returns (size: nat)
      requires Valid() && i < |schema.fields| && !SubMember(schema.fields[i])
      requires Has(has, i) || !Singular(schema, i)
      ensures var f, x := schema.fields[i], Value().slots[i]; size == TagSize(f.num) * |x| + DataSum(f.kind, x)
    {
      var f := schema.fields[i];
      ScalarsTotal(schema, State(), i);
      if f.rule.Repeated? {
        size := ValuesSize(f.kind, cells[i].vs);
        size := TagSize(f.num) * |cells[i].vs| + size;
      } else {
        size := TagSize(f.num) + DataSize(f.kind, cells[i].v);
      }
    }

    /** data_size: the sizes of the elements of a repeated member without their tags. */
    static method ValuesSize(k: Kind, vs: seq<Val>) returns (size: nat)
      ensures size == DataSum(k, vs)
    {
      size := 0;
      for j := 0 to |vs|
        invariant size == DataSum(k, vs[..j])
      {
        size := size + DataSize(k, vs[j]);
        assert vs[..j + 1][..j] == vs[..j];
      }
      assert vs[..|vs|] == vs;
    }

    method GroupSize(g: MaskGroup, start: nat, ghost done: set<nat>) returns (total: nat)
      requires Valid() && ValidGroup(schema, g)
      requires start == SumFrom(SlotSizes(schema, Value()), done, 0)
      requires forall k :: 0 <= k < |g.members| ==> g.members[k] !in done
      requires forall i :: i in done && i < |schema.fields| ==> CellCachesRight(schema.fields[i], Has(has, i), cells[i])
      modifies this
      ensures Valid() && Value() == old(Value()) && has == old(has)
      ensures total == SumFrom(SlotSizes(schema, Value()), done + Members(g), 0)
      ensures forall i :: i in done + Members(g) && i < |schema.fields| ==>
                CellCachesRight(schema.fields[i], Has(has, i), cells[i])
      decreases schema, 3
    {
      ghost var d: set<nat> := done;
      total := start;
      for k := 0 to |g.members|
        invariant Valid() && Value() == old(Value()) && has == old(has)
        invariant total == SumFrom(SlotSizes(schema, Value()), d, 0)
        invariant forall i :: i in d <==> i in done || i in g.members[..k]
        invariant forall i :: i in d && i < |schema.fields| ==> CellCachesRight(schema.fields[i], Has(has, i), cells[i])
      {
        var i: Index := g.members[k];
        assert i !in d;
        AbsentSlot(schema, State(), i);
        SumVisit(SlotSizes(schema, Value()), d, i, 0);
        if Has(has, i) {
          var size := MemberSize(i);
          total := total + size;
        } else {
          assert SlotRecords(schema.fields[i], Value().slots[i]) == [];
        }
        d := d + {g.members[k]};
      }
      assert d == done + Members(g);
    }

    /**
      ByteSize: singular members group by group, then repeated members; remembers
      the size here and in every nested message it reaches. The result is the
      serialized length and every remembered size that serializing uses is right.
     */
    method ByteSize() returns (total: nat)
      requires Valid()
      modifies this
      ensures Valid() && Value() == old(Value()) && has == old(has)
      ensures total == cachedSize == |Serialize(schema, Value())|
      ensures CachesRight(schema, State())
      decreases schema, 5
    {
      ghost var done: set<nat>;
      total, done := GroupSizes();
      for i := 0 to |schema.fields|
        invariant Valid() && Value() == old(Value()) && has == old(has)
        invariant total == SumFrom(SlotSizes(schema, Value()), done, 0)
        invariant forall j :: 0 <= j < |schema.fields| && Singular(schema, j) ==> j in done
        invariant forall j :: 0 <= j < |schema.fields| && !Singular(schema, j) ==> (j in done <==> j < i)
        invariant forall j :: j in done && j < |schema.fields| ==>
                    CellCachesRight(schema.fields[j], Has(has, j), cells[j])
      {
        if !Singular(schema, i) {
          SumVisit(SlotSizes(schema, Value()), done, i, 0);
          var size := MemberSize(i);
          total := total + size;
          done := done + {i};
        }
      }
      SumAllIsLength(schema, Value(), done, 0);
      ghost var o := State();
      cachedSize := total;
      assert Abs(schema, State()) == Abs(schema, o);
    }

    /** The part of ByteSize() under the group masks. */
    method GroupSizes() returns (total: nat, ghost done: set<nat>)
      requires Valid()
      modifies this
      ensures Valid() && Value() == old(Value()) && has == old(has)
      ensures total == SumFrom(SlotSizes(schema, Value()), done, 0)
      ensures forall j :: 0 <= j < |schema.fields| ==> (j in done <==> Singular(schema, j))
      ensures forall j :: j in done && j < |schema.fields| ==> CellCachesRight(schema.fields[j], Has(has, j), cells[j])
      decreases schema, 4
    {
      total, done := 0, {};
      SumNone(SlotSizes(schema, Value()), 0);
      for g := 0 to |schema.groups|
        invariant Valid() && Value() == old(Value()) && has == old(has)
        invariant VisitedBefore(schema, g, done)
        invariant forall j :: j in done ==> j < |schema.fields| && Singular(schema, j)
        invariant total == SumFrom(SlotSizes(schema, Value()), done, 0)
        invariant forall j :: j in done && j < |schema.fields| ==>
                    CellCachesRight(schema.fields[j], Has(has, j), cells[j])
      {
        assert ValidGroup(schema, schema.groups[g]);
        VisitGroup(schema, g, done);
        if GroupHit(has, schema.groups[g].start) {
          total := GroupSize(schema.groups[g], total, done);
        } else {
          MissedGroupSizes(schema, State(), schema.groups[g], done);
        }
        done := done + Members(schema.groups[g]);
      }
      SingularVisited(schema, done);
    }

    // -------------------------------------------------------------- writing

    /** SerializeWithCachedSizes: members in field order, nested lengths from the caches. */
    method SerializeWithCachedSizes(output: CodedOutputStream)
      requires Valid()
      modifies output
      ensures output.written == old(output.written) + CachedBytes(schema, State())
      ensures CachesRight(schema, State()) ==> output.written == old(output.written) + Serialize(schema, Value())
      decreases schema, 1
    {
      for i := 0 to |schema.fields|
        invariant output.written + CachedBytesFrom(schema, State(), i)
               == old(output.written) + CachedBytes(schema, State())
      {
        WriteMember(i, output);
        assert CachedBytesFrom(schema, State(), i)
            == CachedCellBytes(schema.fields[i], Has(has, i), cells[i]) + CachedBytesFrom(schema, State(), i + 1);
      }
      if CachesRight(schema, State()) {
        RightCachesSerialize(schema, State());
      }
    }

    method WriteMember(i: Index, output: CodedOutputStream)
      requires Valid() && i < |schema.fields|
      modifies output
      ensures output.written == old(output.written) + CachedCellBytes(schema.fields[i], Has(has, i), cells[i])
      decreases schema, 0
    {
      var f := schema.fields[i];
      assert ValidField(f) && CellCoherent(f, Has(has, i), cells[i]);
      if f.kind.KMessage? {
        if Has(has, i) || f.rule.Repeated? {
          WriteSubs(f, cells[i].os, output);
        }
      } else if f.rule.Repeated? {
        output.WriteRaw(Join(SlotRecords(f, cells[i].vs)));
      } else if Has(has, i) {
        output.WriteRaw(Join(SlotRecords(f, [cells[i].v])));
      }
    }

    /** WriteMessage for each element: tag, cached size, and the element's own bytes. */
    static method WriteSubs(f: Field, os: seq<Obj>, output: CodedOutputStream)
      requires SubMember(f) && ValidSchema(f.kind.sub) && ValidGroups(f.kind.sub)
      requires forall j :: 0 <= j < |os| ==> Coherent(f.kind.sub, os[j])
      modifies output
      ensures output.written == old(output.written) + CachedSubBytes(f, os)
      decreases f.kind.sub, 2
    {
      for j := 0 to |os|
        invariant output.written + CachedSubBytes(f, os[j..]) == old(output.written) + CachedSubBytes(f, os)
      {
        CachedSubStep(f, os[j..], output.written);
        output.WriteVarint(Tag(f.num, DELIMITED));
        output.WriteVarint(os[j].cachedSize);
        var child := new Message.Of(f.kind.sub, os[j]);
        child.SerializeWithCachedSizes(output);
        assert os[j..][1..] == os[j + 1..];
      }
    }

    // -------------------------------------------------------------- required fields

    /** IsInitialized: required bits here, then submessages whose type has required fields. */
    method IsInitialized() returns (b: bool)
      requires Valid()
      ensures b <==> Complete(schema, Value())
      ensures b <==> !Paths.Uninitialized(schema, Value())
      decreases schema, 2
    {
      CoherentTyped(schema, State());
      Paths.CompleteEverywhere(schema, Value());
      for i := 0 to |schema.fields|
        invariant forall j :: 0 <= j < i ==> SlotComplete(schema.fields[j], Value().slots[j])
      {
        var ok := MemberInitialized(i);
        if !ok { return false; }
      }
      return true;
    }

    /** The test of one member; those below types without required fields are passed over. */
    method MemberInitialized(i: Index) returns (b: bool)
      requires Valid() && i < |schema.fields|
      ensures b <==> SlotComplete(schema.fields[i], Value().slots[i])
      decreases schema, 1
    {
      AbsentOrComplete(schema, State(), i);
      if schema.fields[i].rule.Required? && !Has(has, i) { return false; }
      if schema.fields[i].kind.KMessage? && HasRequired(schema.fields[i].kind.sub)
         && (Has(has, i) || schema.fields[i].rule.Repeated?) {
        b := SubsInitialized(i);
        return;
      }
      return true;
    }

    method SubsInitialized(i: Index) returns (b: bool)
      requires Valid() && i < |schema.fields| && SubMember(schema.fields[i])
      requires Has(has, i) || schema.fields[i].rule.Repeated?
      ensures b <==> SubsComplete(schema.fields[i].kind.sub, Value().slots[i])
      decreases schema, 0
    {
      assert ValidField(schema.fields[i]);
      SubSlotComplete(schema, State(), i);
      b := AllInitialized(schema.fields[i].kind.sub, cells[i].os);
    }

    /** The loop over the elements; those of a singular member are one. */
    static method AllInitialized(sub: Schema, os: seq<Obj>) returns (b: bool)
      requires ValidSchema(sub) && ValidGroups(sub)
      requires forall j :: 0 <= j < |os| ==> Coherent(sub, os[j])
      ensures b <==> ObjectsComplete(sub, os)
      decreases sub, 4
    {
      for j := 0 to |os|
        invariant forall k :: 0 <= k < j ==> Complete(sub, AbsSub(sub, os[k]))
      {
        var ok := Initialized(sub, os[j]);
        if !ok { return false; }
      }
      return true;
    }

    static method Initialized(sub: Schema, s: Obj) returns (b: bool)
      requires ValidSchema(sub) && ValidGroups(sub) && Coherent(sub, s)
      ensures b <==> Complete(sub, AbsSub(sub, s))
      decreases sub, 3
    {
      var child := new Message.Of(sub, s);
      b := child.IsInitialized();
      assert child.Value() == Abs(sub, s);
    }
  }
}
