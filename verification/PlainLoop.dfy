/**
  The parser without its shortcuts: read a tag, switch on it, read the field or
  skip it, and go round again. The generated parser, with its jumps from one
  field to the next, is proved against this loop, on malformed input too.
 */
module PlainLoop {
  import opened Wire
  import opened Messages
  import opened ParseLaws

  /**
    What a parser leaves behind: its result, the message, the input from the
    position on, and whether the end of the input was found (as opposed to an
    end-group or bad tag, or a failure).
   */
  datatype Outcome = Outcome(ok: bool, m: Msg, rest: Bytes, clean: bool)

  /** The same for reading the payload of one field into its slot. */
  datatype SlotRead = SlotRead(ok: bool, x: seq<Val>, rest: Bytes, clean: bool)

  // ---------------------------------------------------------------- one payload

  /** A varint; a number outside an enum changes nothing. */
  function ReadNumberSlot(lib: Library, f: Field, x: seq<Val>, s: Bytes): (r: SlotRead)
    ensures r.ok ==> |r.rest| < |s| && !r.clean
  {
    match ReadVarint(s, MAX_VARINT)
    case Bad => SlotRead(false, x, LeftBy(lib, ReadingVarint, s), false)
    case Got(v, rest) =>
      var d := DecodeVarint(f.kind, v);
      SlotRead(true, if f.rule.Repeated? then x + d else if d == [] then x else d, rest, false)
  }

  /** Varints up to the end of s; those before a bad one have been appended. */
  function ReadValues(lib: Library, k: Kind, x: seq<Val>, s: Bytes): (r: SlotRead)
    ensures r.ok ==> r.rest == [] && !r.clean
    decreases |s|
  {
    if s == [] then SlotRead(true, x, [], false)
    else match ReadVarint(s, MAX_VARINT)
      case Bad => SlotRead(false, x, LeftBy(lib, ReadingVarint, s), false)
      case Got(v, rest) => ReadValues(lib, k, x + DecodeVarint(k, v), rest)
  }

  function ReadPackedSlot(lib: Library, f: Field, x: seq<Val>, s: Bytes): (r: SlotRead)
    ensures r.ok ==> |r.rest| < |s| && !r.clean
  {
    match ReadDelimited(s)
    case Bad => SlotRead(false, x, LeftBy(lib, ReadingLength, s), false)
    case Got(b, rest) =>
      var r := ReadValues(lib, f.kind, x, b);
      SlotRead(r.ok, r.x, r.rest + rest, false)
  }

  /** What the string to be read into holds before. */
  function OldText(f: Field, x: seq<Val>): Bytes {
    if f.rule.Repeated? || x == [] then [] else AsBytes(x[0])
  }

  /** mutable_x() or add_x() comes first, so the field is present even if its string is torn. */
  function ReadTextSlot(lib: Library, f: Field, x: seq<Val>, s: Bytes): (r: SlotRead)
    ensures r.ok ==> |r.rest| < |s| && !r.clean
  {
    match ReadDelimited(s)
    case Bad => SlotRead(false, Kept(f, x) + [Str(lib.torn(OldText(f, x), s))], LeftBy(lib, ReadingString, s), false)
    case Got(b, rest) => SlotRead(true, Kept(f, x) + [Str(b)], rest, false)
  }

  function ReadFloatSlot(lib: Library, x: seq<Val>, s: Bytes): (r: SlotRead)
    ensures r.ok ==> |r.rest| < |s| && !r.clean
  {
    match ReadBytes(s, 4)
    case Bad => SlotRead(false, x, LeftBy(lib, ReadingFixed32, s), false)
    case Got(b, rest) => SlotRead(true, [Str(b)], rest, false)
  }

  /** A nested message: a length, and its own loop, which must come to a clean end there. */
  function Nested(lib: Library, sub: Schema, m: Msg, s: Bytes): (o: Outcome)
    requires Shaped(sub, m)
    ensures Shaped(sub, o.m) && (o.ok ==> |o.rest| < |s| && !o.clean)
    decreases sub, 1
  {
    match ReadDelimited(s)
    case Bad => Outcome(false, m, LeftBy(lib, ReadingLength, s), false)
    case Got(b, rest) =>
      var o := Loop(lib, sub, m, b);
      if o.ok && o.clean then Outcome(true, o.m, rest, false)
      else Outcome(false, o.m, o.rest + rest, o.clean)
  }

  /** Whatever a failed nested parse has read stays in the submessage. */
  function ReadSubSlot(lib: Library, f: Field, x: seq<Val>, s: Bytes): (r: SlotRead)
    requires SubMember(f)
    ensures r.ok ==> |r.rest| < |s| && !r.clean
    decreases f, 0
  {
    var o := Nested(lib, f.kind.sub, SlotBase(f, x), s);
    SlotRead(o.ok, Kept(f, x) + [Sub(o.m)], o.rest, o.clean)
  }

  function ReadSlot(lib: Library, f: Field, x: seq<Val>, packed: bool, s: Bytes): (r: SlotRead)
    requires packed ==> Packable(f)
    ensures r.ok ==> |r.rest| < |s| && !r.clean
    decreases f, 1
  {
    match f.kind
    case KMessage(_) => ReadSubSlot(lib, f, x, s)
    case KBytes => ReadTextSlot(lib, f, x, s)
    case KFloat => ReadFloatSlot(lib, x, s)
    case _ => if packed then ReadPackedSlot(lib, f, x, s) else ReadNumberSlot(lib, f, x, s)
  }

  // ---------------------------------------------------------------- the loop

  function Loop(lib: Library, sch: Schema, m: Msg, s: Bytes): (o: Outcome)
    requires Shaped(sch, m)
    ensures Shaped(sch, o.m)
    decreases sch, 0, |s|, 1
  {
    if s == [] then Outcome(true, m, [], true)
    else match ReadVarint(s, MAX_VARINT)
      case Bad => Outcome(true, m, LeftBy(lib, ReadingTag, s), false)
      case Got(t, rest) => AfterTag(lib, sch, m, t % TWO32, rest)
  }

  /** The loop from just after a tag. */
  function AfterTag(lib: Library, sch: Schema, m: Msg, tag: nat, s: Bytes): (o: Outcome)
    requires Shaped(sch, m)
    ensures Shaped(sch, o.m)
    decreases sch, 0, |s|, 2
  {
    var i := Target(sch, tag / 8, tag % 8);
    if tag == 0 || tag % 8 == END_GROUP then Outcome(true, m, s, false)
    else if i < |sch.fields| then
      var r := ReadSlot(lib, sch.fields[i], m.slots[i], IsPacked(sch.fields[i], tag % 8), s);
      var m' := Msg(m.slots[i := r.x]);
      if r.ok then Loop(lib, sch, m', r.rest) else Outcome(false, m', r.rest, r.clean)
    else
      match ReadPayload(tag / 8, tag % 8, s)
      case Bad => Outcome(false, m, LeftBy(lib, Skipping(tag), s), lib.ended(tag, s))
      case Got(_, rest) => Loop(lib, sch, m, rest)
  }

  /** Whether a wire type that the field takes is its packed one. */
  predicate IsPacked(f: Field, wt: nat)
    requires WireMatches(f, wt)
    ensures IsPacked(f, wt) ==> Packable(f)
  {
    wt != NaturalWireType(f.kind)
  }

  /** At a clean end nothing is left. */
  lemma {:induction false} LoopEndsClean(lib: Library, sch: Schema, m: Msg, s: Bytes)
    requires Shaped(sch, m)
    ensures Loop(lib, sch, m, s).ok && Loop(lib, sch, m, s).clean ==> Loop(lib, sch, m, s).rest == []
    decreases |s|
  {
    var g := ReadVarint(s, MAX_VARINT);
    if s != [] && g.Got? {
      var tag := g.value % TWO32;
      var i := Target(sch, tag / 8, tag % 8);
      if tag != 0 && tag % 8 != END_GROUP {
        if i < |sch.fields| {
          var r := ReadSlot(lib, sch.fields[i], m.slots[i], IsPacked(sch.fields[i], tag % 8), g.rest);
          if r.ok { LoopEndsClean(lib, sch, Msg(m.slots[i := r.x]), r.rest); }
        } else {
          var p := ReadPayload(tag / 8, tag % 8, g.rest);
          if p.Got? { LoopEndsClean(lib, sch, m, p.rest); }
        }
      }
    }
  }

  // ---------------------------------------------------------------- the loop and the fold over records

  lemma {:induction false} ReadValuesIsDecode(lib: Library, k: Kind, x: seq<Val>, s: Bytes)
    ensures var r := ReadValues(lib, k, x, s);
            match DecodePacked(k, s)
            case None => !r.ok
            case Some(vs) => r.ok && r.x == x + vs
    decreases |s|
  {
    if s == [] {
      assert x + [] == x;
    } else {
      var g := ReadVarint(s, MAX_VARINT);
      if g.Got? {
        var d := DecodeVarint(k, g.value);
        ReadValuesIsDecode(lib, k, x + d, g.rest);
        var more := DecodePacked(k, g.rest);
        assert more.Some? ==> x + (d + more.value) == x + d + more.value;
      }
    }
  }

  lemma ApplySlotMessage(f: Field, x: seq<Val>, b: Bytes)
    requires SubMember(f)
    ensures WireMatches(f, WireType(Delimited(b)))
    ensures ApplySlot(f, x, Delimited(b)) ==
            match ParseInto(f.kind.sub, SlotBase(f, x), b)
            case None => None
            case Some(m) => Some(Kept(f, x) + [Sub(m)])
  {
    var o := ParseInto(f.kind.sub, SlotBase(f, x), b);
    if o.Some? {
      assert [] + [Sub(o.value)] == [Sub(o.value)];
    }
  }

  /** A read of a payload agrees with a record's effect. */
  ghost predicate ReadsAs(r: SlotRead, f: Field, x: seq<Val>, g: Got<Payload>)
    requires g.Got? ==> WireMatches(f, WireType(g.value))
  {
    match g
    case Bad => !r.ok
    case Got(p, rest) =>
      match ApplySlot(f, x, p)
      case None => !r.ok
      case Some(y) => r == SlotRead(true, y, rest, false)
  }

  lemma ReadPackedIsApply(lib: Library, num: nat, f: Field, x: seq<Val>, s: Bytes)
    requires Packable(f)
    ensures ReadsAs(ReadPackedSlot(lib, f, x, s), f, x, ReadPayload(num, DELIMITED, s))
  {
    var g := ReadDelimited(s);
    if g.Got? {
      ReadValuesIsDecode(lib, f.kind, x, g.value);
      assert [] + g.rest == g.rest;
    }
  }

  lemma ReadScalarIsApply(lib: Library, num: nat, f: Field, x: seq<Val>, s: Bytes)
    requires !SubMember(f) && ValidField(f)
    ensures ReadsAs(ReadSlot(lib, f, x, false, s), f, x, ReadPayload(num, NaturalWireType(f.kind), s))
  {
    if f.kind.KBytes? {
      var g := ReadDelimited(s);
      assert g.Got? ==> [] + [Str(g.value)] == [Str(g.value)];
    }
  }

  /** Reading a payload into a slot succeeds when its record is well formed and applies, with the same slot. */
  lemma {:induction false} ReadSlotIsApply(lib: Library, num: nat, f: Field, x: seq<Val>, packed: bool, s: Bytes)
    requires ValidField(f) && (packed ==> Packable(f))
    ensures ReadsAs(ReadSlot(lib, f, x, packed, s), f, x,
                    ReadPayload(num, FieldWireType(f, packed), s))
    decreases f, 1
  {
    if SubMember(f) {
      NestedIsParse(lib, f.kind.sub, SlotBase(f, x), s);
      var g := ReadDelimited(s);
      if g.Got? {
        ApplySlotMessage(f, x, g.value);
      }
      assert ReadSlot(lib, f, x, packed, s) == ReadSubSlot(lib, f, x, s);
    } else if packed {
      ReadPackedIsApply(lib, num, f, x, s);
    } else {
      ReadScalarIsApply(lib, num, f, x, s);
    }
  }

  lemma {:induction false} NestedIsParse(lib: Library, sub: Schema, m: Msg, s: Bytes)
    requires ValidSchema(sub) && Shaped(sub, m)
    ensures var o := Nested(lib, sub, m, s);
            match ReadDelimited(s)
            case Bad => !o.ok
            case Got(b, rest) =>
              match ParseInto(sub, m, b)
              case None => !o.ok
              case Some(m') => o == Outcome(true, m', rest, false)
    decreases sub, 1
  {
    var g := ReadDelimited(s);
    if g.Got? {
      CleanEndIsParse(lib, sub, m, g.value);
    }
  }

  /** The loop comes to a clean end exactly when the whole input parses, with the same message. */
  lemma {:induction false} CleanEndIsParse(lib: Library, sch: Schema, m: Msg, s: Bytes)
    requires ValidSchema(sch) && Shaped(sch, m)
    ensures var o := Loop(lib, sch, m, s);
            match ParseInto(sch, m, s)
            case None => !(o.ok && o.clean)
            case Some(m') => o == Outcome(true, m', [], true)
    decreases sch, 0, |s|
  {
    if s == [] {
      assert Split(s).value == [] && Fold(sch, m, []) == Some(m);
    } else {
      LoopStep(lib, sch, m, s);
      if Next(s).Item? {
        var r, rest := Next(s).r, Next(s).rest;
        SplitStep(s);
        var o := Apply(sch, m, r);
        if o.Some? {
          CleanEndIsParse(lib, sch, o.value, rest);
          FoldFirst(sch, m, r, rest);
        } else if Split(s).Some? {
          assert Split(s).value[0] == r;
        }
      }
    }
  }

  /** One turn of the loop applies one record, or comes to no clean end. */
  lemma {:induction false} LoopStep(lib: Library, sch: Schema, m: Msg, s: Bytes)
    requires ValidSchema(sch) && Shaped(sch, m) && s != []
    ensures Next(s).Item? && Apply(sch, m, Next(s).r).Some? ==>
              Loop(lib, sch, m, s) == Loop(lib, sch, Apply(sch, m, Next(s).r).value, Next(s).rest)
    ensures !(Next(s).Item? && Apply(sch, m, Next(s).r).Some?) ==>
              !(Loop(lib, sch, m, s).ok && Loop(lib, sch, m, s).clean)
    ensures !Next(s).Item? ==> Split(s).None?
    decreases sch, 0, |s|, 0
  {
    var g := ReadVarint(s, MAX_VARINT);
    if g.Got? {
      var tag := g.value % TWO32;
      var i := Target(sch, tag / 8, tag % 8);
      if tag != 0 && tag % 8 != END_GROUP && i < |sch.fields| {
        assert ValidField(sch.fields[i]);
        ReadSlotIsApply(lib, tag / 8, sch.fields[i], m.slots[i], IsPacked(sch.fields[i], tag % 8), g.rest);
      }
    }
  }

  lemma FoldFirst(sch: Schema, m: Msg, r: Record, rest: Bytes)
    requires Shaped(sch, m) && Apply(sch, m, r).Some?
    ensures Split(rest).Some? ==>
              Fold(sch, m, [r] + Split(rest).value) == Fold(sch, Apply(sch, m, r).value, Split(rest).value)
  {
    if Split(rest).Some? {
      assert ([r] + Split(rest).value)[1..] == Split(rest).value;
    }
  }

  // ---------------------------------------------------------------- after a tag

  /** The loop after a tag that field i takes. */
  lemma AfterFieldTag(lib: Library, sch: Schema, m: Msg, i: nat, packed: bool, s: Bytes)
    requires ValidSchema(sch) && Shaped(sch, m) && i < |sch.fields| && (packed ==> Packable(sch.fields[i]))
    ensures var f := sch.fields[i];
            var r := ReadSlot(lib, f, m.slots[i], packed, s);
            var m' := Msg(m.slots[i := r.x]);
            AfterTag(lib, sch, m, Tag(f.num, FieldWireType(f, packed)), s)
              == if r.ok then Loop(lib, sch, m', r.rest) else Outcome(false, m', r.rest, r.clean)
  {
    var f := sch.fields[i];
    var wt := FieldWireType(f, packed);
    assert ValidField(f);
    FieldIsItsTarget(sch, i, wt);
    assert Tag(f.num, wt) / 8 == f.num && Tag(f.num, wt) % 8 == wt;
  }

  function FieldWireType(f: Field, packed: bool): nat {
    if packed then DELIMITED else NaturalWireType(f.kind)
  }

  /** Finding the shortest encoding of a tag is reading that tag. */
  lemma LoopAtTag(lib: Library, sch: Schema, m: Msg, num: nat, wt: nat, s: Bytes, rest: Bytes)
    requires Shaped(sch, m) && 1 <= num < MAX_FIELD && wt < 8
    requires s == EncodeVarint(Tag(num, wt)) + rest
    ensures Loop(lib, sch, m, s) == AfterTag(lib, sch, m, Tag(num, wt), rest)
  {
    ReadEncodedTag(num, wt, rest);
  }
}
