/**
  Serializing and parsing are inverse, and what follows from it: the serialized
  forms of two messages one after the other parse to their merge; a list of
  numbers may be cut into packed chunks and single records in any way; required
  fields survive merging and transmission.
 */
module RoundTrip {
  import opened Wire
  import opened Messages
  import opened MergeLaws
  import opened ParseLaws

  // ---------------------------------------------------------------- lengths

  lemma {:induction false} RecordsFitInJoin(rs: seq<Record>)
    ensures forall r :: r in rs ==> |EncodeRecord(r)| <= |Join(rs)|
  {
    if rs != [] {
      RecordsFitInJoin(rs[1..]);
      assert rs == [rs[0]] + rs[1..];
    }
  }

  function Payloads(f: Field, x: seq<Val>): (ps: seq<Payload>)
    ensures |ps| == |x|
    ensures forall j :: 0 <= j < |ps| ==> WireMatches(f, WireType(ps[j]))
  {
    seq(|x|, j requires 0 <= j < |x| => ValPayload(f.kind, x[j]))
  }

  lemma {:induction false} SlotRecordsAreOutput(sch: Schema, m: Msg, i: nat, k: nat, j: nat)
    requires Shaped(sch, m) && k <= i < |sch.fields| && j < |m.slots[i]|
    ensures Record(sch.fields[i].num, ValPayload(sch.fields[i].kind, m.slots[i][j])) in RecordsFrom(sch, m, k)
    decreases i - k
  {
    if k == i {
      assert SlotRecords(sch.fields[i], m.slots[i])[j] in RecordsFrom(sch, m, k);
    } else {
      SlotRecordsAreOutput(sch, m, i, k + 1, j);
    }
  }

  lemma {:induction false} OutputIsSlotRecords(sch: Schema, m: Msg, k: nat, r: Record) returns (i: nat, j: nat)
    requires Shaped(sch, m) && k <= |sch.fields| && r in RecordsFrom(sch, m, k)
    ensures i < |sch.fields| && j < |m.slots[i]|
    ensures r == Record(sch.fields[i].num, ValPayload(sch.fields[i].kind, m.slots[i][j]))
    decreases |sch.fields| - k
  {
    var here := SlotRecords(sch.fields[k], m.slots[k]);
    if r in here {
      i := k;
      j :| 0 <= j < |here| && here[j] == r;
    } else {
      i, j := OutputIsSlotRecords(sch, m, k + 1, r);
    }
  }

  /** A message shorter than 4 GiB serializes to records a reader accepts. */
  lemma OutputValid(sch: Schema, m: Msg)
    requires ValidSchema(sch) && WellTyped(sch, m) && |Serialize(sch, m)| < TWO32
    ensures ValidRecords(RecordsFrom(sch, m, 0))
  {
    var rs := RecordsFrom(sch, m, 0);
    RecordsFitInJoin(rs);
    forall r | r in rs ensures ValidRecord(r) {
      var i, j := OutputIsSlotRecords(sch, m, 0, r);
      assert ValidField(sch.fields[i]) && Typed(sch.fields[i].kind, m.slots[i][j]);
      assert r.payload.Delimited? ==> |r.payload.b| <= |EncodeRecord(r)|;
    }
  }

  // ---------------------------------------------------------------- round trip

  /** A 32-bit number comes back from its 64-bit form, signed or not. */
  lemma NumberRoundTrip(n: int)
    ensures 0 <= n < TWO32 ==> (n % TWO64) % TWO32 == n
    ensures -0x8000_0000 <= n < 0x8000_0000 ==> ToInt32(n % TWO64) == n
  {
    if -0x8000_0000 <= n < 0 {
      assert n % TWO64 == n + TWO64;
      assert n + TWO64 == (n + TWO32) + 0xffff_ffff * TWO32;
      assert (n + TWO64) % TWO32 == n + TWO32;
    }
  }

  lemma ScalarRoundTrip(f: Field, v: Val)
    requires ValidField(f) && Typed(f.kind, v) && !f.kind.KMessage?
    ensures DecodeScalar(f.kind, ValPayload(f.kind, v)) == [v]
  {
    if v.Num? {
      NumberRoundTrip(v.n);
    }
  }

  lemma {:induction false} ApplyOwnPayload(f: Field, x: seq<Val>, v: Val)
    requires ValidField(f) && Typed(f.kind, v) && (f.rule.Repeated? || x == [])
    requires ValidRecord(Record(f.num, ValPayload(f.kind, v)))
    ensures ApplySlot(f, x, ValPayload(f.kind, v)) == Some(x + [v])
    decreases f, 0
  {
    assert x == [] ==> x + [v] == [v];
    if f.kind.KMessage? {
      SerializeThenParse(f.kind.sub, v.m);
    } else {
      ScalarRoundTrip(f, v);
    }
  }

  lemma {:induction false} SlotRoundTrip(f: Field, x: seq<Val>, y: seq<Val>)
    requires ValidField(f) && SlotTyped(f, x + y)
    requires forall j :: 0 <= j < |y| ==> ValidRecord(Record(f.num, ValPayload(f.kind, y[j])))
    ensures FoldSlot(f, x, Payloads(f, y)) == Some(x + y)
    decreases f, 1, |y|
  {
    if y == [] {
      assert x + y == x;
    } else {
      assert (x + y)[|x|] == y[0];
      ApplyOwnPayload(f, x, y[0]);
      assert x + y == (x + [y[0]]) + y[1..];
      assert Payloads(f, y)[1..] == Payloads(f, y[1..]);
      SlotRoundTrip(f, x + [y[0]], y[1..]);
    }
  }

  lemma {:induction false} RelevantConcat(sch: Schema, i: nat, a: seq<Record>, b: seq<Record>)
    requires i < |sch.fields|
    ensures Relevant(sch, i, a + b) == Relevant(sch, i, a) + Relevant(sch, i, b)
    decreases |a|
  {
    if a == [] {
      assert a + b == b;
    } else {
      assert (a + b)[1..] == a[1..] + b;
      RelevantConcat(sch, i, a[1..], b);
    }
  }

  function Own<T>(own: bool, x: seq<T>): seq<T> {
    if own then x else []
  }

  lemma {:induction false} RelevantSlotRecords(sch: Schema, i: nat, k: nat, x: seq<Val>)
    requires ValidSchema(sch) && i < |sch.fields| && k < |sch.fields|
    ensures Relevant(sch, i, SlotRecords(sch.fields[k], x)) == Own(i == k, Payloads(sch.fields[i], x))
    decreases |x|
  {
    if x != [] {
      FieldIsItsTarget(sch, k, NaturalWireType(sch.fields[k].kind));
      var rs := SlotRecords(sch.fields[k], x);
      assert rs[1..] == SlotRecords(sch.fields[k], x[1..]);
      RelevantSlotRecords(sch, i, k, x[1..]);
      assert Payloads(sch.fields[k], x) == [rs[0].payload] + Payloads(sch.fields[k], x[1..]);
    }
  }

  lemma {:induction false} RelevantPast(sch: Schema, m: Msg, i: nat, k: nat)
    requires ValidSchema(sch) && Shaped(sch, m) && i < k <= |sch.fields|
    ensures Relevant(sch, i, RecordsFrom(sch, m, k)) == []
    decreases |sch.fields| - k
  {
    if k < |sch.fields| {
      RelevantPast(sch, m, i, k + 1);
      RelevantSlotRecords(sch, i, k, m.slots[k]);
      RelevantConcat(sch, i, SlotRecords(sch.fields[k], m.slots[k]), RecordsFrom(sch, m, k + 1));
    }
  }

  lemma {:induction false} RelevantOutput(sch: Schema, m: Msg, i: nat, k: nat)
    requires ValidSchema(sch) && Shaped(sch, m) && k <= i < |sch.fields|
    ensures Relevant(sch, i, RecordsFrom(sch, m, k)) == Payloads(sch.fields[i], m.slots[i])
    decreases |sch.fields| - k
  {
    if k == i {
      RelevantHere(sch, m, i);
    } else {
      RelevantElsewhere(sch, m, i, k);
      RelevantOutput(sch, m, i, k + 1);
    }
  }

  lemma RelevantHere(sch: Schema, m: Msg, i: nat)
    requires ValidSchema(sch) && Shaped(sch, m) && i < |sch.fields|
    ensures Relevant(sch, i, RecordsFrom(sch, m, i)) == Payloads(sch.fields[i], m.slots[i])
  {
    RelevantFrom(sch, m, i, i);
    RelevantPast(sch, m, i, i + 1);
    OwnOrOthers(Payloads(sch.fields[i], m.slots[i]), []);
  }

  lemma RelevantElsewhere(sch: Schema, m: Msg, i: nat, k: nat)
    requires ValidSchema(sch) && Shaped(sch, m) && k < i < |sch.fields|
    ensures Relevant(sch, i, RecordsFrom(sch, m, k)) == Relevant(sch, i, RecordsFrom(sch, m, k + 1))
  {
    RelevantFrom(sch, m, i, k);
    OwnOrOthers(Payloads(sch.fields[i], m.slots[k]), Relevant(sch, i, RecordsFrom(sch, m, k + 1)));
  }

  lemma OwnOrOthers<T>(x: seq<T>, y: seq<T>)
    ensures Own(true, x) + [] == x && Own(false, x) + y == y
  {
  }

  lemma RelevantFrom(sch: Schema, m: Msg, i: nat, k: nat)
    requires ValidSchema(sch) && Shaped(sch, m) && k <= i < |sch.fields|
    ensures Relevant(sch, i, RecordsFrom(sch, m, k))
         == Own(i == k, Payloads(sch.fields[i], m.slots[k])) + Relevant(sch, i, RecordsFrom(sch, m, k + 1))
  {
    RelevantConcat(sch, i, SlotRecords(sch.fields[k], m.slots[k]), RecordsFrom(sch, m, k + 1));
    RelevantSlotRecords(sch, i, k, m.slots[k]);
  }

  /** Round trip: presence, values, repeated fields and submessages all come back. */
  lemma {:induction false} SerializeThenParse(sch: Schema, m: Msg)
    requires ValidSchema(sch) && WellTyped(sch, m) && |Serialize(sch, m)| < TWO32
    ensures Parse(sch, Serialize(sch, m)) == Some(m)
    decreases sch, 2
  {
    var rs := RecordsFrom(sch, m, 0);
    OutputValid(sch, m);
    SplitJoin(rs);
    forall i | 0 <= i < |sch.fields|
      ensures FoldSlot(sch.fields[i], Empty(sch).slots[i], Relevant(sch, i, rs)) == Some(m.slots[i])
    {
      var f, x := sch.fields[i], m.slots[i];
      RelevantOutput(sch, m, i, 0);
      forall j | 0 <= j < |x| ensures ValidRecord(Record(f.num, ValPayload(f.kind, x[j]))) {
        SlotRecordsAreOutput(sch, m, i, 0, j);
      }
      assert [] + x == x;
      SlotRoundTrip(f, [], x);
    }
    FoldBySlots(sch, Empty(sch), rs);
    assert Fold(sch, Empty(sch), rs).value.slots == m.slots;
  }

  /** Two messages written one after the other read back as their merge. */
  lemma ConcatenationIsMerge(sch: Schema, a: Msg, b: Msg)
    requires ValidSchema(sch) && WellTyped(sch, a) && WellTyped(sch, b)
    requires |Serialize(sch, a)| < TWO32 && |Serialize(sch, b)| < TWO32
    ensures Parse(sch, Serialize(sch, a) + Serialize(sch, b)) == Some(Merge(sch, a, b))
  {
    SerializeThenParse(sch, a);
    SerializeThenParse(sch, b);
    ParseConcatIsMerge(sch, Serialize(sch, a), Serialize(sch, b));
  }

  // ---------------------------------------------------------------- packed and unpacked

  /** One piece of a repeated numeric field on the wire. */
  datatype Chunk = One(v: Val) | Packed(vs: seq<Val>)

  function ChunkValues(cs: seq<Chunk>): seq<Val> {
    if cs == [] then []
    else (match cs[0] { case One(v) => [v] case Packed(vs) => vs }) + ChunkValues(cs[1..])
  }

  function PackedBytes(vs: seq<Val>): Bytes {
    if vs == [] then [] else EncodeVarint(AsVarint(vs[0])) + PackedBytes(vs[1..])
  }

  function ChunkPayload(c: Chunk): Payload {
    match c
    case One(v) => Varint(AsVarint(v))
    case Packed(vs) => Delimited(PackedBytes(vs))
  }

  function ChunkRecords(num: nat, cs: seq<Chunk>): seq<Record> {
    seq(|cs|, j requires 0 <= j < |cs| => Record(num, ChunkPayload(cs[j])))
  }

  ghost predicate ChunksTyped(f: Field, cs: seq<Chunk>) {
    forall j :: 0 <= j < |cs| ==>
      match cs[j]
      case One(v) => Typed(f.kind, v)
      case Packed(vs) => forall k :: 0 <= k < |vs| ==> Typed(f.kind, vs[k])
  }

  lemma {:induction false} PackedRoundTrip(f: Field, vs: seq<Val>)
    requires ValidField(f) && Packable(f) && forall k :: 0 <= k < |vs| ==> Typed(f.kind, vs[k])
    ensures DecodePacked(f.kind, PackedBytes(vs)) == Some(vs)
    decreases |vs|
  {
    if vs != [] {
      ScalarRoundTrip(f, vs[0]);
      VarintFits(AsVarint(vs[0]));
      ReadEncodedVarint(AsVarint(vs[0]), MAX_VARINT, PackedBytes(vs[1..]));
      PackedRoundTrip(f, vs[1..]);
      assert vs == [vs[0]] + vs[1..];
    }
  }

  function ChunkPayloads(cs: seq<Chunk>): (ps: seq<Payload>)
    ensures forall j :: 0 <= j < |ps| ==> ps[j].Varint? || ps[j].Delimited?
  {
    seq(|cs|, j requires 0 <= j < |cs| => ChunkPayload(cs[j]))
  }

  lemma {:induction false} RelevantChunks(sch: Schema, i: nat, k: nat, cs: seq<Chunk>)
    requires ValidSchema(sch) && i < |sch.fields| && k < |sch.fields| && Packable(sch.fields[i])
    ensures k == i ==> Relevant(sch, k, ChunkRecords(sch.fields[i].num, cs)) == ChunkPayloads(cs)
    ensures k != i ==> Relevant(sch, k, ChunkRecords(sch.fields[i].num, cs)) == []
    decreases |cs|
  {
    if cs != [] {
      var rs := ChunkRecords(sch.fields[i].num, cs);
      assert rs[1..] == ChunkRecords(sch.fields[i].num, cs[1..]);
      FieldIsItsTarget(sch, i, WireType(rs[0].payload));
      RelevantChunks(sch, i, k, cs[1..]);
    }
  }

  lemma ApplyChunk(f: Field, x: seq<Val>, c: Chunk)
    requires ValidField(f) && Packable(f) && ChunksTyped(f, [c])
    ensures ApplySlot(f, x, ChunkPayload(c)) == Some(x + ChunkValues([c]))
  {
    assert match [c][0]
           case One(v) => Typed(f.kind, v)
           case Packed(vs) => forall k :: 0 <= k < |vs| ==> Typed(f.kind, vs[k]);
    match c {
      case One(v) =>
        ScalarRoundTrip(f, v);
        assert ChunkValues([c]) == [v];
      case Packed(vs) =>
        PackedRoundTrip(f, vs);
        assert ChunkValues([c]) == vs;
    }
  }

  lemma ChunkValuesStep(x: seq<Val>, cs: seq<Chunk>)
    requires cs != []
    ensures x + ChunkValues(cs) == (x + ChunkValues([cs[0]])) + ChunkValues(cs[1..])
  {
    var vs := match cs[0] { case One(v) => [v] case Packed(ws) => ws };
    assert ChunkValues([cs[0]]) == vs + [] == vs;
    assert x + (vs + ChunkValues(cs[1..])) == (x + vs) + ChunkValues(cs[1..]);
  }

  lemma {:induction false} FoldChunks(f: Field, x: seq<Val>, cs: seq<Chunk>)
    requires ValidField(f) && Packable(f) && ChunksTyped(f, cs)
    ensures FoldSlot(f, x, ChunkPayloads(cs)) == Some(x + ChunkValues(cs))
    decreases |cs|
  {
    var ps := ChunkPayloads(cs);
    if cs == [] {
      assert x + [] == x;
    } else {
      var x' := x + ChunkValues([cs[0]]);
      ApplyChunk(f, x, cs[0]);
      ChunkValuesStep(x, cs);
      FoldChunks(f, x', cs[1..]);
      assert ps[0] == ChunkPayload(cs[0]) && ps[1..] == ChunkPayloads(cs[1..]);
      assert FoldSlot(f, x, ps) == FoldSlot(f, x', ps[1..]);
    }
  }

  /**
    However a list of numbers is cut into packed chunks and single records, and
    whatever the message holds already, parsing appends exactly that list.
   */
  lemma PackedAndUnpackedAgree(sch: Schema, i: nat, m: Msg, cs: seq<Chunk>)
    requires ValidSchema(sch) && Shaped(sch, m) && i < |sch.fields|
    requires Packable(sch.fields[i]) && ChunksTyped(sch.fields[i], cs)
    requires forall j :: 0 <= j < |cs| && cs[j].Packed? ==> |PackedBytes(cs[j].vs)| < TWO32
    ensures ParseInto(sch, m, Join(ChunkRecords(sch.fields[i].num, cs)))
         == Some(Msg(m.slots[i := m.slots[i] + ChunkValues(cs)]))
  {
    var rs := ChunkRecords(sch.fields[i].num, cs);
    var want := Msg(m.slots[i := m.slots[i] + ChunkValues(cs)]);
    assert ValidField(sch.fields[i]);
    SplitJoin(rs);
    forall k | 0 <= k < |sch.fields|
      ensures FoldSlot(sch.fields[k], m.slots[k], Relevant(sch, k, rs)) == Some(want.slots[k])
    {
      RelevantChunks(sch, i, k, cs);
      if k == i { FoldChunks(sch.fields[i], m.slots[i], cs); }
    }
    FoldBySlots(sch, m, rs);
    assert Fold(sch, m, rs).value.slots == want.slots;
  }

  // ---------------------------------------------------------------- required fields

  lemma {:induction false} NothingRequiredIsComplete(sch: Schema, m: Msg)
    requires Shaped(sch, m) && !HasRequired(sch)
    ensures Complete(sch, m)
    decreases sch, 1
  {
    forall i | 0 <= i < |sch.fields| ensures SlotComplete(sch.fields[i], m.slots[i]) {
      var f, x := sch.fields[i], m.slots[i];
      assert !f.rule.Required? && (f.kind.KMessage? ==> !HasRequired(f.kind.sub));
      if f.kind.KMessage? {
        forall j | 0 <= j < |x| ensures Complete(f.kind.sub, SubOf(f.kind.sub, [x[j]])) {
          NothingRequiredIsComplete(f.kind.sub, SubOf(f.kind.sub, [x[j]]));
        }
      }
    }
  }

  /** Merging complete messages gives a complete message. */
  lemma {:induction false} MergeComplete(sch: Schema, a: Msg, b: Msg)
    requires WellTyped(sch, a) && WellTyped(sch, b) && Complete(sch, a) && Complete(sch, b)
    ensures Complete(sch, Merge(sch, a, b))
    decreases sch, 1
  {
    forall i | 0 <= i < |sch.fields| ensures SlotComplete(sch.fields[i], Merge(sch, a, b).slots[i]) {
      MergeSlotComplete(sch.fields[i], a.slots[i], b.slots[i]);
    }
  }

  lemma {:induction false} MergeSlotComplete(f: Field, x: seq<Val>, y: seq<Val>)
    requires SlotTyped(f, x) && SlotTyped(f, y) && SlotComplete(f, x) && SlotComplete(f, y)
    ensures SlotComplete(f, MergeSlot(f, x, y))
    decreases f, 0
  {
    if f.kind.KMessage? && !f.rule.Repeated? && y != [] {
      var sub := f.kind.sub;
      assert Typed(f.kind, y[0]) && SubOf(sub, [y[0]]) == SubOf(sub, y);
      if x == [] {
        MergeSlotEmptyLeft(f, y);
      } else {
        assert Typed(f.kind, x[0]) && SubOf(sub, [x[0]]) == SubOf(sub, x);
        MergeComplete(sub, SubOf(sub, x), SubOf(sub, y));
      }
    }
  }

  /** What is complete when sent is complete when received, also after another complete message. */
  lemma CompleteAfterTransmission(sch: Schema, a: Msg, b: Msg)
    requires ValidSchema(sch) && WellTyped(sch, a) && WellTyped(sch, b)
    requires |Serialize(sch, a)| < TWO32 && |Serialize(sch, b)| < TWO32
    ensures Parse(sch, Serialize(sch, a)).Some?
    ensures Complete(sch, Parse(sch, Serialize(sch, a)).value) <==> Complete(sch, a)
    ensures Parse(sch, Serialize(sch, a) + Serialize(sch, b)).Some?
    ensures Complete(sch, a) && Complete(sch, b) ==>
              Complete(sch, Parse(sch, Serialize(sch, a) + Serialize(sch, b)).value)
  {
    SerializeThenParse(sch, a);
    ConcatenationIsMerge(sch, a, b);
    if Complete(sch, a) && Complete(sch, b) {
      MergeComplete(sch, a, b);
    }
  }
}
