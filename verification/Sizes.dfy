/** The arithmetic of ByteSize(): sizes of tags, data and members, and sums of them in any order. */
module Sizes {
  import opened Wire
  import opened Messages

  function VarintSize(n: nat): nat { |EncodeVarint(n)| }

  /** The constant 1 or 2 the generated code adds for a tag. */
  function TagSize(num: nat): nat {
    if num < 16 then 1 else if num < 2048 then 2 else VarintSize(num * 8)
  }

  lemma TagSizeRight(num: nat, wt: nat)
    requires wt < 8
    ensures VarintSize(Tag(num, wt)) == TagSize(num)
  {
    assert Tag(num, wt) / 0x80 == num / 16 && (num * 8) / 0x80 == num / 16;
    if 16 <= num < 2048 {
      assert VarintSize(num / 16) == 1;
    }
  }

  /** UInt32Size, Int32Size, EnumSize, StringSize, BytesSize, MessageSize, and the constants 1 and 4. */
  function DataSize(k: Kind, v: Val): nat {
    match k
    case KBool(_) => 1
    case KFloat => 4
    case KBytes => VarintSize(|AsBytes(v)|) + |AsBytes(v)|
    case KMessage(sub) => LengthDelimited(|Serialize(sub, SubOf(sub, [v]))|)
    case _ => VarintSize(AsVarint(v))
  }

  function LengthDelimited(n: nat): nat { VarintSize(n) + n }

  lemma RecordSize(f: Field, v: Val)
    requires Typed(f.kind, v)
    ensures |EncodeRecord(Record(f.num, ValPayload(f.kind, v)))| == TagSize(f.num) + DataSize(f.kind, v)
  {
    TagSizeRight(f.num, NaturalWireType(f.kind));
  }

  function DataSum(k: Kind, x: seq<Val>): nat {
    if x == [] then 0 else DataSum(k, x[..|x| - 1]) + DataSize(k, x[|x| - 1])
  }

  lemma OneValueSize(f: Field, x: seq<Val>)
    requires |x| == 1
    ensures TagSize(f.num) * |x| + DataSum(f.kind, x) == TagSize(f.num) + DataSize(f.kind, x[0])
  {
    assert x[..0] == [];
  }

  function SlotSize(f: Field, x: seq<Val>): nat { |Join(SlotRecords(f, x))| }

  lemma OneMore(t: nat, n: nat)
    ensures t * (n + 1) == t * n + t
  {
  }

  lemma SlotSizeStep(f: Field, x: seq<Val>)
    requires x != [] && Typed(f.kind, x[|x| - 1])
    ensures SlotSize(f, x) == SlotSize(f, x[..|x| - 1]) + TagSize(f.num) + DataSize(f.kind, x[|x| - 1])
  {
    var n := |x| - 1;
    var last := Record(f.num, ValPayload(f.kind, x[n]));
    assert SlotRecords(f, x) == SlotRecords(f, x[..n]) + [last];
    JoinConcat(SlotRecords(f, x[..n]), [last]);
    JoinOne(last);
    RecordSize(f, x[n]);
  }

  lemma {:induction false} SlotSizeIsSum(f: Field, x: seq<Val>)
    requires forall j :: 0 <= j < |x| ==> Typed(f.kind, x[j])
    ensures SlotSize(f, x) == TagSize(f.num) * |x| + DataSum(f.kind, x)
    decreases |x|
  {
    var t := TagSize(f.num);
    if x == [] {
      assert SlotRecords(f, x) == [];
      assert t * |x| == 0;
    } else {
      SlotSizeStep(f, x);
      SlotSizeIsSum(f, x[..|x| - 1]);
      OneMore(t, |x| - 1);
    }
  }

  function SlotSizes(sch: Schema, m: Msg): seq<nat>
    requires Shaped(sch, m)
  {
    seq(|sch.fields|, i requires 0 <= i < |sch.fields| => SlotSize(sch.fields[i], m.slots[i]))
  }

  /** The sum, from index i on, of the sizes whose index has been visited. */
  function SumFrom(ns: seq<nat>, done: set<nat>, i: nat): nat
    requires i <= |ns|
    decreases |ns| - i
  {
    if i == |ns| then 0 else (if i in done then ns[i] else 0) + SumFrom(ns, done, i + 1)
  }

  lemma {:induction false} SumVisit(ns: seq<nat>, done: set<nat>, k: nat, i: nat)
    requires i <= |ns| && k < |ns| && k !in done
    ensures SumFrom(ns, done + {k}, i) == SumFrom(ns, done, i) + if i <= k then ns[k] else 0
    decreases |ns| - i
  {
    if i < |ns| {
      SumVisit(ns, done, k, i + 1);
    }
  }

  lemma {:induction false} SumNone(ns: seq<nat>, i: nat)
    requires i <= |ns|
    ensures SumFrom(ns, {}, i) == 0
    decreases |ns| - i
  {
    if i < |ns| {
      SumNone(ns, i + 1);
    }
  }

  /** Once every field has been visited, in whatever order, the sum is the serialized length. */
  lemma {:induction false} SumAllIsLength(sch: Schema, m: Msg, done: set<nat>, i: nat)
    requires Shaped(sch, m) && i <= |sch.fields|
    requires forall k :: 0 <= k < |sch.fields| ==> k in done
    ensures SumFrom(SlotSizes(sch, m), done, i) == |Join(RecordsFrom(sch, m, i))|
    decreases |sch.fields| - i
  {
    if i < |sch.fields| {
      JoinConcat(SlotRecords(sch.fields[i], m.slots[i]), RecordsFrom(sch, m, i + 1));
      SumAllIsLength(sch, m, done, i + 1);
    }
  }
}
