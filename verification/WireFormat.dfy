/**
  The wire format once more, in the numbers of the "Protocol Buffers Encoding"
  document: the bytes of every message, and what the parser makes of every kind of
  record. The functions the code is proved against are shown to be these.
 */
module WireFormat {
  import opened Wire
  import opened Messages
  import opened ParseLaws
  import opened PlainLoop

  // ---------------------------------------------------------------- base 128 varints

  /** Seven bits to a byte, lowest first; the high bit says that more follow. */
  function Base128(n: nat): Bytes {
    if n < 128 then [n] else [n % 128 + 128] + Base128(n / 128)
  }

  function Base128Value(b: Bytes): nat {
    if b == [] then 0 else b[0] % 128 + 128 * Base128Value(b[1..])
  }

  predicate IsVarint(b: Bytes) {
    b != [] && b[|b| - 1] < 128 && forall i :: 0 <= i < |b| - 1 ==> b[i] >= 128
  }

  lemma {:induction false} EncodesBase128(n: nat)
    ensures EncodeVarint(n) == Base128(n)
  {
    if n >= 128 { EncodesBase128(n / 128); }
  }

  lemma {:induction false} Base128IsVarint(n: nat)
    ensures IsVarint(Base128(n)) && Base128Value(Base128(n)) == n
    ensures |Base128(n)| > 1 ==> Base128(n)[|Base128(n)| - 1] != 0
  {
    if n >= 128 {
      Base128IsVarint(n / 128);
      assert Base128(n)[1..] == Base128(n / 128);
    }
  }

  lemma {:induction false} ReadsVarintWithin(b: Bytes, k: nat, t: Bytes)
    requires IsVarint(b) && |b| <= k
    ensures ReadVarint(b + t, k) == Got(Base128Value(b), t)
  {
    assert (b + t)[1..] == b[1..] + t;
    if |b| == 1 {
      assert b[1..] + t == t;
    } else {
      ReadsVarintWithin(b[1..], k - 1, t);
    }
  }

  /** Any varint of at most ten bytes is read, the shortest or not. */
  lemma ReadsVarint(b: Bytes, t: Bytes)
    requires IsVarint(b) && |b| <= 10
    ensures ReadVarint(b + t, MAX_VARINT) == Got(Base128Value(b), t)
  {
    ReadsVarintWithin(b, 10, t);
  }

  lemma {:induction false} RejectsVarintWithin(s: Bytes, k: nat)
    ensures ReadVarint(s, k).Bad? <==> forall n :: 1 <= n <= k && n <= |s| ==> !IsVarint(s[..n])
  {
    if s != [] && k > 0 {
      if s[0] < 128 {
        assert IsVarint(s[..1]);
      } else {
        RejectsVarintWithin(s[1..], k - 1);
        forall n | 1 <= n <= k && n <= |s| ensures IsVarint(s[..n]) <==> n > 1 && IsVarint(s[1..][..n - 1]) {
          VarintTail(s, n);
        }
        assert forall n :: 1 <= n <= k - 1 && n <= |s| - 1 ==> (IsVarint(s[1..][..n]) <==> IsVarint(s[..n + 1]));
      }
    }
  }

  lemma VarintTail(s: Bytes, n: nat)
    requires 1 <= n <= |s| && s[0] >= 128
    ensures IsVarint(s[..n]) <==> n > 1 && IsVarint(s[1..][..n - 1])
  {
    if n > 1 {
      var a, b := s[..n], s[1..][..n - 1];
      assert a[1..] == b && a == [s[0]] + b;
    }
  }

  /** And nothing else is. */
  lemma RejectsVarint(s: Bytes)
    ensures ReadVarint(s, MAX_VARINT).Bad? <==> forall n :: 1 <= n <= 10 && n <= |s| ==> !IsVarint(s[..n])
  {
    RejectsVarintWithin(s, 10);
  }

  // ---------------------------------------------------------------- records

  function TypeNumber(p: Payload): nat {
    match p
    case Varint(_) => 0
    case Fixed64(_) => 1
    case Delimited(_) => 2
    case Group(_) => 3
    case Fixed32(_) => 5
  }

  function RecordBytes(r: Record): Bytes
    decreases r, 0
  {
    Base128(r.num * 8 + TypeNumber(r.payload)) +
    match r.payload
    case Varint(v) => Base128(v)
    case Fixed64(b) => b
    case Delimited(b) => Base128(|b|) + b
    case Group(rs) => RecordsBytes(rs) + Base128(r.num * 8 + 4)
    case Fixed32(b) => b
  }

  function RecordsBytes(rs: seq<Record>): Bytes
    decreases rs, 0
  {
    if rs == [] then [] else RecordBytes(rs[0]) + RecordsBytes(rs[1..])
  }

  lemma {:induction false} RecordWritten(r: Record)
    ensures EncodeRecord(r) == RecordBytes(r)
    decreases r, 0
  {
    EncodesBase128(r.num * 8 + TypeNumber(r.payload));
    match r.payload
    case Varint(v) => EncodesBase128(v);
    case Delimited(b) => EncodesBase128(|b|);
    case Group(rs) =>
      EncodesBase128(r.num * 8 + 4);
      RecordsWritten(rs);
    case _ =>
  }

  /** Records are written in these bytes, groups included. */
  lemma {:induction false} RecordsWritten(rs: seq<Record>)
    ensures Join(rs) == RecordsBytes(rs)
    decreases rs, 0
  {
    if rs != [] {
      RecordWritten(rs[0]);
      RecordsWritten(rs[1..]);
    }
  }

  // ---------------------------------------------------------------- what is written

  /** One value of a field: its tag and its payload. */
  function ValueBytes(f: Field, v: Val): Bytes
    decreases f, 0
  {
    match f.kind
    case KUInt32 => Base128(f.num * 8) + Base128(if v.Num? && v.n >= 0 then v.n else 0)
    case KInt32 =>
      var n := if v.Num? then v.n else 0;
      Base128(f.num * 8) + Base128(if n >= 0 then n else if n >= -2147483648 then n + 18446744073709551616 else 0)
    case KEnum(_) => Base128(f.num * 8) + Base128(if v.Num? && v.n >= 0 then v.n else 0)
    case KBool(_) => Base128(f.num * 8) + [if v == Flag(true) then 1 else 0]
    case KFloat => Base128(f.num * 8 + 5) + TextOf(v)
    case KBytes => Base128(f.num * 8 + 2) + Base128(|TextOf(v)|) + TextOf(v)
    case KMessage(sub) =>
      var inner := if v.Sub? && |v.m.slots| == |sub.fields| then MessageBytes(sub, v.m, 0) else [];
      Base128(f.num * 8 + 2) + Base128(|inner|) + inner
  }

  function TextOf(v: Val): Bytes {
    if v.Str? then v.s else []
  }

  /** The values of a field one after the other. */
  function FieldBytes(f: Field, x: seq<Val>): Bytes
    decreases f, 1, |x|
  {
    if x == [] then [] else ValueBytes(f, x[0]) + FieldBytes(f, x[1..])
  }

  /** The fields from the i-th on, in the order of the table. */
  function MessageBytes(sch: Schema, m: Msg, i: nat): Bytes
    requires |m.slots| == |sch.fields| && i <= |sch.fields|
    decreases sch, 0, |sch.fields| - i
  {
    if i == |sch.fields| then [] else FieldBytes(sch.fields[i], m.slots[i]) + MessageBytes(sch, m, i + 1)
  }

  lemma {:induction false} ValueWritten(f: Field, v: Val)
    requires ValidField(f) && Typed(f.kind, v)
    ensures EncodeRecord(Record(f.num, ValPayload(f.kind, v))) == ValueBytes(f, v)
    decreases f, 0
  {
    if f.kind.KMessage? {
      FieldsWritten(f.kind.sub, v.m, 0);
      SubWritten(f, v);
    } else {
      ScalarWritten(f, v);
    }
  }

  lemma SubWritten(f: Field, v: Val)
    requires f.kind.KMessage? && v.Sub? && |v.m.slots| == |f.kind.sub.fields|
    requires Serialize(f.kind.sub, v.m) == MessageBytes(f.kind.sub, v.m, 0)
    ensures EncodeRecord(Record(f.num, ValPayload(f.kind, v))) == ValueBytes(f, v)
  {
    EncodesBase128(f.num * 8 + 2);
    LengthThenBytes(f.num, MessageBytes(f.kind.sub, v.m, 0));
    assert ValPayload(f.kind, v) == Delimited(MessageBytes(f.kind.sub, v.m, 0));
  }

  lemma ScalarWritten(f: Field, v: Val)
    requires ValidField(f) && Typed(f.kind, v) && !f.kind.KMessage?
    ensures EncodeRecord(Record(f.num, ValPayload(f.kind, v))) == ValueBytes(f, v)
  {
    if f.kind.KBytes? {
      EncodesBase128(f.num * 8 + 2);
      LengthThenBytes(f.num, v.s);
    } else if f.kind.KFloat? {
      EncodesBase128(f.num * 8 + 5);
    } else {
      EncodesBase128(f.num * 8);
      NumberWritten(f, v);
    }
  }

  lemma LengthThenBytes(num: nat, b: Bytes)
    ensures EncodeVarint(|b|) == Base128(|b|)
    ensures Base128(num * 8 + 2) + (Base128(|b|) + b) == Base128(num * 8 + 2) + Base128(|b|) + b
  {
    EncodesBase128(|b|);
  }

  lemma NumberWritten(f: Field, v: Val)
    requires ValidField(f) && Typed(f.kind, v) && (f.kind.KUInt32? || f.kind.KInt32? || f.kind.KBool? || f.kind.KEnum?)
    ensures ValueBytes(f, v) == Base128(f.num * 8) + EncodeVarint(AsVarint(v))
  {
    EncodesBase128(AsVarint(v));
    if v.Num? {
      SignExtended(v.n);
    } else {
      assert Base128(AsVarint(v)) == [AsVarint(v)];
    }
  }

  lemma SignExtended(n: int)
    requires -2147483648 <= n < 4294967296
    ensures n % TWO64 == if n >= 0 then n else n + 18446744073709551616
  {
  }

  lemma {:induction false} FieldWritten(f: Field, x: seq<Val>)
    requires ValidField(f) && forall j :: 0 <= j < |x| ==> Typed(f.kind, x[j])
    ensures Join(SlotRecords(f, x)) == FieldBytes(f, x)
    decreases f, 1, |x|
  {
    if x != [] {
      assert SlotRecords(f, x)[1..] == SlotRecords(f, x[1..]);
      ValueWritten(f, x[0]);
      FieldWritten(f, x[1..]);
    }
  }

  lemma {:induction false} FieldsWritten(sch: Schema, m: Msg, i: nat)
    requires ValidSchema(sch) && WellTyped(sch, m) && i <= |sch.fields|
    ensures Join(RecordsFrom(sch, m, i)) == MessageBytes(sch, m, i)
    decreases sch, 0, |sch.fields| - i
  {
    if i < |sch.fields| {
      assert SlotTyped(sch.fields[i], m.slots[i]);
      JoinConcat(SlotRecords(sch.fields[i], m.slots[i]), RecordsFrom(sch, m, i + 1));
      FieldWritten(sch.fields[i], m.slots[i]);
      FieldsWritten(sch, m, i + 1);
    }
  }

  /** Every message is serialized to these bytes: fields in order, each value with its own tag. */
  lemma SerializesAsSpecified(sch: Schema, m: Msg)
    requires ValidSchema(sch) && WellTyped(sch, m)
    ensures Serialize(sch, m) == MessageBytes(sch, m, 0)
  {
    FieldsWritten(sch, m, 0);
  }

  /** A message that holds one field only. */
  lemma OnlyField(sch: Schema, i: nat, x: seq<Val>)
    requires ValidSchema(sch) && i < |sch.fields| && SlotTyped(sch.fields[i], x)
    ensures Serialize(sch, Msg(Empty(sch).slots[i := x])) == FieldBytes(sch.fields[i], x)
  {
    var m := Msg(Empty(sch).slots[i := x]);
    assert WellTyped(sch, m);
    SerializesAsSpecified(sch, m);
    OnlyFieldFrom(sch, m, i, 0);
  }

  lemma {:induction false} NothingFrom(sch: Schema, m: Msg, k: nat)
    requires |m.slots| == |sch.fields| && k <= |sch.fields| && forall l :: k <= l < |sch.fields| ==> m.slots[l] == []
    ensures MessageBytes(sch, m, k) == []
    decreases |sch.fields| - k
  {
    if k < |sch.fields| {
      NothingFrom(sch, m, k + 1);
      assert FieldBytes(sch.fields[k], m.slots[k]) == [];
    }
  }

  lemma {:induction false} OnlyFieldFrom(sch: Schema, m: Msg, i: nat, k: nat)
    requires |m.slots| == |sch.fields| && k <= i < |sch.fields|
    requires forall l :: 0 <= l < |sch.fields| && l != i ==> m.slots[l] == []
    ensures MessageBytes(sch, m, k) == FieldBytes(sch.fields[i], m.slots[i])
    decreases i - k
  {
    var here, more := FieldBytes(sch.fields[k], m.slots[k]), MessageBytes(sch, m, k + 1);
    if k == i {
      NothingFrom(sch, m, i + 1);
      assert here + [] == here;
    } else {
      OnlyFieldFrom(sch, m, i, k + 1);
      assert [] + more == more;
    }
  }

  // ---------------------------------------------------------------- what is read

  /** The wire types a field takes. */
  predicate Takes(f: Field, wt: nat) {
    match f.kind
    case KFloat => wt == 5
    case KBytes => wt == 2
    case KMessage(_) => wt == 2
    case KUInt32 => wt == 0 || (wt == 2 && f.rule.Repeated?)
    case KInt32 => wt == 0 || (wt == 2 && f.rule.Repeated?)
    case _ => wt == 0
  }

  /** A tag in any encoding of at most ten bytes. */
  predicate IsTag(t: Bytes, num: nat, wt: nat) {
    IsVarint(t) && |t| <= 10 && Base128Value(t) % 4294967296 == num * 8 + wt
  }

  /** What a varint is worth to a kind of number: 32 bits of it, and nothing outside an enum. */
  function NumberOf(k: Kind, v: nat): seq<Val> {
    var u := v % 4294967296;
    match k
    case KUInt32 => [Num(u)]
    case KInt32 => [Num(if u < 2147483648 then u else u - 4294967296)]
    case KBool(_) => [Flag(u != 0)]
    case KEnum(max) => if u <= max then [Num(u)] else []
    case _ => []
  }

  lemma NumbersAsSpecified(k: Kind, v: nat)
    requires k.KEnum? ==> k.max < 2147483648
    ensures DecodeVarint(k, v) == NumberOf(k, v)
  {
  }

  /** The wire type of a field, or its packed one. */
  function OwnType(f: Field, packed: bool): nat {
    match f.kind
    case KFloat => 5
    case KBytes => 2
    case KMessage(_) => 2
    case _ => if packed then 2 else 0
  }

  /** After the tag of a field the loop goes on from the payload. */
  lemma AfterItsTag(lib: Library, sch: Schema, m: Msg, i: nat, packed: bool, t: Bytes, s: Bytes)
    requires ValidSchema(sch) && Shaped(sch, m) && i < |sch.fields| && (packed ==> Packable(sch.fields[i]))
    requires IsTag(t, sch.fields[i].num, OwnType(sch.fields[i], packed))
    ensures var f := sch.fields[i];
            var r := ReadSlot(lib, f, m.slots[i], packed, s);
            var m' := Msg(m.slots[i := r.x]);
            Loop(lib, sch, m, t + s) == if r.ok then Loop(lib, sch, m', r.rest) else Outcome(false, m', r.rest, r.clean)
  {
    var f := sch.fields[i];
    TagInNumbers(f, packed);
    TagThenRest(lib, sch, m, Tag(f.num, FieldWireType(f, packed)), t, s);
    AfterFieldTag(lib, sch, m, i, packed, s);
  }

  lemma TagInNumbers(f: Field, packed: bool)
    requires packed ==> Packable(f)
    ensures Tag(f.num, FieldWireType(f, packed)) == f.num * 8 + OwnType(f, packed)
  {
  }

  lemma TagThenRest(lib: Library, sch: Schema, m: Msg, tag: nat, t: Bytes, s: Bytes)
    requires Shaped(sch, m) && IsVarint(t) && |t| <= 10 && Base128Value(t) % 4294967296 == tag
    ensures Loop(lib, sch, m, t + s) == AfterTag(lib, sch, m, tag, s)
  {
    ReadsVarint(t, s);
    assert t + s != [];
  }

  /** What a single value d (or none) makes of a slot: appended if repeated, otherwise last one wins. */
  function WithValue(f: Field, x: seq<Val>, d: seq<Val>): seq<Val> {
    if f.rule.Repeated? then x + d else if d == [] then x else d
  }

  /** A number, bool or enum: tag and varint. */
  lemma ReadsNumber(lib: Library, sch: Schema, m: Msg, i: nat, t: Bytes, b: Bytes, rest: Bytes)
    requires ValidSchema(sch) && Shaped(sch, m) && i < |sch.fields| && Takes(sch.fields[i], 0)
    requires IsTag(t, sch.fields[i].num, 0) && IsVarint(b) && |b| <= 10
    ensures var f := sch.fields[i];
            Loop(lib, sch, m, t + (b + rest))
              == Loop(lib, sch, Msg(m.slots[i := WithValue(f, m.slots[i], NumberOf(f.kind, Base128Value(b)))]), rest)
  {
    assert ValidField(sch.fields[i]);
    AfterItsTag(lib, sch, m, i, false, t, b + rest);
    ReadsVarint(b, rest);
    NumbersAsSpecified(sch.fields[i].kind, Base128Value(b));
  }

  /** Tag and number in one byte each. */
  lemma ReadsShort(lib: Library, sch: Schema, m: Msg, i: nat, t: Byte, n: Byte, rest: Bytes)
    requires ValidSchema(sch) && Shaped(sch, m) && i < |sch.fields| && Takes(sch.fields[i], 0)
    requires t == sch.fields[i].num * 8 && t < 128 && n < 128
    ensures var f := sch.fields[i];
            Loop(lib, sch, m, [t] + ([n] + rest))
              == Loop(lib, sch, Msg(m.slots[i := WithValue(f, m.slots[i], NumberOf(f.kind, n))]), rest)
  {
    OneByte(t);
    OneByte(n);
    ReadsNumber(lib, sch, m, i, [t], [n], rest);
  }

  lemma OneByte(n: Byte)
    requires n < 128
    ensures IsVarint([n]) && Base128Value([n]) == n && Base128(n) == [n]
  {
  }

  /** A float: tag and four bytes. */
  lemma ReadsFloat(lib: Library, sch: Schema, m: Msg, i: nat, t: Bytes, b: Bytes, rest: Bytes)
    requires ValidSchema(sch) && Shaped(sch, m) && i < |sch.fields| && Takes(sch.fields[i], 5)
    requires IsTag(t, sch.fields[i].num, 5) && |b| == 4
    ensures Loop(lib, sch, m, t + (b + rest)) == Loop(lib, sch, Msg(m.slots[i := [Str(b)]]), rest)
  {
    AfterItsTag(lib, sch, m, i, false, t, b + rest);
    assert (b + rest)[..4] == b && (b + rest)[4..] == rest;
  }

  /** n is a varint for the length of b. */
  predicate IsLength(n: Bytes, b: Bytes) {
    IsVarint(n) && |n| <= 10 && Base128Value(n) % 4294967296 == |b|
  }

  lemma ReadsDelimited(n: Bytes, b: Bytes, rest: Bytes)
    requires IsLength(n, b)
    ensures ReadDelimited(n + (b + rest)) == Got(b, rest)
  {
    ReadsVarint(n, b + rest);
    assert (b + rest)[..|b|] == b && (b + rest)[|b|..] == rest;
  }

  /** A string or bytes: tag, length and contents. */
  lemma ReadsText(lib: Library, sch: Schema, m: Msg, i: nat, t: Bytes, n: Bytes, b: Bytes, rest: Bytes)
    requires ValidSchema(sch) && Shaped(sch, m) && i < |sch.fields| && sch.fields[i].kind.KBytes?
    requires IsTag(t, sch.fields[i].num, 2) && IsLength(n, b)
    ensures Loop(lib, sch, m, t + (n + (b + rest)))
         == Loop(lib, sch, Msg(m.slots[i := WithValue(sch.fields[i], m.slots[i], [Str(b)])]), rest)
  {
    AfterItsTag(lib, sch, m, i, false, t, n + (b + rest));
    ReadsDelimited(n, b, rest);
    assert [] + [Str(b)] == [Str(b)];
  }

  /** The message that a nested one is read into: the one there, or an empty one. */
  function Before(f: Field, x: seq<Val>): Msg
    requires f.kind.KMessage?
  {
    if f.rule.Repeated? || x == [] || !x[0].Sub? || |x[0].m.slots| != |f.kind.sub.fields|
    then Msg(seq(|f.kind.sub.fields|, k => [])) else x[0].m
  }

  /** A nested message: tag, length, and its own bytes, which are merged into the submessage or appended. */
  lemma ReadsMessage(lib: Library, sch: Schema, m: Msg, i: nat, t: Bytes, n: Bytes, b: Bytes, rest: Bytes)
    requires ValidSchema(sch) && Shaped(sch, m) && i < |sch.fields| && sch.fields[i].kind.KMessage?
    requires IsTag(t, sch.fields[i].num, 2) && IsLength(n, b)
    ensures var f, x := sch.fields[i], m.slots[i];
            var sub := f.kind.sub;
            var o := Loop(lib, sub, Before(f, x), b);
            var m' := Msg(m.slots[i := (if f.rule.Repeated? then x else []) + [Sub(o.m)]]);
            Loop(lib, sch, m, t + (n + (b + rest)))
              == if o.ok && o.clean then Loop(lib, sch, m', rest) else Outcome(false, m', o.rest + rest, o.clean)
  {
    AfterItsTag(lib, sch, m, i, false, t, n + (b + rest));
    ReadsSub(lib, sch.fields[i], m.slots[i], n, b, rest);
  }

  lemma ReadsSub(lib: Library, f: Field, x: seq<Val>, n: Bytes, b: Bytes, rest: Bytes)
    requires f.kind.KMessage? && IsLength(n, b)
    ensures var sub := f.kind.sub;
            var o := Loop(lib, sub, Before(f, x), b);
            var y := (if f.rule.Repeated? then x else []) + [Sub(o.m)];
            ReadSlot(lib, f, x, false, n + (b + rest))
              == if o.ok && o.clean then SlotRead(true, y, rest, false) else SlotRead(false, y, o.rest + rest, o.clean)
  {
    ReadsDelimited(n, b, rest);
    assert Before(f, x) == SlotBase(f, x);
    var s, o := n + (b + rest), Loop(lib, f.kind.sub, Before(f, x), b);
    assert Nested(lib, f.kind.sub, Before(f, x), s)
        == if o.ok && o.clean then Outcome(true, o.m, rest, false) else Outcome(false, o.m, o.rest + rest, o.clean);
    assert Kept(f, x) == if f.rule.Repeated? then x else [];
    assert ReadSlot(lib, f, x, false, s) == ReadSubSlot(lib, f, x, s);
  }

  function Concat(bs: seq<Bytes>): Bytes {
    if bs == [] then [] else bs[0] + Concat(bs[1..])
  }

  function NumbersOf(k: Kind, bs: seq<Bytes>): seq<Val> {
    if bs == [] then [] else NumberOf(k, Base128Value(bs[0])) + NumbersOf(k, bs[1..])
  }

  ghost predicate AreVarints(bs: seq<Bytes>) {
    forall j :: 0 <= j < |bs| ==> IsVarint(bs[j]) && |bs[j]| <= 10
  }

  lemma {:induction false} ReadsValues(lib: Library, k: Kind, x: seq<Val>, bs: seq<Bytes>, bad: Bytes)
    requires AreVarints(bs) && !k.KEnum?
    ensures ReadValues(lib, k, x, Concat(bs) + bad) == ReadValues(lib, k, x + NumbersOf(k, bs), bad)
    decreases |bs|
  {
    if bs == [] {
      assert Concat(bs) + bad == bad && x + [] == x;
    } else {
      var d, more := NumberOf(k, Base128Value(bs[0])), NumbersOf(k, bs[1..]);
      assert Concat(bs) + bad == bs[0] + (Concat(bs[1..]) + bad);
      ReadsVarint(bs[0], Concat(bs[1..]) + bad);
      NumbersAsSpecified(k, Base128Value(bs[0]));
      ReadsValues(lib, k, x + d, bs[1..], bad);
      assert x + d + more == x + (d + more);
    }
  }

  /**
    A packed field: tag, length, and varints one after the other. If what follows
    them within the length is no varint the parser fails, and keeps the values before.
   */
  lemma ReadsPacked(lib: Library, sch: Schema, m: Msg, i: nat, t: Bytes, n: Bytes,
                    bs: seq<Bytes>, bad: Bytes, rest: Bytes)
    requires ValidSchema(sch) && Shaped(sch, m) && i < |sch.fields|
    requires Takes(sch.fields[i], 0) && Takes(sch.fields[i], 2)
    requires IsTag(t, sch.fields[i].num, 2) && AreVarints(bs) && IsLength(n, Concat(bs) + bad)
    requires forall k :: 1 <= k <= 10 && k <= |bad| ==> !IsVarint(bad[..k])
    ensures var m' := Msg(m.slots[i := m.slots[i] + NumbersOf(sch.fields[i].kind, bs)]);
            var o := Loop(lib, sch, m, t + (n + ((Concat(bs) + bad) + rest)));
            if bad == [] then o == Loop(lib, sch, m', rest) else !o.ok && o.m == m' && !o.clean
  {
    AfterItsTag(lib, sch, m, i, true, t, n + ((Concat(bs) + bad) + rest));
    ReadsDelimited(n, Concat(bs) + bad, rest);
    ReadsValues(lib, sch.fields[i].kind, m.slots[i], bs, bad);
    RejectsVarint(bad);
    assert [] + rest == rest;
  }

  /** A number or float that cannot be read: the parser fails, and the message is as it was. */
  lemma ReadsTornNumber(lib: Library, sch: Schema, m: Msg, i: nat, t: Bytes, s: Bytes)
    requires ValidSchema(sch) && Shaped(sch, m) && i < |sch.fields|
    requires IsTag(t, sch.fields[i].num, OwnType(sch.fields[i], false))
    requires if sch.fields[i].kind.KFloat? then |s| < 4
             else Takes(sch.fields[i], 0) && forall k :: 1 <= k <= 10 && k <= |s| ==> !IsVarint(s[..k])
    ensures var o := Loop(lib, sch, m, t + s); !o.ok && o.m == m && !o.clean
  {
    AfterItsTag(lib, sch, m, i, false, t, s);
    RejectsVarint(s);
    assert m.slots[i := m.slots[i]] == m.slots;
  }

  /** A string that cannot be read: it is there, with whatever the library left in it. */
  lemma ReadsTornText(lib: Library, sch: Schema, m: Msg, i: nat, t: Bytes, s: Bytes)
    requires ValidSchema(sch) && Shaped(sch, m) && i < |sch.fields| && sch.fields[i].kind.KBytes?
    requires IsTag(t, sch.fields[i].num, 2) && ReadDelimited(s).Bad?
    ensures var f, x := sch.fields[i], m.slots[i];
            var was := if f.rule.Repeated? || x == [] then [] else TextOf(x[0]);
            var o := Loop(lib, sch, m, t + s);
            !o.ok && o.m == Msg(m.slots[i := WithValue(f, x, [Str(lib.torn(was, s))])]) && !o.clean
  {
    var f, x := sch.fields[i], m.slots[i];
    AfterItsTag(lib, sch, m, i, false, t, s);
    var torn := [Str(lib.torn(OldText(f, x), s))];
    assert [] + torn == torn;
    assert ReadSlot(lib, f, x, false, s) == ReadTextSlot(lib, f, x, s);
  }

  /** A nested message without its length or cut short: the submessage is there, as it was or empty. */
  lemma ReadsTornMessage(lib: Library, sch: Schema, m: Msg, i: nat, t: Bytes, s: Bytes)
    requires ValidSchema(sch) && Shaped(sch, m) && i < |sch.fields| && sch.fields[i].kind.KMessage?
    requires IsTag(t, sch.fields[i].num, 2) && ReadDelimited(s).Bad?
    ensures var f, x := sch.fields[i], m.slots[i];
            var o := Loop(lib, sch, m, t + s);
            !o.ok && o.m == Msg(m.slots[i := (if f.rule.Repeated? then x else []) + [Sub(Before(f, x))]]) && !o.clean
  {
    AfterItsTag(lib, sch, m, i, false, t, s);
    TornSub(lib, sch.fields[i], m.slots[i], s);
  }

  lemma TornSub(lib: Library, f: Field, x: seq<Val>, s: Bytes)
    requires f.kind.KMessage? && ReadDelimited(s).Bad?
    ensures var r := ReadSlot(lib, f, x, false, s);
            !r.ok && !r.clean && r.x == (if f.rule.Repeated? then x else []) + [Sub(Before(f, x))]
  {
    assert Before(f, x) == SlotBase(f, x);
    assert ReadSlot(lib, f, x, false, s) == ReadSubSlot(lib, f, x, s);
  }

  // ---------------------------------------------------------------- what is skipped, and where it ends

  /** No field has this number with a wire type it takes. */
  predicate Unknown(sch: Schema, num: nat, wt: nat) {
    forall i :: 0 <= i < |sch.fields| ==> !(sch.fields[i].num == num && Takes(sch.fields[i], wt))
  }

  /** A record that no field takes, a whole group included, is passed over. */
  lemma SkipsUnknown(lib: Library, sch: Schema, m: Msg, r: Record, rest: Bytes)
    requires Shaped(sch, m) && ValidRecord(r) && Unknown(sch, r.num, TypeNumber(r.payload))
    ensures Loop(lib, sch, m, RecordBytes(r) + rest) == Loop(lib, sch, m, rest)
  {
    RecordWritten(r);
    ReadEncodedRecord(r, rest);
    var i := Target(sch, r.num, WireType(r.payload));
    if i < |sch.fields| {
      assert Takes(sch.fields[i], TypeNumber(r.payload));
    }
  }

  /** The loop returns true at the end, and also, but not cleanly, on a zero tag or an end-group tag. */
  lemma Stops(lib: Library, sch: Schema, m: Msg, t: Bytes, rest: Bytes)
    requires Shaped(sch, m) && IsVarint(t) && |t| <= 10
    requires Base128Value(t) % 4294967296 == 0 || Base128Value(t) % 8 == 4
    ensures Loop(lib, sch, m, []) == Outcome(true, m, [], true)
    ensures Loop(lib, sch, m, t + rest) == Outcome(true, m, rest, false)
  {
    ReadsVarint(t, rest);
    LowBits(Base128Value(t));
    assert t + rest != [];
  }

  lemma LowBits(v: nat)
    ensures v % 4294967296 % 8 == v % 8
  {
    var k, r := 536870912 * (v / 4294967296), v % 4294967296;
    assert v == 8 * k + r;
    AddEights(k, r);
  }

  lemma AddEights(k: nat, r: nat)
    ensures (8 * k + r) % 8 == r % 8
  {
  }

  /** Whatever follows well-formed records, what they have made of the message stays. */
  lemma {:induction false} KeepsWhatWasRead(lib: Library, sch: Schema, m: Msg, rs: seq<Record>, s: Bytes)
    requires ValidSchema(sch) && Shaped(sch, m) && ValidRecords(rs) && Fold(sch, m, rs).Some?
    ensures Loop(lib, sch, m, RecordsBytes(rs) + s) == Loop(lib, sch, Fold(sch, m, rs).value, s)
    decreases |rs|
  {
    if rs == [] {
      assert RecordsBytes(rs) + s == s;
    } else {
      var more := RecordsBytes(rs[1..]) + s;
      assert RecordsBytes(rs) + s == RecordBytes(rs[0]) + more;
      RecordWritten(rs[0]);
      ReadEncodedRecord(rs[0], more);
      assert RecordBytes(rs[0]) + more != [] by { NotEmpty(rs[0]); }
      LoopStep(lib, sch, m, RecordBytes(rs[0]) + more);
      KeepsWhatWasRead(lib, sch, Apply(sch, m, rs[0]).value, rs[1..], s);
    }
  }

  lemma NotEmpty(r: Record)
    ensures RecordBytes(r) != []
  {
    Base128IsVarint(r.num * 8 + TypeNumber(r.payload));
  }
}
