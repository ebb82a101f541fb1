/** The numbers that appear in the generated code, table by table, and some messages byte by byte. */
module GeneratedCode {
  import opened Wire
  import opened Messages
  import opened HasBits
  import opened Objects
  import opened PlainLoop
  import opened MessageObjects
  import opened MumbleSchemas
  import opened WireFormat
  import Paths

  // ---------------------------------------------------------------- tags and masks

  /** The arguments of the ExpectTag calls, with that of the first field. */
  function Tags(sch: Schema): (ts: seq<nat>)
    ensures |ts| == |sch.fields| && forall i :: 0 <= i < |ts| ==> ts[i] == FieldTag(sch.fields[i])
  {
    seq(|sch.fields|, i requires 0 <= i < |sch.fields| => FieldTag(sch.fields[i]))
  }

  lemma TagsAsGenerated()
    ensures Tags(VERSION) == [8, 18, 26, 34]
    ensures Tags(REJECT) == [8, 18]
    ensures Tags(CHANNEL_STATE) == [8, 16, 26, 32, 42, 48, 56, 64, 72, 82]
    ensures Tags(BAN_ENTRY) == [10, 16, 26, 34, 42, 50, 56]
    ensures Tags(BAN_LIST) == [10, 16]
    ensures Tags(CHAN_GROUP) == [10, 16, 24, 32, 40, 48, 56]
    ensures Tags(CHAN_ACL) == [8, 16, 24, 32, 42, 48, 56]
    ensures Tags(ACL) == [8, 16, 26, 34, 40]
    ensures Tags(STATS) == [8, 16, 24, 32]
  {
  }

  lemma UserStatsTagsAsGenerated()
    ensures Tags(USER_STATS)
         == [8, 16, 26, 34, 42, 48, 56, 69, 77, 85, 93, 98, 104, 114, 120, 128, 136, 144, 152]
  {
  }

  /** The masks of single fields and of groups. */
  lemma MasksAsGenerated()
    ensures Mask(0) == 0x1 && Mask(1) == 0x2 && Mask(3) == 0x8 && Mask(8) == 0x100 && Mask(18) == 0x40000
    ensures GroupMask(0) == 0xff && GroupMask(1) == 0x1fe && GroupMask(8) == 0xff00 && GroupMask(16) == 0xff0000
  {
  }

  // ---------------------------------------------------------------- one field of each wire type, byte by byte

  lemma TwoBytes(n: nat)
    requires 128 <= n < 16384
    ensures Base128(n) == [n % 128 + 128, n / 128]
  {
  }

  /** UserStats.udp_ping_avg: tag 69 and four bytes. */
  lemma UdpPingAverage(lib: Library, m: Msg, b: Bytes, rest: Bytes)
    requires Shaped(USER_STATS, m) && |b| == 4
    ensures Loop(lib, USER_STATS, m, [69] + (b + rest)) == Loop(lib, USER_STATS, Msg(m.slots[7 := [Str(b)]]), rest)
    ensures Serialize(USER_STATS, Msg(Empty(USER_STATS).slots[7 := [Str(b)]])) == [69] + b
  {
    UserStatsValid();
    ReadsFloat(lib, USER_STATS, m, 7, [69], b, rest);
    OnlyField(USER_STATS, 7, [Str(b)]);
    var f := USER_STATS.fields[7];
    assert FieldBytes(f, [Str(b)]) == [69] + b + [];
  }

  const MINUS_ONE: Bytes := [255, 255, 255, 255, 255, 255, 255, 255, 255, 1]

  /** ChannelState.position: tag 72 and a varint; minus one takes ten bytes. */
  lemma NegativePosition(lib: Library, m: Msg, rest: Bytes)
    requires Shaped(CHANNEL_STATE, m)
    ensures Loop(lib, CHANNEL_STATE, m, [72] + (MINUS_ONE + rest))
         == Loop(lib, CHANNEL_STATE, Msg(m.slots[8 := [Num(-1)]]), rest)
    ensures Serialize(CHANNEL_STATE, Msg(Empty(CHANNEL_STATE).slots[8 := [Num(-1)]])) == [72] + MINUS_ONE
  {
    ChannelStateValid();
    MinusOneRead();
    OneByte(72);
    ReadsNumber(lib, CHANNEL_STATE, m, 8, [72], MINUS_ONE, rest);
    WritesMinusOne();
  }

  lemma MinusOneRead()
    ensures IsVarint(MINUS_ONE) && |MINUS_ONE| == 10
    ensures NumberOf(KInt32, Base128Value(MINUS_ONE)) == [Num(-1)]
  {
    var n: nat :| n == 18446744073709551615;
    MinusOne();
    Base128IsVarint(n);
    assert n % 4294967296 == 4294967295;
  }

  lemma WritesMinusOne()
    ensures Serialize(CHANNEL_STATE, Msg(Empty(CHANNEL_STATE).slots[8 := [Num(-1)]])) == [72] + MINUS_ONE
  {
    ChannelStateValid();
    MinusOne();
    OnlyField(CHANNEL_STATE, 8, [Num(-1)]);
    assert ValueBytes(CHANNEL_STATE.fields[8], Num(-1)) == Base128(72) + MINUS_ONE;
    OneByte(72);
    assert [72] + MINUS_ONE + [] == [72] + MINUS_ONE;
  }

  lemma MinusOne()
    ensures Base128(18446744073709551615) == MINUS_ONE
  {
    assert Base128(1) == [1];
    assert Base128(255) == [255, 1];
    assert Base128(32767) == [255, 255, 1];
    assert Base128(4194303) == [255, 255, 255, 1];
    assert Base128(536870911) == [255, 255, 255, 255, 1];
    assert Base128(68719476735) == [255] + Base128(536870911);
    assert Base128(8796093022207) == [255] + Base128(68719476735);
    assert Base128(1125899906842623) == [255] + Base128(8796093022207);
    assert Base128(144115188075855871) == [255] + Base128(1125899906842623);
    assert Base128(18446744073709551615) == [255] + Base128(144115188075855871);
  }

  /** ChannelState.name: tag 26, the length, and the bytes. */
  lemma ChannelName(lib: Library, m: Msg, b: Bytes, rest: Bytes)
    requires Shaped(CHANNEL_STATE, m) && |b| < 128
    ensures Loop(lib, CHANNEL_STATE, m, [26] + ([|b|] + (b + rest)))
         == Loop(lib, CHANNEL_STATE, Msg(m.slots[2 := [Str(b)]]), rest)
    ensures Serialize(CHANNEL_STATE, Msg(Empty(CHANNEL_STATE).slots[2 := [Str(b)]])) == [26] + [|b|] + b
  {
    ChannelStateValid();
    OneByte(26);
    OneByte(|b|);
    ReadsText(lib, CHANNEL_STATE, m, 2, [26], [|b|], b, rest);
    WritesChannelName(b);
  }

  lemma WritesChannelName(b: Bytes)
    requires |b| < 128
    ensures Serialize(CHANNEL_STATE, Msg(Empty(CHANNEL_STATE).slots[2 := [Str(b)]])) == [26] + [|b|] + b
  {
    ChannelStateValid();
    OneByte(26);
    OneByte(|b|);
    OnlyField(CHANNEL_STATE, 2, [Str(b)]);
    assert FieldBytes(CHANNEL_STATE.fields[2], [Str(b)]) == [26] + [|b|] + b + [];
  }

  /** UserStats.opus: a tag of two bytes. */
  lemma Opus(lib: Library, m: Msg, rest: Bytes)
    requires Shaped(USER_STATS, m)
    ensures Loop(lib, USER_STATS, m, [152, 1] + ([1] + rest))
         == Loop(lib, USER_STATS, Msg(m.slots[18 := [Flag(true)]]), rest)
    ensures Serialize(USER_STATS, Msg(Empty(USER_STATS).slots[18 := [Flag(true)]])) == [152, 1] + [1]
  {
    UserStatsValid();
    OneByte(1);
    TwoBytes(152);
    Base128IsVarint(152);
    ReadsNumber(lib, USER_STATS, m, 18, [152, 1], [1], rest);
    WritesOpus();
  }

  lemma WritesOpus()
    ensures Serialize(USER_STATS, Msg(Empty(USER_STATS).slots[18 := [Flag(true)]])) == [152, 1] + [1]
  {
    UserStatsValid();
    TwoBytes(152);
    OnlyField(USER_STATS, 18, [Flag(true)]);
    assert FieldBytes(USER_STATS.fields[18], [Flag(true)]) == [152, 1] + [1] + [];
  }

  /** Reject.type: the numbers 0 to 8 are types, 9 is not and changes nothing. */
  lemma RejectTypes(lib: Library, m: Msg, n: Byte, rest: Bytes)
    requires Shaped(REJECT, m) && n < 128
    ensures Loop(lib, REJECT, m, [8] + ([n] + rest))
         == Loop(lib, REJECT, if n <= 8 then Msg(m.slots[0 := [Num(n)]]) else m, rest)
  {
    RejectValid();
    var f := Field(1, Optional, KEnum(8));
    assert REJECT.fields[0] == f && Takes(f, 0);
    assert WithValue(f, m.slots[0], NumberOf(KEnum(8), n)) == if n <= 8 then [Num(n)] else m.slots[0];
    assert m.slots[0 := m.slots[0]] == m.slots;
    ReadsShort(lib, REJECT, m, 0, 8, n, rest);
  }

  /** ChannelState.links: tag 32 for single values, tag 34 for packed ones. */
  lemma Links(lib: Library, m: Msg, a: Byte, b: Byte, c: Byte, rest: Bytes)
    requires Shaped(CHANNEL_STATE, m) && a < 128 && b < 128 && c < 128
    ensures Loop(lib, CHANNEL_STATE, m, [32] + ([a] + ([34] + ([2] + ([b, c] + rest)))))
         == Loop(lib, CHANNEL_STATE, Msg(m.slots[3 := m.slots[3] + [Num(a)] + [Num(b), Num(c)]]), rest)
  {
    var x := m.slots[3];
    var m' := Msg(m.slots[3 := x + [Num(a)]]);
    SingleLink(lib, m, a, [34] + ([2] + ([b, c] + rest)));
    PackedLinks(lib, m', b, c, rest);
    assert m'.slots[3 := x + [Num(a)] + [Num(b), Num(c)]] == m.slots[3 := x + [Num(a)] + [Num(b), Num(c)]];
  }

  lemma SingleLink(lib: Library, m: Msg, a: Byte, rest: Bytes)
    requires Shaped(CHANNEL_STATE, m) && a < 128
    ensures Loop(lib, CHANNEL_STATE, m, [32] + ([a] + rest))
         == Loop(lib, CHANNEL_STATE, Msg(m.slots[3 := m.slots[3] + [Num(a)]]), rest)
  {
    ChannelStateValid();
    var f := Field(4, Repeated, KUInt32);
    assert CHANNEL_STATE.fields[3] == f && Takes(f, 0);
    assert WithValue(f, m.slots[3], NumberOf(KUInt32, a)) == m.slots[3] + [Num(a)];
    ReadsShort(lib, CHANNEL_STATE, m, 3, 32, a, rest);
  }

  lemma PackedLinks(lib: Library, m: Msg, b: Byte, c: Byte, rest: Bytes)
    requires Shaped(CHANNEL_STATE, m) && b < 128 && c < 128
    ensures Loop(lib, CHANNEL_STATE, m, [34] + ([2] + ([b, c] + rest)))
         == Loop(lib, CHANNEL_STATE, Msg(m.slots[3 := m.slots[3] + [Num(b), Num(c)]]), rest)
  {
    ChannelStateValid();
    var bs: seq<Bytes> := [[b], [c]];
    TwoNumbers(b, c);
    OneByte(34);
    OneByte(2);
    assert [b, c] + [] == [b, c];
    ReadsPacked(lib, CHANNEL_STATE, m, 3, [34], [2], bs, [], rest);
  }

  lemma TwoNumbers(b: Byte, c: Byte)
    requires b < 128 && c < 128
    ensures Concat([[b], [c]]) == [b, c] && NumbersOf(KUInt32, [[b], [c]]) == [Num(b), Num(c)]
    ensures AreVarints([[b], [c]])
  {
    var bs: seq<Bytes> := [[b], [c]];
    assert bs[1..] == [[c]] && bs[1..][1..] == [];
    assert Base128Value([b]) == b && Base128Value([c]) == c;
    assert Concat(bs[1..]) == [c] && NumbersOf(KUInt32, bs[1..]) == [Num(c)];
  }

  // ---------------------------------------------------------------- defaults and required fields

  /** What an absent scalar reads as. */
  lemma DefaultsAsDeclared(k: Kind)
    requires !k.KMessage?
    ensures k.KUInt32? || k.KInt32? || k.KEnum? ==> Default(k) == Num(0)
    ensures k.KBool? ==> Default(k) == Flag(k.dflt)
    ensures k.KBytes? ==> Default(k) == Str([])
    ensures k.KFloat? ==> Default(k) == Str([0, 0, 0, 0])
  {
  }

  /** A new ACL inherits; a new group is inherited, inherits and is inheritable; a new entry applies here and below. */
  lemma TrueByDefault()
    ensures NewObj(ACL).cells[1] == Scalar(Flag(true)) && NewObj(ACL).cells[4] == Scalar(Flag(false))
    ensures forall i :: 1 <= i <= 3 ==> NewObj(CHAN_GROUP).cells[i] == Scalar(Flag(true))
    ensures forall i :: 0 <= i <= 2 ==> NewObj(CHAN_ACL).cells[i] == Scalar(Flag(true))
  {
  }

  /** Whether a nested message has its first field. */
  predicate HasFirst(v: Val) {
    v.Sub? && v.m.slots != [] && v.m.slots[0] != []
  }

  /** An ACL is initialized if it has its channel and every group has its name. */
  lemma AclInitialized(m: Msg)
    requires WellTyped(ACL, m)
    ensures !Paths.Uninitialized(ACL, m)
        <==> m.slots[0] != [] && forall j :: 0 <= j < |m.slots[2]| ==> HasFirst(m.slots[2][j])
  {
    Paths.CompleteEverywhere(ACL, m);
    forall j | 0 <= j < |m.slots[2]|
      ensures HasFirst(m.slots[2][j]) <==> Complete(CHAN_GROUP, SubOf(CHAN_GROUP, [m.slots[2][j]]))
    {
      assert SlotTyped(ACL.fields[2], m.slots[2]);
      Paths.SubOfOne(ACL.fields[2].kind, m.slots[2][j]);
      GroupComplete(m.slots[2][j].m);
    }
    assert SlotComplete(ACL.fields[2], m.slots[2]) <==> forall j :: 0 <= j < |m.slots[2]| ==> HasFirst(m.slots[2][j]);
    OthersComplete(m);
  }

  lemma GroupComplete(g: Msg)
    requires Shaped(CHAN_GROUP, g)
    ensures Complete(CHAN_GROUP, g) <==> g.slots[0] != []
  {
    assert SlotComplete(CHAN_GROUP.fields[0], g.slots[0]) <==> g.slots[0] != [];
  }

  lemma OthersComplete(m: Msg)
    requires Shaped(ACL, m)
    ensures Complete(ACL, m) <==> m.slots[0] != [] && SlotComplete(ACL.fields[2], m.slots[2])
  {
    assert SlotComplete(ACL.fields[0], m.slots[0]) <==> m.slots[0] != [];
    forall j | 0 <= j < |m.slots[3]| ensures Complete(CHAN_ACL, SubOf(CHAN_ACL, [m.slots[3][j]])) {
    }
    assert SlotComplete(ACL.fields[3], m.slots[3]);
  }
}
