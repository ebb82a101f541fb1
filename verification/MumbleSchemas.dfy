/** Field tables of the modelled messages, and a message sent and received. */
module MumbleSchemas {
  import opened Wire
  import opened Messages
  import opened Objects
  import opened RoundTrip
  import opened PlainLoop
  import opened CodedStreams
  import opened MessageObjects

  const VERSION := Schema([
    Field(1, Optional, KUInt32),           // version
    Field(2, Optional, KBytes),            // release
    Field(3, Optional, KBytes),            // os
    Field(4, Optional, KBytes)             // os_version
  ], [MaskGroup(0, [0, 1, 2, 3])])

  const REJECT := Schema([
    Field(1, Optional, KEnum(8)),          // type
    Field(2, Optional, KBytes)             // reason
  ], [MaskGroup(0, [0, 1])])

  const CHANNEL_STATE := Schema([
    Field(1, Optional, KUInt32),           // channel_id
    Field(2, Optional, KUInt32),           // parent
    Field(3, Optional, KBytes),            // name
    Field(4, Repeated, KUInt32),           // links
    Field(5, Optional, KBytes),            // description
    Field(6, Repeated, KUInt32),           // links_add
    Field(7, Repeated, KUInt32),           // links_remove
    Field(8, Optional, KBool(false)),      // temporary
    Field(9, Optional, KInt32),            // position
    Field(10, Optional, KBytes)            // description_hash
  ], [MaskGroup(0, [0, 1, 2, 4, 7]), MaskGroup(8, [8, 9])])

  const BAN_ENTRY := Schema([
    Field(1, Required, KBytes),            // address
    Field(2, Required, KUInt32),           // mask
    Field(3, Optional, KBytes),            // name
    Field(4, Optional, KBytes),            // hash
    Field(5, Optional, KBytes),            // reason
    Field(6, Optional, KBytes),            // start
    Field(7, Optional, KUInt32)            // duration
  ], [MaskGroup(0, [0, 1, 2, 3, 4, 5, 6])])

  const BAN_LIST := Schema([
    Field(1, Repeated, KMessage(BAN_ENTRY)), // bans
    Field(2, Optional, KBool(false))       // query
  ], [MaskGroup(1, [1])])

  const CHAN_GROUP := Schema([
    Field(1, Required, KBytes),            // name
    Field(2, Optional, KBool(true)),       // inherited
    Field(3, Optional, KBool(true)),       // inherit
    Field(4, Optional, KBool(true)),       // inheritable
    Field(5, Repeated, KUInt32),           // add
    Field(6, Repeated, KUInt32),           // remove
    Field(7, Repeated, KUInt32)            // inherited_members
  ], [MaskGroup(0, [0, 1, 2, 3])])

  const CHAN_ACL := Schema([
    Field(1, Optional, KBool(true)),       // apply_here
    Field(2, Optional, KBool(true)),       // apply_subs
    Field(3, Optional, KBool(true)),       // inherited
    Field(4, Optional, KUInt32),           // user_id
    Field(5, Optional, KBytes),            // group
    Field(6, Optional, KUInt32),           // grant
    Field(7, Optional, KUInt32)            // deny
  ], [MaskGroup(0, [0, 1, 2, 3, 4, 5, 6])])

  const ACL := Schema([
    Field(1, Required, KUInt32),           // channel_id
    Field(2, Optional, KBool(true)),       // inherit_acls
    Field(3, Repeated, KMessage(CHAN_GROUP)), // groups
    Field(4, Repeated, KMessage(CHAN_ACL)), // acls
    Field(5, Optional, KBool(false))       // query
  ], [MaskGroup(0, [0, 1, 4])])

  const STATS := Schema([
    Field(1, Optional, KUInt32),           // good
    Field(2, Optional, KUInt32),           // late
    Field(3, Optional, KUInt32),           // lost
    Field(4, Optional, KUInt32)            // resync
  ], [MaskGroup(0, [0, 1, 2, 3])])

  const USER_STATS := Schema([
    Field(1, Optional, KUInt32),           // session
    Field(2, Optional, KBool(false)),      // stats_only
    Field(3, Repeated, KBytes),            // certificates
    Field(4, Optional, KMessage(STATS)),   // from_client
    Field(5, Optional, KMessage(STATS)),   // from_server
    Field(6, Optional, KUInt32),           // udp_packets
    Field(7, Optional, KUInt32),           // tcp_packets
    Field(8, Optional, KFloat),            // udp_ping_avg
    Field(9, Optional, KFloat),            // udp_ping_var
    Field(10, Optional, KFloat),           // tcp_ping_avg
    Field(11, Optional, KFloat),           // tcp_ping_var
    Field(12, Optional, KMessage(VERSION)), // version
    Field(13, Repeated, KInt32),           // celt_versions
    Field(14, Optional, KBytes),           // address
    Field(15, Optional, KUInt32),          // bandwidth
    Field(16, Optional, KUInt32),          // onlinesecs
    Field(17, Optional, KUInt32),          // idlesecs
    Field(18, Optional, KBool(false)),     // strong_certificate
    Field(19, Optional, KBool(false))      // opus
  ], [MaskGroup(0, [0, 1, 3, 4, 5, 6, 7]), MaskGroup(8, [8, 9, 10, 11, 13, 14, 15]), MaskGroup(16, [16, 17, 18])])

  ghost predicate ValidType(sch: Schema) {
    ValidSchema(sch) && ValidGroups(sch)
  }

  /** Every member of every group is covered. */
  lemma MembersCovered(gs: seq<MaskGroup>)
    ensures forall g, k :: 0 <= g < |gs| && 0 <= k < |gs[g].members| ==> Covered(gs, gs[g].members[k])
  {
    forall g, k | 0 <= g < |gs| && 0 <= k < |gs[g].members| ensures Covered(gs, gs[g].members[k]) {
      assert gs[g].members[k] in gs[g].members;
    }
  }

  /** A message whose singular fields come first and are listed in one group. */
  lemma OneGroupCovers(sch: Schema)
    requires |sch.groups| == 1 && sch.groups[0].start == 0 && |sch.fields| <= 8
    requires forall i :: 0 <= i < |sch.groups[0].members| ==> sch.groups[0].members[i] == i
    requires forall i :: 0 <= i < |sch.fields| ==> (Singular(sch, i) <==> i < |sch.groups[0].members|)
    requires |sch.groups[0].members| <= |sch.fields|
    requires forall i :: 0 <= i < |sch.fields| ==> !sch.fields[i].kind.KMessage?
    ensures ValidGroups(sch)
  {
    MembersCovered(sch.groups);
    forall i | 0 <= i < |sch.fields| && Singular(sch, i) ensures Covered(sch.groups, i) {
      assert sch.groups[0].members[i] == i;
    }
    assert ValidGroup(sch, sch.groups[0]);
  }

  /** Fields numbered one after the other are in ascending order. */
  lemma NumberedInOrder(sch: Schema)
    requires |sch.fields| <= 32 && forall i :: 0 <= i < |sch.fields| ==> sch.fields[i].num == i + 1
    requires forall i :: 0 <= i < |sch.fields| ==> ValidField(sch.fields[i])
    ensures ValidSchema(sch)
  {
  }

  lemma VersionValid()
    ensures ValidType(VERSION)
  {
    NumberedInOrder(VERSION);
    OneGroupCovers(VERSION);
  }

  lemma RejectValid()
    ensures ValidType(REJECT)
  {
    NumberedInOrder(REJECT);
    OneGroupCovers(REJECT);
  }

  lemma StatsValid()
    ensures ValidType(STATS)
  {
    NumberedInOrder(STATS);
    OneGroupCovers(STATS);
  }

  lemma BanEntryValid()
    ensures ValidType(BAN_ENTRY)
  {
    NumberedInOrder(BAN_ENTRY);
    OneGroupCovers(BAN_ENTRY);
  }

  lemma ChanGroupValid()
    ensures ValidType(CHAN_GROUP)
  {
    NumberedInOrder(CHAN_GROUP);
    OneGroupCovers(CHAN_GROUP);
  }

  lemma ChanAclValid()
    ensures ValidType(CHAN_ACL)
  {
    NumberedInOrder(CHAN_ACL);
    OneGroupCovers(CHAN_ACL);
  }

  lemma ChannelStateFirst()
    ensures Lists(CHANNEL_STATE, CHANNEL_STATE.groups[0], 8)
  {
    var a := CHANNEL_STATE.groups[0].members;
    assert a[0] == 0 && a[1] == 1 && a[2] == 2 && a[3] == 4 && a[4] == 7;
  }

  lemma ChannelStateSecond()
    ensures Lists(CHANNEL_STATE, CHANNEL_STATE.groups[1], 10)
  {
    var b := CHANNEL_STATE.groups[1].members;
    assert b[0] == 8 && b[1] == 9;
  }

  lemma ChannelStateValid()
    ensures ValidType(CHANNEL_STATE)
  {
    NumberedInOrder(CHANNEL_STATE);
    ChannelStateFirst();
    ChannelStateSecond();
    TwoGroups(CHANNEL_STATE, 8);
  }

  lemma BanListValid()
    ensures ValidType(BAN_LIST)
  {
    BanEntryValid();
    NumberedInOrder(BAN_LIST);
    MembersCovered(BAN_LIST.groups);
    assert BAN_LIST.groups[0].members[0] == 1;
    assert ValidGroup(BAN_LIST, BAN_LIST.groups[0]);
  }

  lemma AclValid()
    ensures ValidType(ACL)
  {
    ChanGroupValid();
    ChanAclValid();
    NumberedInOrder(ACL);
    MembersCovered(ACL.groups);
    var a := ACL.groups[0].members;
    assert a[0] == 0 && a[1] == 1 && a[2] == 4;
    assert ValidGroup(ACL, ACL.groups[0]);
  }

  lemma UserStatsValid()
    ensures ValidType(USER_STATS)
  {
    StatsValid();
    VersionValid();
    NumberedInOrder(USER_STATS);
    UserStatsFirst();
    UserStatsSecond();
    UserStatsThird();
    ThreeGroups(USER_STATS, 8, 16);
  }

  /** A group that lists, in order, the singular fields between its start and stop. */
  ghost predicate Lists(sch: Schema, g: MaskGroup, stop: nat) {
    && ValidGroup(sch, g) && stop <= g.start + 8
    && (forall k :: 0 <= k < |g.members| ==> g.members[k] < stop)
    && (forall i :: g.start <= i < stop && i < |sch.fields| && Singular(sch, i) ==> i in g.members)
  }

  lemma TwoGroups(sch: Schema, m: nat)
    requires |sch.groups| == 2 && sch.groups[0].start == 0 && sch.groups[1].start == m
    requires Lists(sch, sch.groups[0], m) && Lists(sch, sch.groups[1], |sch.fields|)
    requires forall i :: 0 <= i < |sch.fields| ==> !sch.fields[i].kind.KMessage?
    ensures ValidGroups(sch)
  {
    forall i | 0 <= i < |sch.fields| && Singular(sch, i) ensures Covered(sch.groups, i) {
      assert i in sch.groups[if i < m then 0 else 1].members;
    }
    assert GroupsAscend(sch.groups[0], sch.groups[1]);
  }

  lemma ThreeGroups(sch: Schema, m: nat, n: nat)
    requires |sch.groups| == 3 && m <= n
    requires sch.groups[0].start == 0 && sch.groups[1].start == m && sch.groups[2].start == n
    requires Lists(sch, sch.groups[0], m) && Lists(sch, sch.groups[1], n) && Lists(sch, sch.groups[2], |sch.fields|)
    requires forall i :: 0 <= i < |sch.fields| && sch.fields[i].kind.KMessage? ==> ValidGroups(sch.fields[i].kind.sub)
    ensures ValidGroups(sch)
  {
    forall i | 0 <= i < |sch.fields| && Singular(sch, i) ensures Covered(sch.groups, i) {
      assert i in sch.groups[if i < m then 0 else if i < n then 1 else 2].members;
    }
    assert GroupsAscend(sch.groups[0], sch.groups[1]) && GroupsAscend(sch.groups[1], sch.groups[2]);
  }

  lemma UserStatsFirst()
    ensures Lists(USER_STATS, USER_STATS.groups[0], 8)
  {
    var a := USER_STATS.groups[0].members;
    assert a[0] == 0 && a[1] == 1 && a[2] == 3 && a[3] == 4 && a[4] == 5 && a[5] == 6 && a[6] == 7;
  }

  lemma UserStatsSecond()
    ensures Lists(USER_STATS, USER_STATS.groups[1], 16)
  {
    var b := USER_STATS.groups[1].members;
    assert b[0] == 8 && b[1] == 9 && b[2] == 10 && b[3] == 11 && b[4] == 13 && b[5] == 14 && b[6] == 15;
  }

  lemma UserStatsThird()
    ensures Lists(USER_STATS, USER_STATS.groups[2], 19)
  {
    var c := USER_STATS.groups[2].members;
    assert c[0] == 16 && c[1] == 17 && c[2] == 18;
  }

  /** The tables have the shapes the theorems are about. */
  lemma AllTypesValid(sch: Schema)
    requires sch in {VERSION, REJECT, CHANNEL_STATE, BAN_ENTRY, BAN_LIST, CHAN_GROUP, CHAN_ACL, ACL, STATS, USER_STATS}
    ensures ValidType(sch)
  {
    VersionValid();
    RejectValid();
    StatsValid();
    BanEntryValid();
    ChanGroupValid();
    ChanAclValid();
    ChannelStateValid();
    BanListValid();
    AclValid();
    UserStatsValid();
  }

  /**
    A message serialized after ByteSize and parsed into a new object: any type, any
    value below 4 GiB, any answers of ExpectTag, and the copy has the same value.
   */
  method Transmit(m: Message, lib: Library) returns (ok: bool, copy: Message)
    requires m.Valid()
    modifies m
    ensures m.Valid() && m.Value() == old(m.Value())
    ensures copy.Valid() && copy.schema == m.schema && fresh(copy)
    ensures |Serialize(m.schema, m.Value())| < TWO32 ==> ok && copy.Value() == m.Value()
  {
    var size := m.ByteSize();
    var output := new CodedOutputStream();
    m.SerializeWithCachedSizes(output);
    var input := new CodedInputStream(output.written, lib);
    copy := new Message(m.schema);
    ghost var s := input.Remaining();
    if size < TWO32 {
      CoherentTyped(m.schema, m.State());
      SerializeThenParse(m.schema, m.Value());
    }
    CleanEndIsParse(lib, m.schema, copy.Value(), s);
    ok := copy.MergePartialFromCodedStream(input);
    ok := ok && input.consumedEntireMessage;
  }
}
