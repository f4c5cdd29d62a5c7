/** Concrete ports on which expectations about the legacy DCBX engine fail. The exact conditions are in
    `DcbxRuns`.
 */
module DcbxWitnesses {
  import opened Words
  import opened PgTypes
  import opened DcbxTypes
  import opened DcbxFeature
  import opened DcbxNode
  import opened DcbxRuns
  import DcbxMirror
  import DcbxRequests

  const QUIET_PFC := PfcConfig([false, false, false, false, false, false, false, false])
  const PEER_PFC := PfcConfig([false, false, false, true, false, false, false, false])
  const ALL: set<FeatureId> := {Pfc, Pg, AppFcoe, AppIscsi, AppFip, Llink}

  /** What a peer that is not willing advertises. */
  function PeerOf(c: Config): Peer {
    Peer(true, false, false, true, false, 0, 0, Cee, c)
  }

  /** An advertised, synchronised CEE feature under number 1. */
  function Quiet(c: Config): Feature {
    Feature(true, true, false, true, true, false, false, true, true, false, 0, 0, 1, Cee, c, c, PeerOf(c))
  }

  function ConfigOf(id: FeatureId): Config {
    match id
    case Pfc => QUIET_PFC
    case Pg => PgConfig(Traffic([], []), Traffic([], []))
    case Llink => LlinkConfig(true)
    case _ => AppConfig([8])
  }

  lemma AllFeatures(id: FeatureId)
    ensures id in ALL
  {
    match id
    case _ =>
  }

  /** Neither side advertises logical links. */
  function Initially(id: FeatureId): Feature {
    Quiet(ConfigOf(id)).(advertise := !id.Llink?, advertisePrev := !id.Llink?,
                         peer := PeerOf(ConfigOf(id)).(tlvPresent := !id.Llink?))
  }

  function QuietFeatures(): (r: map<FeatureId, Feature>)
    ensures forall id: FeatureId :: id in r && r[id] == Initially(id)
  {
    assert forall id: FeatureId :: id in ALL by {
      forall id: FeatureId ensures id in ALL {
        AllFeatures(id);
      }
    }
    map id | id in ALL :: Initially(id)
  }

  /** A port with the feature `id` as given and all others quiet. */
  function PortWith(seqNo: u32, myAckNo: u32, id: FeatureId, ft: Feature): (n: Node)
    ensures n.Valid() && n.active && n.feats[id] == ft
    ensures n.feats == QuietFeatures()[id := ft]
    ensures n.ctrl == Control(true, 0, 0, seqNo, 7, myAckNo)
    ensures n.peerCtrl == PeerControl(0, 0, 7, myAckNo, Present, false, false)
    ensures seqNo != myAckNo || (ft.syncd && ft.tlvSent) ==> Rested(n)
  {
    Node(true, Control(true, 0, 0, seqNo, 7, myAckNo), PeerControl(0, 0, 7, myAckNo, Present, false, false),
         QuietFeatures()[id := ft], false)
  }

  const NO_DRIVER := Driver({}, LlinkConfig(false))

  /** A frame that repeats what is stored about the features. */
  function FrameWith(ackNo: u32, flags: set<FeatureId>): Action {
    Receive(ControlTlv(7, ackNo, 0, 0), false, false, map[], flags, NO_DRIVER)
  }

  lemma FrameSeen(n: Node, ackNo: u32, flags: set<FeatureId>, id: FeatureId)
    requires n.Valid()
    ensures var m := Seen(n, FrameWith(ackNo, flags));
            && m.feats[id] == n.feats[id] && m.ctrl == n.ctrl && m.active == n.active
            && m.peerCtrl == PeerControl(0, 0, 7, ackNo, Present, false, false)
  {
  }

  // ---------- A short application TLV strands an application ----------

  /** A frame with good PG and PFC TLVs, no LLINK TLV and an application TLV of three bytes, and the
      features it flags. */
  const SHORT_APP := Manifest(GoodLength, GoodLength, Absent, Some(AppTlv(3, Cee)))
  const SHORT_FLAGS: set<FeatureId> := {Pfc, Pg, Llink}

  const WAITING_FCOE: Feature := Quiet(AppConfig([8])).(syncd := false, featureSeqNo := 2)

  /** The frame's features run, and FCoE is not among them. */
  lemma FcoeIsNotReached()
    ensures var m := Seen(PortWith(2, 1, AppFcoe, WAITING_FCOE), FrameWith(2, SHORT_FLAGS));
            && m.feats[AppFcoe] == WAITING_FCOE && !Reached(AppFcoe, SHORT_FLAGS)
            && RunFeatures(m, true, SHORT_FLAGS, AppFeatures, NO_DRIVER).feats[AppFcoe] == WAITING_FCOE
  {
    hide FeatureStep, RunFeatures, Selected, QuietFeatures, Seen, Quiet;
    FrameSeen(PortWith(2, 1, AppFcoe, WAITING_FCOE), 2, SHORT_FLAGS, AppFcoe);
    var m := Seen(PortWith(2, 1, AppFcoe, WAITING_FCOE), FrameWith(2, SHORT_FLAGS));
    RunFeaturesAt(m, true, SHORT_FLAGS, AppFeatures, NO_DRIVER, AppFcoe);
    ReachedIsSelected(m, SHORT_FLAGS, AppFcoe);
  }

  lemma NumbersMoveOn()
    ensures var r := Step(PortWith(2, 1, AppFcoe, WAITING_FCOE), FrameWith(2, SHORT_FLAGS));
            r.ctrl.seqNo == 3 && r.ctrl.myAckNo == 2 && r.feats[AppFcoe] == WAITING_FCOE
  {
    hide RunFeatures, QuietFeatures, Initially, StoreTlv;
    FcoeIsNotReached();
    var n := PortWith(2, 1, AppFcoe, WAITING_FCOE);
    var m := Seen(n, FrameWith(2, SHORT_FLAGS));
    FrameSeen(n, 2, SHORT_FLAGS, AppFcoe);
    var f := RunFeatures(m, true, SHORT_FLAGS, AppFeatures, NO_DRIVER);
    assert !FeaturesSynched(f.feats);
    assert Sends(f, true);
    hide FeaturesSynched, UpdateFeatureSyncd;
    ReleasedFcoe(f);
  }

  lemma ReleasedFcoe(n: Node)
    requires n.Valid() && n.feats[AppFcoe] == WAITING_FCOE
    ensures UpdateFeatureSyncd(n.feats)[AppFcoe] == WAITING_FCOE
  {
  }

  /** FCoE waits under number 2; a frame acknowledges 2 but its application TLV is too short. The port
      goes on to number 3 and FCoE waits for 2, which has gone by. */
  lemma ShortAppTlvStrands()
    ensures var n := PortWith(2, 1, AppFcoe, WAITING_FCOE);
            var r := Step(n, FrameWith(2, SHORT_FLAGS));
            && ComesFrom(FrameWith(2, SHORT_FLAGS), SHORT_APP) && Rested(n) && NoStaleWait(n) && !NoStaleWait(r)
            && r.ctrl.seqNo == 3 && r.ctrl.myAckNo == 2
            && !r.feats[AppFcoe].syncd && r.feats[AppFcoe].featureSeqNo == 2
  {
    hide Step, QuietFeatures;
    NumbersMoveOn();
    var r := Step(PortWith(2, 1, AppFcoe, WAITING_FCOE), FrameWith(2, SHORT_FLAGS));
    assert !Announcing(r.feats[AppFcoe], r.ctrl.seqNo, r.ctrl.myAckNo);
  }

  // ---------- A forced send lets an unacknowledged feature operate ----------

  const MARKED: Feature :=
    Quiet(QUIET_PFC).(willing := true, syncd := false, forceSend := true, featureSeqNo := 6, peer := PeerOf(PEER_PFC))

  /** A frame that flags everything, on a port whose versions agree with it, steps PFC once. */
  lemma PfcStep(n: Node, ackNo: u32)
    requires n.Valid() && n.active && n.ctrl.operVersion == n.ctrl.maxVersion == 0
    ensures var a := FrameWith(ackNo, ALL);
            var f := FeatureStep(Pfc, n.feats[Pfc], n.ctrl, PeerControl(0, 0, 7, ackNo, Present, false, false), true, NO_DRIVER);
            var m := RunFeatures(Seen(n, a), true, ALL, AppFeatures, NO_DRIVER);
            && m.feats[Pfc] == f && Step(n, a) == RunControl(m, true)
            && m.ctrl == n.ctrl && m.active && m.peerCtrl == PeerControl(0, 0, 7, ackNo, Present, false, false)
  {
    hide FeatureStep, RunFeatures, RunControl, Selected;
    var a := FrameWith(ackNo, ALL);
    var s := Seen(n, a);
    FrameSeen(n, ackNo, ALL, Pfc);
    RunFeaturesAt(s, true, ALL, AppFeatures, NO_DRIVER, Pfc);
    AllSelected(s, true, ALL, AppFeatures, Pfc);
  }

  /** The first frame: PFC holds, then the send of number 6 releases it. */
  lemma MarkedIsReleased()
    ensures var r := Step(PortWith(5, 4, Pfc, MARKED), FrameWith(5, ALL));
            && r.feats[Pfc] == MARKED.(syncd := true) && r.ctrl == Control(true, 0, 0, 6, 7, 5) && r.active
  {
    hide RunFeatures, Selected, QuietFeatures, FeatureStep;
    var n := PortWith(5, 4, Pfc, MARKED);
    var m := RunFeatures(Seen(n, FrameWith(5, ALL)), true, ALL, AppFeatures, NO_DRIVER);
    PfcStep(n, 5);
    MarkedHolds();
    assert !FeaturesSynched(m.feats);
  }

  lemma MarkedHolds()
    ensures FeatureStep(Pfc, MARKED, Control(true, 0, 0, 5, 7, 4), PeerControl(0, 0, 7, 5, Present, false, false), true, NO_DRIVER) == MARKED
  {
  }

  lemma ReleasedOperates()
    ensures var f := FeatureStep(Pfc, MARKED.(syncd := true), Control(true, 0, 0, 6, 7, 5),
                                 PeerControl(0, 0, 7, 5, Present, false, false), true, NO_DRIVER);
            f.operMode && f.oper == PEER_PFC
  {
  }

  /** Number 5 is on its way, PFC is willing, waits for number 6 and carries the force-send mark. Two
      frames arrive that acknowledge only number 5. The first one has number 6 sent and so releases
      PFC; the second one brings PFC into operation on the peer's vector, number 6 still
      unacknowledged. */
  lemma ForcedSendChangesOperation()
    ensures var n, a := PortWith(5, 4, Pfc, MARKED), FrameWith(5, ALL);
            var r := Step(Step(n, a), a);
            && Rested(n) && Unsynced(n.feats[Pfc]) && !n.feats[Pfc].operMode && n.feats[Pfc].oper == QUIET_PFC
            && LeavesPending(n, a, Pfc, 6) && LeavesPending(Step(n, a), a, Pfc, 6)
            && r.feats[Pfc].operMode && r.feats[Pfc].oper == PEER_PFC && r.peerCtrl.ackNo == 5
  {
    hide RunFeatures, FeatureStep, QuietFeatures, RunControl, Step;
    var n, a := PortWith(5, 4, Pfc, MARKED), FrameWith(5, ALL);
    MarkedIsReleased();
    var m := Step(n, a);
    PfcStep(m, 5);
    ReleasedOperates();
    var f := RunFeatures(Seen(m, a), true, ALL, AppFeatures, NO_DRIVER);
    ControlAt(f, true, Pfc);
    ControlKeepsPeer(f, true);
  }

  lemma ControlKeepsPeer(n: Node, remote: bool)
    requires n.Valid()
    ensures RunControl(n, remote).peerCtrl.ackNo == n.peerCtrl.ackNo
  {
  }

  // ---------- Feature numbers across the wrap ----------

  /** A local change at the highest sequence number: the port announces it under number 0, and PFC's own
      number is then far above. */
  lemma NumbersWrap()
    ensures var n := PortWith(MAX_U32, MAX_U32, Pfc, Quiet(QUIET_PFC).(featureSeqNo := MAX_U32));
            var r := Step(n, LocalPut(AppFcoe, Settings(true, true, true, AppConfig([4])), NO_DRIVER));
            Rested(n) && WithinOne(n) && !WithinOne(r) && r.ctrl.seqNo == 0 && r.feats[Pfc].featureSeqNo == MAX_U32
  {
    hide QuietFeatures, Step;
    var n := PortWith(MAX_U32, MAX_U32, Pfc, Quiet(QUIET_PFC).(featureSeqNo := MAX_U32));
    LocalChangeWraps(n, Settings(true, true, true, AppConfig([4])));
  }

  /** A local change of a synchronised application at the highest number. */
  lemma LocalChangeWraps(n: Node, s: Settings)
    requires n.Valid() && n.active && n.ctrl.listening && n.ctrl.seqNo == n.ctrl.myAckNo == MAX_U32
    requires n.feats[AppFcoe].listening && n.feats[AppFcoe].syncd && s.advertise
    ensures var r := Step(n, LocalPut(AppFcoe, s, NO_DRIVER));
            r.ctrl.seqNo == 0 && r.feats[Pfc].featureSeqNo == n.feats[Pfc].featureSeqNo
  {
    hide FeatureStep, RunFeatures, Selected;
    var m := PutSettings(n, AppFcoe, s);
    var f := RunFeatures(m, false, {AppFcoe}, {AppFcoe}, NO_DRIVER);
    RunFeaturesAt(m, false, {AppFcoe}, {AppFcoe}, NO_DRIVER, Pfc);
    RunFeaturesAt(m, false, {AppFcoe}, {AppFcoe}, NO_DRIVER, AppFcoe);
    OnlyFcoe(m);
    LocalChangeIsTakenUp(m.feats[AppFcoe], m.ctrl, m.peerCtrl);
    assert !FeaturesSynched(f.feats);
    hide UpdateFeatureSyncd;
    ControlAt(f, false, Pfc);
  }

  lemma OnlyFcoe(n: Node)
    requires n.Valid()
    ensures Pfc !in Selected(n, false, {AppFcoe}, {AppFcoe}) && AppFcoe in Selected(n, false, {AppFcoe}, {AppFcoe})
  {
    assert AppFcoe in {AppFcoe} * AppFeatures;
  }

  lemma LocalChangeIsTakenUp(ft: Feature, ctrl: Control, pc: PeerControl)
    requires ft.listening && ft.syncd && ft.advertise
    ensures FeatureStep(AppFcoe, ft, ctrl, pc, false, NO_DRIVER).listening
    ensures !FeatureStep(AppFcoe, ft, ctrl, pc, false, NO_DRIVER).syncd
  {
  }

  // ---------- An expiry that is not recorded ----------

  /** With a duplicate control TLV on record the peer times out unnoticed: the numbering goes on. */
  lemma ExpiryGoesUnrecorded()
    ensures var n := PortWith(5, 5, Pfc, Quiet(QUIET_PFC));
            var d := n.(peerCtrl := n.peerCtrl.(duplicate := true));
            && Rested(n) && Expire(n, NO_DRIVER).ctrl.ackNo == 0 && Expire(d, NO_DRIVER).ctrl.ackNo == 7
  {
    hide Expire, QuietFeatures;
    var n := PortWith(5, 5, Pfc, Quiet(QUIET_PFC));
    var d := n.(peerCtrl := n.peerCtrl.(duplicate := true));
    assert Pfc in PresentPeers(n) && Pfc in PresentPeers(d);
    ExpiryRestartsNumbering(n, NO_DRIVER);
    ExpiryRestartsNumbering(d, NO_DRIVER);
  }

  /** A CEE port whose numbers stand at 5 and 7 and have been transmitted restarts both at zero when the peer
      expires, and asks for no transmission. */
  lemma ExpiryLeavesUnsaid()
    ensures var n := PortWith(5, 5, Pfc, Quiet(QUIET_PFC));
            var told, r := TlvOf(n), Step(n, ExpirePeer(NO_DRIVER));
            && Rested(n) && DcbxRequests.Spoken(n, told) && !DcbxRequests.Spoken(r, told)
            && told == ControlTlv(5, 7, 0, 0) && TlvOf(r) == ControlTlv(0, 0, 0, 0) && !r.txRequested
  {
    hide QuietFeatures, RunDcb;
    var n := PortWith(5, 5, Pfc, Quiet(QUIET_PFC));
    assert Pfc in PresentPeers(n);
    DcbxRequests.StoredFor(n, ExpirePeer(NO_DRIVER));
    DcbxRequests.RunSpeaks(DropPeer(n), true, PresentPeers(n), AppFeatures, NO_DRIVER);
  }

  // ---------- Synchronised and yet apart ----------

  const WAITING_PFC: Feature := Quiet(QUIET_PFC).(syncd := false, featureSeqNo := 2)
  const CHANGE := Settings(true, true, true, PEER_PFC)
  const CHANGED: Feature := WAITING_PFC.(willing := true, tlvSent := false, config := PEER_PFC)

  lemma ChangeStored(id: FeatureId)
    ensures var n := PortWith(2, 1, Pfc, WAITING_PFC);
            PutSettings(n, Pfc, CHANGE).feats[id] == if id.Pfc? then CHANGED else Initially(id)
  {
    hide QuietFeatures;
  }

  lemma ChangeWaits()
    ensures FeatureStep(Pfc, CHANGED, Control(true, 0, 0, 2, 7, 1), PeerControl(0, 0, 7, 1, Present, false, false), false, NO_DRIVER) == CHANGED
  {
  }

  lemma OnlyPfc(n: Node)
    requires n.Valid()
    ensures Selected(n, false, {Pfc}, {Pfc}) == {Pfc}
  {
    assert {Pfc} * AppFeatures == {};
  }

  /** A change made while the feature waits is not announced under a number of its own. */
  lemma AfterChange(id: FeatureId)
    ensures var n := PortWith(2, 1, Pfc, WAITING_PFC);
            var r := Step(n, LocalPut(Pfc, CHANGE, NO_DRIVER));
            && r.ctrl == n.ctrl && r.active && r.feats[id] == (if id.Pfc? then CHANGED else Initially(id))
  {
    hide QuietFeatures, FeatureStep, Selected, RunFeatures, Configure, UpdateFeatureSyncd;
    var n := PortWith(2, 1, Pfc, WAITING_PFC);
    var m := PutSettings(n, Pfc, CHANGE);
    ChangeStored(id);
    ChangeWaits();
    OnlyPfc(m);
    RunFeaturesAt(m, false, {Pfc}, {Pfc}, NO_DRIVER, id);
  }

  /** The feature once its change has been transmitted and the neighbour's frame has been stored. */
  function BeforeAck(id: FeatureId): Feature {
    if id.Pfc? then CHANGED.(tlvSent := true) else Initially(id)
  }

  /** Then the acknowledgement of number 2 leaves every feature synchronised. */
  lemma AckSynchronises(id: FeatureId)
    ensures var f := FeatureStep(id, BeforeAck(id), Control(true, 0, 0, 2, 7, 1),
                                 PeerControl(0, 0, 7, 2, Present, false, false), true, NO_DRIVER);
            f.syncd && f.tlvSent && f.config == BeforeAck(id).config
  {
    match id
    case _ =>
  }

  /** A frame that acknowledges number 2. */
  function AckWith(peers: map<FeatureId, Peer>): Action {
    Receive(ControlTlv(7, 2, 0, 0), false, false, peers, ALL, NO_DRIVER)
  }

  lemma AckSeen(n: Node, peers: map<FeatureId, Peer>)
    requires n.Valid()
    ensures var m := Seen(n, AckWith(peers));
            m.ctrl == n.ctrl && m.active == n.active && m.peerCtrl == PeerControl(0, 0, 7, 2, Present, false, false)
  {
  }

  lemma AckAt(n: Node, peers: map<FeatureId, Peer>, id: FeatureId)
    requires n.Valid() && n.ctrl == Control(true, 0, 0, 2, 7, 1)
    requires Seen(n, AckWith(peers)).feats[id] == BeforeAck(id)
    ensures var f := RunFeatures(Seen(n, AckWith(peers)), true, ALL, AppFeatures, NO_DRIVER).feats[id];
            f.syncd && f.tlvSent && f.config == BeforeAck(id).config
  {
    hide FeatureStep, RunFeatures, Selected, BeforeAck, Seen;
    AckSeen(n, peers);
    AllFeatures(id);
    AckSynchronises(id);
    RunFeaturesAt(Seen(n, AckWith(peers)), true, ALL, AppFeatures, NO_DRIVER, id);
    AllSelected(Seen(n, AckWith(peers)), true, ALL, AppFeatures, id);
  }

  lemma AckIsTakenIn(n: Node, peers: map<FeatureId, Peer>)
    requires n.Valid() && n.active && n.ctrl == Control(true, 0, 0, 2, 7, 1)
    requires forall id :: Seen(n, AckWith(peers)).feats[id] == BeforeAck(id)
    ensures var r := Step(n, AckWith(peers));
            FeaturesSynched(r.feats) && r.ctrl.seqNo == r.ctrl.myAckNo == 2 && r.feats[Pfc].config == PEER_PFC
  {
    hide FeatureStep, RunFeatures, Selected, BeforeAck, StoreTlv;
    AckSeen(n, peers);
    var f := RunFeatures(Seen(n, AckWith(peers)), true, ALL, AppFeatures, NO_DRIVER);
    forall id | id in f.feats
      ensures f.feats[id].syncd && f.feats[id].tlvSent
    {
      AckAt(n, peers, id);
    }
    AckAt(n, peers, Pfc);
    assert BeforeAck(Pfc).config == PEER_PFC by { PfcBeforeAck(); }
    assert FeaturesSynched(f.feats);
    hide FeaturesSynched, UpdateFeatureSyncd;
  }

  lemma PfcBeforeAck()
    ensures BeforeAck(Pfc).config == PEER_PFC
  {
  }

  /** The neighbour, which has number 2 and acknowledges it. */
  function Neighbour(): (b: Node)
    ensures b.Valid() && b.feats == QuietFeatures() && b.ctrl == Control(true, 0, 0, 7, 2, 7) && Rested(b)
  {
    PortWith(7, 7, Pfc, Initially(Pfc)).(ctrl := Control(true, 0, 0, 7, 2, 7), feats := QuietFeatures())
  }

  /** What port `a` has stored of the neighbour's frame once it has transmitted its change. */
  lemma StoredBeforeAck(n: Node, b: Node, id: FeatureId)
    requires n.Valid() && n.active && b.Valid() && b.feats[id] == Initially(id)
    requires n.feats[id] == if id.Pfc? then CHANGED else Initially(id)
    ensures var s := Step(n, Transmit);
            Seen(s, AckWith(DcbxMirror.StoredPeers(s, DcbxMirror.FrameOf(b)))).feats[id] == BeforeAck(id)
  {
    var s := Step(n, Transmit);
    var f := DcbxMirror.FrameOf(b);
    assert s.feats[id] == n.feats[id].(tlvSent := true);
    assert id in f.features <==> !id.Llink?;
    if !id.Llink? {
      assert f.features[id] == PeerOf(ConfigOf(id));
    }
  }

  const APART := [DcbxMirror.LinkEvent(true, DcbxMirror.Change(Pfc, CHANGE, NO_DRIVER)), DcbxMirror.LinkEvent(true, DcbxMirror.Send),
                  DcbxMirror.LinkEvent(false, DcbxMirror.Lose(0)), DcbxMirror.LinkEvent(true, DcbxMirror.Deliver(ALL, NO_DRIVER))]

  lemma RunSnoc(l: DcbxMirror.Link, es: seq<DcbxMirror.LinkEvent>, k: nat)
    requires l.Valid() && k < |es|
    ensures DcbxMirror.RunLink(l, es[..k + 1]) == DcbxMirror.StepLink(DcbxMirror.RunLink(l, es[..k]), es[k])
    ensures DcbxMirror.RunLink(l, es[..0]) == l
  {
    assert es[..k + 1][..k] == es[..k];
  }

  /** The four events: the change goes out in a frame that is lost, then the acknowledgement arrives. */
  lemma ApartSteps(n: Node, b: Node)
    requires n.Valid() && n.active && b.Valid()
    ensures var c := Step(n, LocalPut(Pfc, CHANGE, NO_DRIVER));
            var s := Step(c, Transmit);
            var f := DcbxMirror.FrameOf(b);
            var r := DcbxMirror.RunLink(DcbxMirror.Link(n, b, [], [f], true, true), APART);
            c.active ==>
              && r.ab == [] && r.ba == [] && r.b == b
              && r.a == Step(s, Receive(f.ctrl, false, false, DcbxMirror.StoredPeers(s, f), ALL, NO_DRIVER))
  {
    hide Step, DcbxMirror.RunLink, DcbxMirror.FrameOf, DcbxMirror.StoredPeers;
    var l := DcbxMirror.Link(n, b, [], [DcbxMirror.FrameOf(b)], true, true);
    RunSnoc(l, APART, 0);
    RunSnoc(l, APART, 1);
    RunSnoc(l, APART, 2);
    RunSnoc(l, APART, 3);
    assert APART[..4] == APART;
  }

  /** Port `a` waits for number 2, which the neighbour has and acknowledges. While the acknowledgement is
      on its way, PFC is changed once more; the frame that carries this change, also under number 2, is
      lost. When the acknowledgement arrives both ports are synchronised, acknowledged and have nothing
      on the way, and yet the neighbour has the old settings. */
  lemma SynchronisedYetApart()
    ensures var n, b := PortWith(2, 1, Pfc, WAITING_PFC), Neighbour();
            var l := DcbxMirror.Link(n, b, [], [DcbxMirror.FrameOf(b)], true, true);
            var r := DcbxMirror.RunLink(l, APART);
            && r.ab == [] && r.ba == []
            && FeaturesSynched(r.a.feats) && r.a.ctrl.seqNo == r.a.ctrl.myAckNo
            && FeaturesSynched(r.b.feats) && r.b.ctrl.seqNo == r.b.ctrl.myAckNo
            && r.a.feats[Pfc].config == PEER_PFC && r.b.feats[Pfc].peer.config == QUIET_PFC
            && !Mirrors(r.a.feats[Pfc], r.b.feats[Pfc])
  {
    hide Step, DcbxMirror.RunLink, QuietFeatures, BeforeAck, Seen;
    var n, b := PortWith(2, 1, Pfc, WAITING_PFC), Neighbour();
    var c := Step(n, LocalPut(Pfc, CHANGE, NO_DRIVER));
    AfterChange(Pfc);
    ApartSteps(n, b);
    var s := Step(c, Transmit);
    var peers := DcbxMirror.StoredPeers(s, DcbxMirror.FrameOf(b));
    forall id ensures Seen(s, AckWith(peers)).feats[id] == BeforeAck(id) {
      AfterChange(id);
      StoredBeforeAck(c, b, id);
    }
    TransmitNumbers(c);
    AckIsTakenIn(s, peers);
    QuietIsSynched();
  }

  /** At first the neighbour has what port `a` announced, and the frame on the way says what it has. */
  lemma ApartStart()
    ensures var n, b := PortWith(2, 1, Pfc, WAITING_PFC), Neighbour();
            DcbxMirror.Inv(DcbxMirror.Link(n, b, [], [DcbxMirror.FrameOf(b)], true, true)) && Rested(n) && Rested(b)
  {
    hide QuietFeatures;
    var n, b := PortWith(2, 1, Pfc, WAITING_PFC), Neighbour();
    assert DcbxMirror.Stores(b, n);
    DcbxMirror.FrameCarries(b);
    hide DcbxMirror.Stores, DcbxMirror.Carries;
  }

  lemma TransmitNumbers(n: Node)
    requires n.Valid()
    ensures Step(n, Transmit).ctrl == n.ctrl && Step(n, Transmit).active == n.active
  {
  }

  lemma QuietIsSynched()
    ensures FeaturesSynched(QuietFeatures()) && QuietFeatures()[Pfc].peer.config == QUIET_PFC
  {
  }
}
