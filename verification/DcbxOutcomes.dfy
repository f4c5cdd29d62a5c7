/** What the feature state machine of legacy DCBX comes to, in terms of the feature before the step alone:
    every remote step that stops short of the decision, unadvertised and locally changed features, when
    the Error bit is raised and announced, and what holds of errors in every run.
 */
module DcbxOutcomes {
  import opened Words
  import opened DcbxTypes
  import opened DcbxFeature
  import opened DcbxNode
  import opened DcbxRuns

  // ---------- Remote steps ----------

  /** The peer speaks the control version that both sides can. */
  predicate VersionsMatch(ctrl: Control, pc: PeerControl) {
    var common := if pc.maxVersion < ctrl.maxVersion then pc.maxVersion else ctrl.maxVersion;
    ctrl.operVersion == common && pc.operVersion == common
  }

  /** The highest feature version both sides can. */
  function CommonVersion(ft: Feature): nat {
    if ft.peer.maxVersion < ft.maxVersion then ft.peer.maxVersion else ft.maxVersion
  }

  /** The number an advertised feature enters a remote step with: a new one from DCB_INIT. */
  function NumberBefore(ft: Feature, ctrl: Control): u32 {
    if ft.listening then ft.featureSeqNo else Next(ctrl.seqNo)
  }

  /** A change waits for an acknowledgement; a feature that leaves DCB_INIT is such a change. */
  predicate Outstanding(ft: Feature, ctrl: Control, pc: PeerControl) {
    !(ft.listening && ft.syncd) && pc.ackNo != NumberBefore(ft, ctrl)
  }

  /** Out of operation, and on the local configuration unless the rule checker rewrites it. */
  predicate FallenBack(id: FeatureId, ft: Feature, r: Feature) {
    !r.operMode && (!id.Pg? ==> r.oper == ft.config)
  }

  /** As before the step, but for having left DCB_INIT. */
  predicate OperatesAsBefore(ft: Feature, r: Feature) {
    r.oper == ft.oper && r.operMode == (ft.listening && ft.operMode) && r.error == (ft.listening && ft.error)
  }

  /** The tests of a remote step, in the order of the source. */
  lemma RowReached(ft: Feature, ctrl: Control, pc: PeerControl)
    requires ft.advertise && VersionsMatch(ctrl, pc)
    ensures var f := Entered(ft, ctrl, pc);
            RowOf(f, ctrl, pc, true) ==
            if ft.subtype.Cee? && pc.rxState.Expired? then PeerExpired
            else if !ft.peer.tlvPresent || pc.tooMany then NoPeerTlv
            else if Outstanding(ft, ctrl, pc) then Hold
            else if ft.peer.duplicate then Duplicates
            else if f.operVersion != CommonVersion(ft) then NewVersion
            else if f.operVersion != ft.peer.operVersion then PeerVersion
            else Decision(Judge(f.enable, f.willing, f.config, f.peer))
  {
    hide Judge;
  }

  /** What each of these tests leads to, for the feature as entered. */
  lemma RowEffect(id: FeatureId, f: Feature, row: Row, ctrl: Control, justAdded: bool, drv: Driver)
    requires !row.Decision? && !row.Unadvertised? && !row.LocalOnly? && !row.BadVersion?
    ensures var r := AfterRow(id, f, row, ctrl, justAdded, true, drv);
            match row
            case PeerExpired => FallenBack(id, f, r) && r.error && !r.syncd && r.featureSeqNo == 1
            case NoPeerTlv =>
              && FallenBack(id, f, r) && r.syncd && (r.error <==> f.subtype.Cee?)
              && r.operVersion == f.maxVersion && r.featureSeqNo == f.featureSeqNo
            case Duplicates =>
              && FallenBack(id, f, r) && r.error && r.forceSend
              && r.featureSeqNo == if f.error then f.featureSeqNo else Next(ctrl.seqNo)
            case NewVersion =>
              && r.oper == f.oper && r.operMode == f.operMode && r.error == f.error && !r.syncd
              && r.operVersion == CommonVersion(f) && r.featureSeqNo == Next(ctrl.seqNo)
            case _ =>
              && r.oper == f.oper && r.operMode == f.operMode && r.error == f.error
              && r.operVersion == f.operVersion && r.featureSeqNo == f.featureSeqNo
              && r.syncd == (row.PeerVersion? || f.syncd)
  {
  }

  /** The peer's expiry, a missing TLV and duplicated TLVs take an advertised feature out of operation and onto
      its local configuration. */
  lemma FallsBack(id: FeatureId, ft: Feature, ctrl: Control, pc: PeerControl, drv: Driver)
    requires ft.advertise && VersionsMatch(ctrl, pc)
    ensures var r := FeatureStep(id, ft, ctrl, pc, true, drv);
            if ft.subtype.Cee? && pc.rxState.Expired? then
              FallenBack(id, ft, r) && r.error && !r.syncd && r.featureSeqNo == 1
            else if !ft.peer.tlvPresent || pc.tooMany then
              && FallenBack(id, ft, r) && r.syncd && (r.error <==> ft.subtype.Cee?)
              && r.operVersion == ft.maxVersion && r.featureSeqNo == NumberBefore(ft, ctrl)
            else if !Outstanding(ft, ctrl, pc) && ft.peer.duplicate then
              && FallenBack(id, ft, r) && r.error && r.forceSend
              && r.featureSeqNo == if ft.listening && ft.error then ft.featureSeqNo else Next(ctrl.seqNo)
            else true
  {
    var f := Entered(ft, ctrl, pc);
    var row := RowOf(f, ctrl, pc, true);
    RowReached(ft, ctrl, pc);
    EnteredAs(ft, ctrl, pc);
    StepIsRow(id, ft, ctrl, pc, drv);
    hide FeatureStep, RowOf, AfterRow, Entered, Judge, VersionsMatch, Outstanding;
    if row.PeerExpired? || row.NoPeerTlv? || row.Duplicates? {
      RowEffect(id, f, row, ctrl, !ft.listening && id.Pfc?, drv);
    }
  }

  lemma HeldOperation(id: FeatureId, ft: Feature, ctrl: Control, pc: PeerControl, drv: Driver)
    requires ft.advertise
    ensures var row := RowOf(Entered(ft, ctrl, pc), ctrl, pc, true);
            var r := FeatureStep(id, ft, ctrl, pc, true, drv);
            row.Hold? || row.NewVersion? || row.PeerVersion? ==>
              OperatesAsBefore(ft, r)
  {
    var row := RowOf(Entered(ft, ctrl, pc), ctrl, pc, true);
    EnteredAs(ft, ctrl, pc);
    StepIsRow(id, ft, ctrl, pc, drv);
    hide FeatureStep, RowOf, AfterRow, Entered, NumberBefore;
    if row.Hold? || row.NewVersion? || row.PeerVersion? {
      RowEffect(id, Entered(ft, ctrl, pc), row, ctrl, !ft.listening && id.Pfc?, drv);
    }
  }

  lemma HeldNumbers(id: FeatureId, ft: Feature, ctrl: Control, pc: PeerControl, drv: Driver)
    requires ft.advertise
    ensures var row := RowOf(Entered(ft, ctrl, pc), ctrl, pc, true);
            var r := FeatureStep(id, ft, ctrl, pc, true, drv);
            row.Hold? || row.NewVersion? || row.PeerVersion? ==>
              && r.syncd == (row.PeerVersion? || (row.Hold? && ft.listening && ft.syncd))
              && r.featureSeqNo == (if row.NewVersion? then Next(ctrl.seqNo) else NumberBefore(ft, ctrl))
  {
    var row := RowOf(Entered(ft, ctrl, pc), ctrl, pc, true);
    EnteredAs(ft, ctrl, pc);
    StepIsRow(id, ft, ctrl, pc, drv);
    hide FeatureStep, RowOf, AfterRow, Entered, NumberBefore;
    if row.Hold? || row.NewVersion? || row.PeerVersion? {
      RowEffect(id, Entered(ft, ctrl, pc), row, ctrl, !ft.listening && id.Pfc?, drv);
    }
  }

  lemma HeldVersion(id: FeatureId, ft: Feature, ctrl: Control, pc: PeerControl, drv: Driver)
    requires ft.advertise
    ensures var row := RowOf(Entered(ft, ctrl, pc), ctrl, pc, true);
            var r := FeatureStep(id, ft, ctrl, pc, true, drv);
            row.Hold? || row.NewVersion? || row.PeerVersion? ==>
              r.operVersion == if row.NewVersion? then CommonVersion(ft) else if ft.listening then ft.operVersion else ft.maxVersion
  {
    var row := RowOf(Entered(ft, ctrl, pc), ctrl, pc, true);
    EnteredAs(ft, ctrl, pc);
    StepIsRow(id, ft, ctrl, pc, drv);
    hide FeatureStep, RowOf, AfterRow, Entered, NumberBefore;
    if row.Hold? || row.NewVersion? || row.PeerVersion? {
      RowEffect(id, Entered(ft, ctrl, pc), row, ctrl, !ft.listening && id.Pfc?, drv);
    }
  }

  /** Otherwise an outstanding acknowledgement, a new version and a peer that has yet to follow leave its
      operation alone. */
  lemma HoldsOn(id: FeatureId, ft: Feature, ctrl: Control, pc: PeerControl, drv: Driver)
    requires ft.advertise && VersionsMatch(ctrl, pc)
    requires !(ft.subtype.Cee? && pc.rxState.Expired?) && ft.peer.tlvPresent && !pc.tooMany
    ensures var r := FeatureStep(id, ft, ctrl, pc, true, drv);
            var oper := if ft.listening then ft.operVersion else ft.maxVersion;
            if Outstanding(ft, ctrl, pc) then
              OperatesAsBefore(ft, r) && !r.syncd && r.featureSeqNo == NumberBefore(ft, ctrl) && r.operVersion == oper
            else if ft.peer.duplicate then true
            else if oper != CommonVersion(ft) then
              OperatesAsBefore(ft, r) && r.operVersion == CommonVersion(ft) && !r.syncd && r.featureSeqNo == Next(ctrl.seqNo)
            else if oper != ft.peer.operVersion then
              OperatesAsBefore(ft, r) && r.syncd && r.featureSeqNo == NumberBefore(ft, ctrl) && r.operVersion == oper
            else true
  {
    RowReached(ft, ctrl, pc);
    EnteredAs(ft, ctrl, pc);
    HeldOperation(id, ft, ctrl, pc, drv);
    HeldNumbers(id, ft, ctrl, pc, drv);
    HeldVersion(id, ft, ctrl, pc, drv);
    hide FeatureStep, RowOf, Entered, Judge, VersionsMatch, OperatesAsBefore, NumberBefore;
  }

  lemma StepIsRow(id: FeatureId, ft: Feature, ctrl: Control, pc: PeerControl, drv: Driver)
    ensures var f := Entered(ft, ctrl, pc);
            FeatureStep(id, ft, ctrl, pc, true, drv) ==
            AfterRow(id, f, RowOf(f, ctrl, pc, true), ctrl, !ft.listening && id.Pfc?, true, drv)
  {
    hide AfterRow, Enter, RowOf;
  }

  lemma EnteredAs(ft: Feature, ctrl: Control, pc: PeerControl)
    requires ft.advertise
    ensures var f := Entered(ft, ctrl, pc);
            && f.config == ft.config && f.oper == ft.oper && f.subtype == ft.subtype && f.maxVersion == ft.maxVersion
            && f.peer == ft.peer.(tlvPresent := ft.peer.tlvPresent && !pc.tooMany)
            && f.operMode == (ft.listening && ft.operMode) && f.error == (ft.listening && ft.error)
            && f.syncd == (ft.listening && ft.syncd) && f.featureSeqNo == NumberBefore(ft, ctrl)
            && f.operVersion == if ft.listening then ft.operVersion else ft.maxVersion
  {
  }

  /** What is left is decided. */
  lemma DecidesIff(ft: Feature, ctrl: Control, pc: PeerControl)
    requires ft.advertise && VersionsMatch(ctrl, pc)
    requires !(ft.subtype.Cee? && pc.rxState.Expired?) && ft.peer.tlvPresent && !pc.tooMany
    ensures Decides(Entered(ft, ctrl, pc), ctrl, pc) <==>
              && !Outstanding(ft, ctrl, pc) && !ft.peer.duplicate
              && (if ft.listening then ft.operVersion else ft.maxVersion) == CommonVersion(ft) == ft.peer.operVersion
  {
  }

  /** Only duplicated TLVs leave the force-send mark, and no step takes it away. */
  lemma OnlyDuplicatesMark(id: FeatureId, ft: Feature, ctrl: Control, pc: PeerControl, remote: bool, drv: Driver)
    ensures FeatureStep(id, ft, ctrl, pc, remote, drv).forceSend <==>
            || ft.forceSend
            || (remote && ft.advertise && VersionsMatch(ctrl, pc) && !(ft.subtype.Cee? && pc.rxState.Expired?)
                && ft.peer.tlvPresent && !pc.tooMany && !Outstanding(ft, ctrl, pc) && ft.peer.duplicate)
  {
  }

  /** A remote step on control versions that do not match leaves an advertised feature as it is. */
  lemma OtherVersionChangesNothing(id: FeatureId, ft: Feature, ctrl: Control, pc: PeerControl, drv: Driver)
    requires ft.advertise && ft.listening && !VersionsMatch(ctrl, pc)
    ensures FeatureStep(id, ft, ctrl, pc, true, drv) == ft.(peer := ft.peer.(tlvPresent := ft.peer.tlvPresent && !pc.tooMany))
  {
  }

  /** A feature that is not advertised takes no part: it operates on its own configuration exactly if it is
      enabled, and is never in error. */
  lemma UnadvertisedIsItsOwn(id: FeatureId, ft: Feature, ctrl: Control, pc: PeerControl, remote: bool, drv: Driver)
    requires !ft.advertise
    ensures var r := FeatureStep(id, ft, ctrl, pc, remote, drv);
            && (r.operMode <==> ft.enable) && !r.error
            && (!(id.Pg? && remote) ==> r.oper == ft.config)
  {
  }

  /** A local change leaves the operation of an advertised feature alone, but for the first run of PFC, which
      puts its configuration in place. A synchronised feature takes the change up under the next number and
      waits if it is or was advertised, else nothing is to be sent for it; one that waits goes on waiting
      under its number. */
  lemma LocalStep(id: FeatureId, ft: Feature, ctrl: Control, pc: PeerControl, drv: Driver)
    ensures var r := FeatureStep(id, ft, ctrl, pc, false, drv);
            var waits := if ft.listening then !ft.syncd else ft.advertise;
            var announced := ft.advertise || ft.advertisePrev;
            && (ft.advertise ==>
                  && r.operMode == (ft.listening && ft.operMode) && r.error == (ft.listening && ft.error)
                  && r.oper == if id.Pfc? && !ft.listening then ft.config else ft.oper)
            && r.featureSeqNo == (if ft.listening && waits then ft.featureSeqNo else Next(ctrl.seqNo))
            && (r.syncd <==> !waits && !announced)
            && (r.tlvSent <==> ft.tlvSent || (!waits && !announced))
  {
  }

  // ---------- Which features an event reaches ----------

  /** A local event runs its own feature and no other; for the logical link it finds no store. */
  lemma LocalRunsOne(n: Node, target: FeatureId, drv: Driver, id: FeatureId)
    requires n.Valid()
    ensures RunFeatures(n, false, {target}, {target}, drv).feats[id] ==
            if id == target && !id.Llink? then FeatureStep(id, n.feats[id], n.ctrl, n.peerCtrl, false, drv) else n.feats[id]
  {
    hide FeatureStep;
    RunFeaturesAt(n, false, {target}, {target}, drv, id);
    assert {target} * AppFeatures != {} <==> target in {AppFcoe, AppIscsi, AppFip} by {
      assert target in AppFeatures ==> target in {target} * AppFeatures;
    }
    hide RunFeatures;
  }

  /** A flagged, advertised feature of which the control versions do not match. */
  predicate Stops(n: Node, flags: set<FeatureId>, id: FeatureId)
    requires n.Valid()
  {
    id in flags && n.feats[id].advertise && !VersionsMatch(n.ctrl, n.peerCtrl)
  }

  /** A remote event runs the flagged features in the order PFC, priority groups, applications all together, logical
      link, and the first flagged one that stops on the control versions keeps the later ones from running. Of
      the applications the last one, FIP, decides. */
  lemma RemoteRuns(n: Node, flags: set<FeatureId>, drv: Driver, id: FeatureId)
    requires n.Valid()
    ensures var apps := exists g :: g in flags && g in {AppFcoe, AppIscsi, AppFip};
            var fip := apps && n.feats[AppFip].advertise && !VersionsMatch(n.ctrl, n.peerCtrl);
            var runs :=
              match id
              case Pfc => Pfc in flags
              case Pg => Pg in flags && !Stops(n, flags, Pfc)
              case Llink => Llink in flags && !Stops(n, flags, Pfc) && !Stops(n, flags, Pg) && !fip
              case _ => apps && !Stops(n, flags, Pfc) && !Stops(n, flags, Pg);
            RunFeatures(n, true, flags, AppFeatures, drv).feats[id] ==
            if runs then FeatureStep(id, n.feats[id], n.ctrl, n.peerCtrl, true, drv) else n.feats[id]
  {
    hide FeatureStep;
    RunFeaturesAt(n, true, flags, AppFeatures, drv, id);
    hide RunFeatures;
    assert flags * AppFeatures != {} <==> exists g :: g in flags && g in {AppFcoe, AppIscsi, AppFip} by {
      if g :| g in flags && g in {AppFcoe, AppIscsi, AppFip} {
        assert g in flags * AppFeatures;
      }
    }
    assert VersionsMatch(n.ctrl, n.peerCtrl) <==> VersionsAgree(n.ctrl, n.peerCtrl);
    hide VersionsMatch, VersionsAgree;
  }

  /** When the peer expires no TLV is left stored, and of applications whose TLV was stored no data. */
  lemma ExpiryDropsTlvs(n: Node, drv: Driver, id: FeatureId)
    requires n.Valid()
    ensures var p, r := n.feats[id].peer, Expire(n, drv).feats[id].peer;
            !r.tlvPresent && r.config == if p.tlvPresent && id in {AppFcoe, AppIscsi, AppFip} then AppConfig([]) else p.config
  {
    DroppedAt(n, id);
    hide DropPeer, RunDcb, PresentPeers;
    RunKeepsPeer(DropPeer(n), PresentPeers(n), drv, id);
  }

  lemma DroppedAt(n: Node, id: FeatureId)
    requires n.Valid()
    ensures var p, r := n.feats[id].peer, DropPeer(n).feats[id].peer;
            !r.tlvPresent && r.config == if p.tlvPresent && id in {AppFcoe, AppIscsi, AppFip} then AppConfig([]) else p.config
  {
    assert DropPeer(n).feats[id].peer == WithoutTlv(id, n.feats[id].peer);
  }

  lemma RunKeepsPeer(n: Node, flags: set<FeatureId>, drv: Driver, id: FeatureId)
    requires n.Valid()
    ensures var p := RunDcb(n, true, flags, AppFeatures, drv).feats[id].peer;
            p.config == n.feats[id].peer.config && (!n.feats[id].peer.tlvPresent ==> !p.tlvPresent)
  {
    hide FeatureStep, Selected, RunFeatures, RunControl;
    RunFeaturesAt(n, true, flags, AppFeatures, drv, id);
    PeerConfigStays(id, n.feats[id], n.ctrl, n.peerCtrl, drv);
    ControlKeepsPeers(RunFeatures(n, true, flags, AppFeatures, drv), id);
  }

  lemma PeerConfigStays(id: FeatureId, ft: Feature, ctrl: Control, pc: PeerControl, drv: Driver)
    ensures var p := FeatureStep(id, ft, ctrl, pc, true, drv).peer;
            p.config == ft.peer.config && (!ft.peer.tlvPresent ==> !p.tlvPresent)
  {
  }

  lemma ControlKeepsPeers(n: Node, id: FeatureId)
    requires n.Valid()
    ensures RunControl(n, true).feats[id].peer == n.feats[id].peer
  {
  }

  // ---------- Errors ----------

  /** A feature in error says so to the peer: in a remote step that changes the Error bit of an advertised
      feature, the change goes out under a new number exactly if the step reached the decision, the CEE
      peer expired, or duplicated TLVs came for a feature that was unsynchronised or CIN. Otherwise the
      feature stays synchronised, as it does when a TLV is missing. */
  lemma ErrorAnnouncedIff(id: FeatureId, ft: Feature, ctrl: Control, pc: PeerControl, drv: Driver)
    requires ft.advertise && ft.listening && VersionsMatch(ctrl, pc)
    requires FeatureStep(id, ft, ctrl, pc, true, drv).error != ft.error
    ensures var r := FeatureStep(id, ft, ctrl, pc, true, drv);
            !r.syncd <==>
              || Decides(Entered(ft, ctrl, pc), ctrl, pc)
              || (ft.subtype.Cee? && pc.rxState.Expired?)
              || (ft.peer.tlvPresent && !pc.tooMany && ft.peer.duplicate && (!ft.syncd || ft.subtype.Cin?))
    ensures var r := FeatureStep(id, ft, ctrl, pc, true, drv);
            !r.syncd ==> r.featureSeqNo == if ft.subtype.Cee? && pc.rxState.Expired? then 1 else Next(ctrl.seqNo)
  {
    hide Judge;
  }

  /** With identical settings on both sides and no error reported, a mirrored PFC or application feature that
      decides comes into operation, whatever the willing bits. */
  lemma SameSettingsComeUp(id: FeatureId, a: Feature, b: Feature, ctrl: Control, pc: PeerControl, drv: Driver)
    requires Mirrors(a, b) && Decides(Entered(a, ctrl, pc), ctrl, pc) && id !in drv.failing
    requires a.config == b.config && (a.config.PfcConfig? || a.config.AppConfig?)
    requires a.enable && b.enable && !a.peer.error
    ensures FeatureStep(id, a, ctrl, pc, true, drv).operMode && !FeatureStep(id, a, ctrl, pc, true, drv).error
  {
    hide FeatureStep, Decides, Entered;
    DecisionOutcome(id, a, ctrl, pc, drv);
  }

  /** Two mirrored CEE features that decide raise Error together: both do, exactly if both are enabled, equally
      willing and differ in their PFC vector or application data; logical links always differ and CEE
      priority groups never do. */
  lemma ErrorsAgree(id: FeatureId, a: Feature, b: Feature, ca: Control, cb: Control, pa: PeerControl, pb: PeerControl,
                    da: Driver, db: Driver)
    requires Mirrors(a, b) && Decides(Entered(a, ca, pa), ca, pa) && Decides(Entered(b, cb, pb), cb, pb) && a.subtype.Cee?
    requires a.config.PfcConfig? == b.config.PfcConfig? && a.config.AppConfig? == b.config.AppConfig?
    requires a.config.LlinkConfig? == b.config.LlinkConfig?
    ensures var fa, fb := FeatureStep(id, a, ca, pa, true, da), FeatureStep(id, b, cb, pb, true, db);
            && fa.error == fb.error
            && (fa.error <==>
                  && a.enable && b.enable && a.willing == b.willing
                  && (a.config.LlinkConfig? || (!a.config.PgConfig? && a.config != b.config)))
  {
    hide FeatureStep, Decides, Entered;
    DecisionOutcome(id, a, ca, pa, da);
    DecisionOutcome(id, b, cb, pb, db);
  }

  /** CIN priority groups are compatible exactly if the group percentages and each priority's bandwidth
      group, strictness and percentage agree for transmission; both sides see it alike. */
  lemma CinGroupsCompatible(a: Config, b: Config, p: Peer, q: Peer)
    requires a.PgConfig? && b.PgConfig? && |a.tx.up| == |b.tx.up|
    requires p.config == b && q.config == a && p.subtype.Cin? && q.subtype.Cin?
    ensures Compatible(a, p) == Compatible(b, q)
    ensures Compatible(a, p) <==>
              && a.tx.pgPercent == b.tx.pgPercent
              && forall i :: 0 <= i < |a.tx.up| ==> a.tx.up[i].(pgid := 0) == b.tx.up[i].(pgid := 0)
  {
    if a.tx.pgPercent == b.tx.pgPercent {
      forall i | 0 <= i < |a.tx.up|
        ensures SamePriority(a.tx.up[i], b.tx.up[i]) <==> a.tx.up[i].(pgid := 0) == b.tx.up[i].(pgid := 0)
        ensures SamePriority(b.tx.up[i], a.tx.up[i]) <==> SamePriority(a.tx.up[i], b.tx.up[i])
      {
      }
    }
  }

  /** Two enabled, unwilling CEE sides with different PFC vectors: Error is raised and announced under
      number 6. */
  lemma MismatchIsAnnounced(ft: Feature)
    requires ft.advertise && ft.listening && ft.enable && !ft.willing && ft.syncd && !ft.error && ft.subtype.Cee?
    requires ft.operVersion == ft.maxVersion == ft.peer.maxVersion == ft.peer.operVersion
    requires ft.peer.tlvPresent && !ft.peer.duplicate && ft.peer.enable && !ft.peer.willing
    requires ft.config.PfcConfig? && ft.peer.config.PfcConfig? && ft.config != ft.peer.config
    ensures var r := FeatureStep(Pfc, ft, Control(true, 0, 0, 5, 7, 5), PeerControl(0, 0, 7, 5, Present, false, false), true,
                                 Driver({}, LlinkConfig(false)));
            r.error && !r.syncd && r.featureSeqNo == 6 && !r.operMode
  {
    var c, pc := Control(true, 0, 0, 5, 7, 5), PeerControl(0, 0, 7, 5, Present, false, false);
    DecidesIff(ft, c, pc);
    DecisionOutcome(Pfc, ft, c, pc, Driver({}, LlinkConfig(false)));
    hide FeatureStep;
  }

  // ---------- Over runs ----------

  /** No feature in error operates. */
  ghost predicate ErrorsAreDown(n: Node)
    requires n.Valid()
  {
    forall id :: n.feats[id].error ==> !n.feats[id].operMode
  }

  lemma StepDown(id: FeatureId, ft: Feature, ctrl: Control, pc: PeerControl, remote: bool, drv: Driver)
    requires ft.error ==> !ft.operMode
    ensures var r := FeatureStep(id, ft, ctrl, pc, remote, drv); r.error ==> !r.operMode
  {
    hide Judge;
  }

  lemma ControlKeepsBits(n: Node, remote: bool, id: FeatureId)
    requires n.Valid()
    ensures RunControl(n, remote).feats[id].error == n.feats[id].error
    ensures RunControl(n, remote).feats[id].operMode == n.feats[id].operMode
  {
  }

  lemma RunDcbDown(n: Node, remote: bool, flags: set<FeatureId>, apps: set<FeatureId>, drv: Driver)
    requires n.Valid() && ErrorsAreDown(n)
    ensures ErrorsAreDown(RunDcb(n, remote, flags, apps, drv))
  {
    hide FeatureStep, Selected, RunFeatures, RunControl;
    forall id
      ensures RunDcb(n, remote, flags, apps, drv).feats[id].error ==> !RunDcb(n, remote, flags, apps, drv).feats[id].operMode
    {
      assert n.feats[id].error ==> !n.feats[id].operMode;
      StepDown(id, n.feats[id], n.ctrl, n.peerCtrl, remote, drv);
      RunFeaturesAt(n, remote, flags, apps, drv, id);
      ControlKeepsBits(RunFeatures(n, remote, flags, apps, drv), remote, id);
    }
  }

  /** What is stored before the protocol runs touches neither bit. */
  lemma StoredDown(n: Node, a: Action)
    requires n.Valid() && ErrorsAreDown(n)
    ensures ErrorsAreDown(Seen(n, a)) && ErrorsAreDown(DropPeer(n))
    ensures a.Transmit? ==> ErrorsAreDown(Step(n, a))
  {
    forall id
      ensures Seen(n, a).feats[id].error == n.feats[id].error && Seen(n, a).feats[id].operMode == n.feats[id].operMode
      ensures DropPeer(n).feats[id].error == n.feats[id].error && DropPeer(n).feats[id].operMode == n.feats[id].operMode
      ensures a.Transmit? ==> Step(n, a).feats[id].error == n.feats[id].error && Step(n, a).feats[id].operMode == n.feats[id].operMode
    {
    }
  }

  /** In every run, expiry included, no feature in error operates. */
  lemma {:induction false} ErrorNeverOperates(n: Node, acts: seq<Action>)
    requires n.Valid() && ErrorsAreDown(n)
    ensures ErrorsAreDown(Run(n, acts))
    decreases |acts|
  {
    hide RunDcb, ErrorsAreDown;
    if acts != [] {
      var m, a := Run(n, acts[..|acts| - 1]), acts[|acts| - 1];
      ErrorNeverOperates(n, acts[..|acts| - 1]);
      StoredDown(m, a);
      match a
      case LocalPut(id, _, drv) => RunDcbDown(Seen(m, a), false, {id}, {id}, drv);
      case Receive(_, _, _, _, flags, drv) => RunDcbDown(Seen(m, a), true, flags, AppFeatures, drv);
      case ExpirePeer(drv) => RunDcbDown(DropPeer(m), true, PresentPeers(m), AppFeatures, drv);
      case Transmit =>
    }
  }

  // ---------- A client's settings ----------

  /** Enable and Willing reach the feature they are set on and, for an application, every application. */
  predicate Shares(id: FeatureId, target: FeatureId) {
    id == target || (id in {AppFcoe, AppIscsi, AppFip} && target in {AppFcoe, AppIscsi, AppFip})
  }

  lemma ControlKeepsSettings(n: Node, remote: bool, id: FeatureId)
    requires n.Valid()
    ensures var f, r := n.feats[id], RunControl(n, remote).feats[id];
            && r.enable == f.enable && r.willing == f.willing && r.advertise == f.advertise && r.config == f.config
            && r.tlvSent == f.tlvSent
  {
  }

  lemma FeatureKeepsSettings(id: FeatureId, ft: Feature, ctrl: Control, pc: PeerControl, remote: bool, drv: Driver)
    ensures var r := FeatureStep(id, ft, ctrl, pc, remote, drv);
            r.enable == ft.enable && r.willing == ft.willing && r.advertise == ft.advertise && r.config == ft.config
  {
  }

  lemma Configured(n: Node, target: FeatureId, s: Settings, id: FeatureId)
    requires n.Valid()
    ensures var f, r := n.feats[id], PutSettings(n, target, s).feats[id];
            && r.enable == (if Shares(id, target) then s.enable else f.enable)
            && r.willing == (if Shares(id, target) then s.willing else f.willing)
            && r.advertise == (if id == target then s.advertise else f.advertise)
            && r.config == if id == target && !(id in {AppFcoe, AppIscsi, AppFip} && s.config == AppConfig([])) then s.config else f.config
  {
  }

  /** After a local change the feature has the client's settings, the other applications its Enable and
      Willing, and nothing else has changed; an application given no data keeps its own. */
  lemma SettingsArrive(n: Node, target: FeatureId, s: Settings, drv: Driver, id: FeatureId)
    requires n.Valid()
    ensures var f, r := n.feats[id], Step(n, LocalPut(target, s, drv)).feats[id];
            && r.enable == (if Shares(id, target) then s.enable else f.enable)
            && r.willing == (if Shares(id, target) then s.willing else f.willing)
            && r.advertise == (if id == target then s.advertise else f.advertise)
            && r.config == if id == target && !(id in {AppFcoe, AppIscsi, AppFip} && s.config == AppConfig([])) then s.config else f.config
  {
    hide FeatureStep, Selected, RunFeatures, RunControl;
    var m := PutSettings(n, target, s);
    Configured(n, target, s, id);
    hide PutSettings;
    var g := RunFeatures(m, false, {target}, {target}, drv);
    RunFeaturesAt(m, false, {target}, {target}, drv, id);
    FeatureKeepsSettings(id, m.feats[id], m.ctrl, m.peerCtrl, false, drv);
    ControlKeepsSettings(g, false, id);
  }
}
