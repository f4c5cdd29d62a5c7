/** The feature state machine of legacy DCBX, as a decision table, and what it guarantees.
    `DcbxPort.RunFeatureProtocol` is the step-by-step form proved equal to `FeatureStep`.
 */
module DcbxFeature {
  import opened PgTypes
  import opened Words
  import opened DcbxTypes

  predicate VersionsAgree(ctrl: Control, pc: PeerControl) {
    ctrl.operVersion == Min(pc.maxVersion, ctrl.maxVersion) == pc.operVersion
  }

  /** LocalPeerCompatible: priority groups are compared only against a CIN peer, and then by what
      the CIN TLV carries; logical links never match. */
  predicate Compatible(local: Config, peer: Peer) {
    match (local, peer.config)
    case (PfcConfig(a), PfcConfig(b)) => a == b
    case (AppConfig(a), AppConfig(b)) => a == b
    case (PgConfig(ltx, _), PgConfig(ptx, _)) =>
      peer.subtype.Cee? ||
      (ltx.pgPercent == ptx.pgPercent && |ltx.up| == |ptx.up| &&
       forall i | 0 <= i < |ltx.up| :: SamePriority(ltx.up[i], ptx.up[i]))
    case _ => false
  }

  predicate SamePriority(a: Priority, b: Priority) {
    a.bwgid == b.bwgid && a.strict == b.strict && a.percent == b.percent
  }

  /** Entry of the state machine: a second neighbour hides the peer's TLV, DCB_INIT is left, and
      taking up a local change, which only a synchronised feature does. */
  function Enter(ft: Feature, ctrl: Control, tooMany: bool, remote: bool): Feature {
    var first := !ft.listening;
    var synced := if first then !ft.advertise else ft.syncd;
    var announced := ft.advertise || ft.advertisePrev;
    var takesUp := !remote && synced;
    ft.(listening := true,
        peer := ft.peer.(tlvPresent := ft.peer.tlvPresent && !tooMany),
        operVersion := if first then ft.maxVersion else ft.operVersion,
        operMode := ft.operMode && !first,
        error := ft.error && !first,
        featureSeqNo := if first || takesUp then Next(ctrl.seqNo) else ft.featureSeqNo,
        syncd := if takesUp then !announced else synced,
        tlvSent := ft.tlvSent || (takesUp && !announced))
  }

  /** What a decision amounts to. */
  datatype Verdict = Disabled | TakePeer | TakeLocal | Agree | Conflict

  function Judge(enable: bool, willing: bool, config: Config, peer: Peer): Verdict {
    if !enable || !peer.enable then Disabled
    else if willing && !peer.willing then TakePeer
    else if !willing && peer.willing then TakeLocal
    else if Compatible(config, peer) then Agree
    else Conflict
  }

  /** Waiting: an announced change has not been acknowledged yet. */
  predicate Waiting(ft: Feature, pc: PeerControl) {
    !ft.syncd && pc.ackNo != ft.featureSeqNo
  }

  predicate ExpiryPending(ft: Feature, pc: PeerControl) {
    ft.subtype.Cee? && pc.rxState.Expired?
  }

  /** The row of the protocol table that applies once the machine has been entered. */
  datatype Row =
    | Unadvertised
    | LocalOnly
    | BadVersion
    | PeerExpired
    | NoPeerTlv
    | Hold
    | Duplicates
    | NewVersion
    | PeerVersion
    | Decision(verdict: Verdict)

  function RowOf(f: Feature, ctrl: Control, pc: PeerControl, remote: bool): Row {
    if !f.advertise then Unadvertised
    else if !remote then LocalOnly
    else if !VersionsAgree(ctrl, pc) then BadVersion
    else if ExpiryPending(f, pc) then PeerExpired
    else if !f.peer.tlvPresent then NoPeerTlv
    else if Waiting(f, pc) then Hold
    else if f.peer.duplicate then Duplicates
    else if f.operVersion != Min(f.peer.maxVersion, f.maxVersion) then NewVersion
    else if f.operVersion != f.peer.operVersion then PeerVersion
    else Decision(Judge(f.enable, f.willing, f.config, f.peer))
  }

  // The columns of the table.

  function ErrorAfter(f: Feature, row: Row, failing: bool): bool {
    match row
    case Unadvertised => false
    case PeerExpired => true
    case NoPeerTlv => f.subtype.Cee?
    case Duplicates => true
    case Decision(v) => v.Conflict? || (f.subtype.Cin? && failing)
    case _ => f.error
  }

  function SyncdAfter(f: Feature, row: Row, failing: bool): bool {
    match row
    case PeerExpired => false
    case NoPeerTlv => true
    case Duplicates => f.syncd && (f.error || f.subtype.Cee?)
    case NewVersion => false
    case PeerVersion => true
    case Decision(_) => ErrorAfter(f, row, failing) == f.error
    case _ => f.syncd
  }

  function FeatureSeqNoAfter(f: Feature, row: Row, ctrl: Control, failing: bool): u32 {
    match row
    case PeerExpired => 1
    case NewVersion => Next(ctrl.seqNo)
    case Duplicates => if f.error then f.featureSeqNo else Next(ctrl.seqNo)
    case Decision(_) =>
      if ErrorAfter(f, row, failing) == f.error then f.featureSeqNo else Next(ctrl.seqNo)
    case _ => f.featureSeqNo
  }

  function OperModeAfter(f: Feature, row: Row, failing: bool): bool {
    match row
    case Unadvertised => f.enable
    case Decision(v) =>
      (v.TakePeer? || v.TakeLocal? || v.Agree?) && !f.peer.error && !ErrorAfter(f, row, failing)
    case _ => !row.PeerExpired? && !row.NoPeerTlv? && !row.Duplicates? && f.operMode
  }

  /** The operational configuration, as programmed: for a remote change of priority groups the
      rule checker rewrites it. `justAdded` is the first local run of PFC. */
  function OperAfter(id: FeatureId, f: Feature, row: Row, justAdded: bool, remote: bool, drv: Driver): Config {
    if row.BadVersion? || row.Hold? || row.NewVersion? || row.PeerVersion? || (row.LocalOnly? && !justAdded)
    then f.oper
    else if id.Pg? && remote then drv.pgOper
    else if row.Decision? && row.verdict.TakePeer? && (f.subtype.Cin? || !f.peer.error) then f.peer.config
    else f.config
  }

  function OperVersionAfter(f: Feature, row: Row): nat {
    match row
    case NoPeerTlv => f.maxVersion
    case NewVersion => Min(f.peer.maxVersion, f.maxVersion)
    case _ => f.operVersion
  }

  function AfterRow(id: FeatureId, f: Feature, row: Row, ctrl: Control, justAdded: bool, remote: bool,
                    drv: Driver): Feature {
    var failing := id in drv.failing;
    f.(error := ErrorAfter(f, row, failing),
       syncd := SyncdAfter(f, row, failing),
       featureSeqNo := FeatureSeqNoAfter(f, row, ctrl, failing),
       operMode := OperModeAfter(f, row, failing),
       oper := OperAfter(id, f, row, justAdded, remote, drv),
       operVersion := OperVersionAfter(f, row),
       forceSend := f.forceSend || row.Duplicates?)
  }

  /** One run of the feature state machine for a local or a remote change. */
  function FeatureStep(id: FeatureId, ft: Feature, ctrl: Control, pc: PeerControl, remote: bool,
                       drv: Driver): Feature {
    var f := Enter(ft, ctrl, pc.tooMany, remote);
    AfterRow(id, f, RowOf(f, ctrl, pc, remote), ctrl, !ft.listening && id.Pfc?, remote, drv)
  }

  // ---------- The decision ----------

  /** A remote step that enters with `f` gets as far as the enable/willing decision. */
  predicate Decides(f: Feature, ctrl: Control, pc: PeerControl) {
    && f.advertise && VersionsAgree(ctrl, pc) && !ExpiryPending(f, pc)
    && f.peer.tlvPresent && !Waiting(f, pc) && !f.peer.duplicate
    && f.operVersion == Min(f.peer.maxVersion, f.maxVersion) == f.peer.operVersion
  }

  /** The feature as a remote step finds it: DCB_INIT left, a second neighbour's TLV hidden. */
  function Entered(ft: Feature, ctrl: Control, pc: PeerControl): Feature {
    Enter(ft, ctrl, pc.tooMany, true)
  }

  lemma EnteredKeeps(ft: Feature, ctrl: Control, pc: PeerControl)
    ensures var f := Entered(ft, ctrl, pc);
            && f.enable == ft.enable && f.willing == ft.willing && f.config == ft.config && f.subtype == ft.subtype
            && f.peer == ft.peer.(tlvPresent := ft.peer.tlvPresent && !pc.tooMany)
            && (ft.listening ==> f == ft.(peer := f.peer))
            && (!ft.listening ==> !f.error && f.featureSeqNo == Next(ctrl.seqNo))
  {
  }

  lemma DecisionRow(id: FeatureId, ft: Feature, ctrl: Control, pc: PeerControl, drv: Driver)
    requires Decides(Entered(ft, ctrl, pc), ctrl, pc)
    ensures var f := Entered(ft, ctrl, pc);
            FeatureStep(id, ft, ctrl, pc, true, drv) ==
            AfterRow(id, f, Decision(Judge(f.enable, f.willing, f.config, f.peer)), ctrl, !ft.listening && id.Pfc?, true, drv)
  {
    hide AfterRow, Judge, Enter;
  }

  /** After any remote step that reaches the decision, from DCB_INIT or from DCB_LISTEN: when OperMode
      holds, when Error does, Syncd exactly when the Error bit is unchanged, a new feature sequence number
      exactly when it changed (or DCB_INIT was left), and the configuration operated on. */
  lemma DecisionOutcome(id: FeatureId, ft: Feature, ctrl: Control, pc: PeerControl, drv: Driver)
    requires Decides(Entered(ft, ctrl, pc), ctrl, pc)
    ensures FeatureStep(id, ft, ctrl, pc, true, drv).operMode <==>
              && ft.enable && ft.peer.enable && !ft.peer.error
              && (ft.willing != ft.peer.willing || Compatible(ft.config, ft.peer))
              && (ft.subtype.Cin? ==> id !in drv.failing)
    ensures FeatureStep(id, ft, ctrl, pc, true, drv).error <==>
              || (ft.enable && ft.peer.enable && ft.willing == ft.peer.willing && !Compatible(ft.config, ft.peer))
              || (ft.subtype.Cin? && id in drv.failing)
    ensures FeatureStep(id, ft, ctrl, pc, true, drv).syncd <==>
              FeatureStep(id, ft, ctrl, pc, true, drv).error == (ft.listening && ft.error)
    ensures FeatureStep(id, ft, ctrl, pc, true, drv).featureSeqNo ==
              if ft.listening && FeatureStep(id, ft, ctrl, pc, true, drv).error == ft.error
              then ft.featureSeqNo else Next(ctrl.seqNo)
    ensures !id.Pg? ==>
              FeatureStep(id, ft, ctrl, pc, true, drv).oper ==
              if ft.enable && ft.peer.enable && ft.willing && !ft.peer.willing && (ft.subtype.Cin? || !ft.peer.error)
              then ft.peer.config else ft.config
  {
    hide FeatureStep, Enter;
    EnteredKeeps(ft, ctrl, pc);
    DecisionRow(id, ft, ctrl, pc, drv);
    var f := Entered(ft, ctrl, pc);
    assert Compatible(f.config, f.peer) == Compatible(ft.config, ft.peer);
  }

  /** An advertised feature comes into operation only by a decision. */
  lemma OperModeNeedsDecision(id: FeatureId, ft: Feature, ctrl: Control, pc: PeerControl, drv: Driver)
    requires ft.advertise && !Entered(ft, ctrl, pc).operMode
    requires FeatureStep(id, ft, ctrl, pc, true, drv).operMode
    ensures Decides(Entered(ft, ctrl, pc), ctrl, pc)
  {
  }

  /** Each side's store of the other holds what the other has configured. */
  predicate Mirrors(a: Feature, b: Feature) {
    && a.subtype == b.subtype == a.peer.subtype == b.peer.subtype
    && a.peer.willing == b.willing && b.peer.willing == a.willing
    && a.peer.enable == b.enable && b.peer.enable == a.enable
    && a.peer.config == b.config && b.peer.config == a.config
  }

  /** Two-node agreement: two mirrored features that both decide and both come up operate on the
      same PFC vector or application data, whatever the willing bits. */
  lemma Agreement(id: FeatureId, a: Feature, b: Feature, ca: Control, cb: Control, pa: PeerControl,
                  pb: PeerControl, da: Driver, db: Driver)
    requires Mirrors(a, b) && Decides(Entered(a, ca, pa), ca, pa) && Decides(Entered(b, cb, pb), cb, pb)
    requires a.config.PfcConfig? || a.config.AppConfig?
    requires !id.Pg?
    ensures var fa := FeatureStep(id, a, ca, pa, true, da);
            var fb := FeatureStep(id, b, cb, pb, true, db);
            fa.operMode && fb.operMode ==>
              && fa.oper == fb.oper
              && fa.oper == (if a.willing && !b.willing then b.config else a.config)
  {
    hide FeatureStep, Decides, Entered;
    DecisionOutcome(id, a, ca, pa, da);
    DecisionOutcome(id, b, cb, pb, db);
  }
}
