/** The control state machine of legacy DCBX and whole-port events: local changes, received
    LLDPDUs, transmissions and peer expiry.
    `DcbxPort` is the step-by-step form proved equal to these functions.
 */
module DcbxNode {
  import opened Words
  import opened DcbxTypes
  import opened DcbxFeature

  /** What a control TLV carries. */
  datatype ControlTlv = ControlTlv(seqNo: u32, ackNo: u32, operVersion: nat, maxVersion: nat)

  function TlvOf(n: Node): ControlTlv {
    ControlTlv(n.ctrl.seqNo, n.ctrl.ackNo, n.ctrl.operVersion, n.ctrl.maxVersion)
  }

  // ---------- Control protocol ----------

  predicate FeaturesSynched(feats: map<FeatureId, Feature>) {
    forall id <- feats :: feats[id].listening ==> feats[id].syncd && feats[id].tlvSent
  }

  /** Unadvertised and force-sent features count as synchronised once a send goes out. */
  function Released(ft: Feature): Feature {
    ft.(syncd := ft.syncd || !ft.advertise || ft.forceSend)
  }

  function UpdateFeatureSyncd(feats: map<FeatureId, Feature>): (r: map<FeatureId, Feature>)
    ensures r.Keys == feats.Keys
  {
    map id | id in feats :: Released(feats[id])
  }

  /** The control machine's first run leaves DCB_INIT. */
  function Listen(c: Control): Control {
    c.(listening := true, operVersion := if c.listening then c.operVersion else c.maxVersion)
  }

  /** The peer is of another version, or repeated its control TLV. */
  predicate OutOfStep(c: Control, pc: PeerControl) {
    pc.duplicate || !VersionsAgree(c, pc)
  }

  /** The peer has sent something new, or has started over. */
  predicate News(c: Control, pc: PeerControl) {
    (c.ackNo != pc.seqNo || pc.ackNo == 0) && !pc.tooMany
  }

  /** Take in the peer's control variables: restart the numbering after expiry, else agree on a
      version, then take over the acknowledgement and acknowledge the peer's number. */
  function TakeIn(c: Control, pc: PeerControl): Control {
    var inStep := !OutOfStep(c, pc);
    if pc.rxState.Expired? then c.(seqNo := 0, ackNo := 0, myAckNo := 0, operVersion := c.maxVersion)
    else c.(operVersion := if pc.duplicate then c.operVersion else Min(pc.maxVersion, c.maxVersion),
            myAckNo := if inStep then pc.ackNo else c.myAckNo,
            ackNo := if inStep && News(c, pc) then pc.seqNo else c.ackNo)
  }

  /** The control variables before a possible send. */
  function Updated(n: Node, remote: bool): Control {
    if remote then TakeIn(Listen(n.ctrl), n.peerCtrl) else Listen(n.ctrl)
  }

  /** Pending changes are announced under a new sequence number once the last one was
      acknowledged; a CEE port whose peer expired waits for the next event. */
  predicate Sends(n: Node, remote: bool)
    requires n.Valid()
  {
    && Updated(n, remote).seqNo == Updated(n, remote).myAckNo
    && !FeaturesSynched(n.feats)
    && !(remote && n.peerCtrl.rxState.Expired? && n.feats[Pg].subtype.Cee?)
  }

  /** The control TLV is to be sent again although no feature changed. */
  predicate Resends(n: Node)
    requires n.Valid()
  {
    var c := Listen(n.ctrl);
    if n.peerCtrl.rxState.Expired? then n.feats[Pg].subtype.Cin?
    else if n.peerCtrl.duplicate then false
    else if c.operVersion != Min(n.peerCtrl.maxVersion, c.maxVersion) then true
    else c.operVersion == n.peerCtrl.operVersion && News(c, n.peerCtrl)
  }

  function RunControl(n: Node, remote: bool): (r: Node)
    requires n.Valid()
    ensures r.Valid()
    ensures r.feats == n.feats || r.feats == UpdateFeatureSyncd(n.feats)
  {
    if !n.active then n
    else
      var c := Updated(n, remote);
      var sends := Sends(n, remote);
      n.(ctrl := c.(seqNo := if sends then Next(c.seqNo) else c.seqNo),
         peerCtrl := if remote && n.peerCtrl.rxState.Expired? then n.peerCtrl.(rxState := Reset) else n.peerCtrl,
         feats := if sends then UpdateFeatureSyncd(n.feats) else n.feats,
         txRequested := n.txRequested || sends || (remote && Resends(n)))
  }

  // ---------- Features of one event ----------

  /** A remote step of this feature stops on incompatible control versions. */
  predicate Blocks(n: Node, remote: bool, id: FeatureId)
    requires id in n.feats
  {
    remote && n.feats[id].advertise && !VersionsAgree(n.ctrl, n.peerCtrl)
  }

  /** The features that run, in the order PFC, PG, APP, LLINK: a version failure skips the later
      ones, applications run as one batch, and a local logical-link change finds no store. */
  function Selected(n: Node, remote: bool, flags: set<FeatureId>, apps: set<FeatureId>): set<FeatureId>
    requires n.Valid()
  {
    var pfcBad := Pfc in flags && Blocks(n, remote, Pfc);
    var pgRuns := Pg in flags && !pfcBad;
    var pgBad := pgRuns && Blocks(n, remote, Pg);
    var appsRun := flags * AppFeatures != {} && !pfcBad && !pgBad;
    var appBad := appsRun && LastApp(apps).Some? && Blocks(n, remote, LastApp(apps).value);
    (if Pfc in flags then {Pfc} else {}) + (if pgRuns then {Pg} else {}) +
    (if appsRun then apps * AppFeatures else {}) +
    (if remote && Llink in flags && !pfcBad && !pgBad && !appBad then {Llink} else {})
  }

  function LastApp(apps: set<FeatureId>): Option<FeatureId> {
    if AppFip in apps then Some(AppFip)
    else if AppIscsi in apps then Some(AppIscsi)
    else if AppFcoe in apps then Some(AppFcoe)
    else None
  }

  function RunFeatures(n: Node, remote: bool, flags: set<FeatureId>, apps: set<FeatureId>,
                       drv: Driver): (r: Node)
    requires n.Valid()
    ensures r.Valid() && r == n.(feats := r.feats)
  {
    var sel := Selected(n, remote, flags, apps);
    n.(feats := map id | id in n.feats ::
         if id in sel then FeatureStep(id, n.feats[id], n.ctrl, n.peerCtrl, remote, drv)
         else n.feats[id])
  }

  /** run_dcb_protocol: the flagged features, then the control protocol. */
  function RunDcb(n: Node, remote: bool, flags: set<FeatureId>, apps: set<FeatureId>,
                  drv: Driver): (r: Node)
    requires n.Valid()
    ensures r.Valid()
  {
    if !n.active || flags == {} then n
    else RunControl(RunFeatures(n, remote, flags, apps, drv), remote)
  }

  // ---------- Flags of a received frame ----------

  /** A sub-TLV of a received frame. */
  datatype SubTlv = Absent | GoodLength | BadLength

  /** The application TLV: its length and the version it came with. */
  datatype AppTlv = AppTlv(length: nat, version: Subtype)

  /** The sub-TLVs a frame brought (tlv_dcbx.c:1059-1147). */
  datatype Manifest = Manifest(pg: SubTlv, pfc: SubTlv, llink: SubTlv, app: Option<AppTlv>)

  const SUB_TLV_HEADER := 4
  const MAX_APP_DATA := 507

  /** process_dcbx_app_tlv stores something: a CEE TLV holds at least its header, a CIN TLV also no more
      data than the store does. */
  predicate Usable(t: AppTlv) {
    t.length >= SUB_TLV_HEADER && (t.version.Cin? ==> t.length - SUB_TLV_HEADER <= MAX_APP_DATA)
  }

  /** Whether a frame flags a feature: always, but for applications whose TLV is there and not usable. */
  predicate Flagged(m: Manifest, id: FeatureId) {
    IsApp(id) && m.app.Some? ==> Usable(m.app.value)
  }

  // ---------- Events ----------

  /** put_peer_control: a duplicated control TLV or a second neighbour only leaves its error. */
  function PutPeerControl(pc: PeerControl, tlv: PeerControl): PeerControl {
    if tlv.duplicate || tlv.tooMany then pc.(duplicate := tlv.duplicate, tooMany := tlv.tooMany) else tlv
  }

  function StoreTlv(n: Node, tlv: ControlTlv, duplicate: bool, tooMany: bool,
                    peers: map<FeatureId, Peer>): (r: Node)
    ensures r.feats.Keys == n.feats.Keys
  {
    n.(peerCtrl := PutPeerControl(n.peerCtrl,
         PeerControl(tlv.operVersion, tlv.maxVersion, tlv.seqNo, tlv.ackNo, Present, duplicate, tooMany)),
       feats := map id | id in n.feats ::
         n.feats[id].(peer := if id in peers then peers[id] else n.feats[id].peer))
  }

  /** The attributes a client sets on a feature. */
  datatype Settings = Settings(enable: bool, willing: bool, advertise: bool, config: Config)

  /** The settings in a client's copy of a feature's local store. */
  function SettingsOf(copy: Feature): Settings {
    Settings(copy.enable, copy.willing, copy.advertise, copy.config)
  }

  /** The copy still compares equal to the local store, protocol variables included. */
  predicate Unchanged(copy: Feature, ft: Feature) {
    copy.(oper := ft.oper, peer := ft.peer) == ft
  }

  /** put_app leaves the stored application data alone when given none. */
  predicate KeepsData(id: FeatureId, s: Settings) {
    IsApp(id) && s.config == AppConfig([])
  }

  /** A client's settings for feature `target`, as they reach feature `id`: put_app spreads Enable
      and Willing to the other application features. */
  function Configure(id: FeatureId, ft: Feature, target: FeatureId, s: Settings): Feature {
    var own := id == target;
    var shared := own || (IsApp(id) && IsApp(target));
    ft.(enable := if shared then s.enable else ft.enable,
        willing := if shared then s.willing else ft.willing,
        advertisePrev := if own then ft.advertise else ft.advertisePrev,
        advertise := if own then s.advertise else ft.advertise,
        tlvSent := ft.tlvSent && !own,
        config := if own && !KeepsData(id, s) then s.config else ft.config)
  }

  function PutSettings(n: Node, target: FeatureId, s: Settings): (r: Node)
    requires n.Valid()
    ensures r.Valid()
  {
    n.(feats := map id | id in n.feats :: Configure(id, n.feats[id], target, s))
  }

  function MarkSent(feats: map<FeatureId, Feature>): (r: map<FeatureId, Feature>)
    ensures r.Keys == feats.Keys
  {
    map id | id in feats :: feats[id].(tlvSent := true)
  }

  /** The features whose peer TLV is stored: these are flagged when the peer expires. */
  function PresentPeers(n: Node): set<FeatureId> {
    set id | id in n.feats && n.feats[id].peer.tlvPresent
  }

  function WithoutTlv(id: FeatureId, p: Peer): Peer {
    p.(tlvPresent := false,
       config := if IsApp(id) && p.tlvPresent then AppConfig([]) else p.config)
  }

  function Dropped(id: FeatureId, ft: Feature): Feature {
    ft.(peer := WithoutTlv(id, ft.peer))
  }

  /** The stored peer TLVs are dropped and the peer is marked expired; put_peer_control does not
      record the latter while a duplicate or neighbour error is stored. */
  function DropPeer(n: Node): (r: Node)
    requires n.Valid()
    ensures r.Valid()
  {
    n.(feats := map id | id in n.feats :: Dropped(id, n.feats[id]),
       peerCtrl := PutPeerControl(n.peerCtrl, n.peerCtrl.(rxState := Expired)))
  }

  /** dcbx_mibDeleteObjects: drop the peer and run the protocol for the TLVs that were stored. */
  function Expire(n: Node, drv: Driver): (r: Node)
    requires n.Valid()
    ensures r.Valid()
  {
    RunDcb(DropPeer(n), true, PresentPeers(n), AppFeatures, drv)
  }

  datatype Action =
    | LocalPut(id: FeatureId, settings: Settings, drv: Driver)
    | Receive(tlv: ControlTlv, duplicate: bool, tooMany: bool, peers: map<FeatureId, Peer>,
              flags: set<FeatureId>, drv: Driver)
    | Transmit
    | ExpirePeer(drv: Driver)

  function Step(n: Node, a: Action): (r: Node)
    requires n.Valid()
    ensures r.Valid()
  {
    match a
    case LocalPut(id, s, drv) => RunDcb(PutSettings(n, id, s), false, {id}, {id}, drv)
    case Receive(tlv, dup, tooMany, peers, flags, drv) =>
      RunDcb(StoreTlv(n, tlv, dup, tooMany, peers), true, flags, AppFeatures, drv)
    case Transmit => if n.active then n.(feats := MarkSent(n.feats), txRequested := false) else n
    case ExpirePeer(drv) => Expire(n, drv)
  }

  function Run(n: Node, acts: seq<Action>): (r: Node)
    requires n.Valid()
    ensures r.Valid()
    decreases |acts|
  {
    if acts == [] then n else Step(Run(n, acts[..|acts| - 1]), acts[|acts| - 1])
  }
}
