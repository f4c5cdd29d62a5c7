/** State of one port in the legacy (CIN and CEE) DCBX engine: the control protocol store, the
    peer's control store and one record per feature (dcb_protocol.c, include/dcb_types.h).
 */
module DcbxTypes {
  import opened Words
  import opened PgTypes

  const MAX_U32: u32 := 0xFFFF_FFFF

  /** Sequence and acknowledgement numbers are 32-bit and wrap. */
  function Next(n: u32): u32 {
    if n == MAX_U32 then 0 else n + 1
  }

  datatype FeatureId = Pfc | Pg | AppFcoe | AppIscsi | AppFip | Llink

  const AppFeatures: set<FeatureId> := {AppFcoe, AppIscsi, AppFip}

  predicate IsApp(id: FeatureId) {
    id.AppFcoe? || id.AppIscsi? || id.AppFip?
  }

  /** `DCBX_SUBTYPE1` and `DCBX_SUBTYPE2`. */
  datatype Subtype = Cin | Cee

  datatype Config =
    | PfcConfig(admin: seq<bool>)
    | PgConfig(tx: Traffic, rx: Traffic)
    | AppConfig(data: seq<u8>)
    | LlinkConfig(up: bool)

  /** What is stored about the peer's side of a feature. `duplicate` stands for the control or
      feature duplicate-TLV bits of the peer `Error_Flag`. */
  datatype Peer = Peer(enable: bool, willing: bool, error: bool, tlvPresent: bool, duplicate: bool,
                       operVersion: nat, maxVersion: nat, subtype: Subtype, config: Config)

  /** A feature: local protocol variables and configuration, the peer's copy, and the
      operational configuration. `listening` is false in state DCB_INIT. */
  datatype Feature = Feature(
    listening: bool, enable: bool, willing: bool, advertise: bool, advertisePrev: bool,
    operMode: bool, error: bool, syncd: bool, tlvSent: bool, forceSend: bool,
    operVersion: nat, maxVersion: nat, featureSeqNo: u32, subtype: Subtype,
    config: Config, oper: Config, peer: Peer)

  datatype Control = Control(listening: bool, operVersion: nat, maxVersion: nat,
                             seqNo: u32, ackNo: u32, myAckNo: u32)

  /** `RxDCBTLVState` of the peer control store. */
  datatype RxState = NoPeer | Present | Expired | Reset

  datatype PeerControl = PeerControl(operVersion: nat, maxVersion: nat, seqNo: u32, ackNo: u32,
                                     rxState: RxState, duplicate: bool, tooMany: bool)

  /** How programming the driver goes during one event: `failing` features are refused, and for a
      remote change of priority groups the rule checker leaves `pgOper` as the operational
      configuration. */
  datatype Driver = Driver(failing: set<FeatureId>, pgOper: Config)

  /** A port; `txRequested` is the agent's local-change flag. */
  datatype Node = Node(active: bool, ctrl: Control, peerCtrl: PeerControl,
                       feats: map<FeatureId, Feature>, txRequested: bool)
  {
    ghost predicate Valid() {
      forall id: FeatureId :: id in feats
    }
  }
}
