/** The legacy DCBX engine of one port as the daemon runs it: its stores updated in place along the
    paths of dcb_protocol.c. Every method is proved to take the port to the state that the tables
    of `DcbxFeature` and `DcbxNode` give.
 */
module DcbxPort {
  import opened Words
  import opened DcbxTypes
  import opened DcbxFeature
  import opened DcbxNode

  /** Rows F15 to F23: enable and willing bits choose what the feature operates on. */
  method Choose(f: Feature) returns (v: Verdict, oper: Config, operMode: bool)
    ensures v == Judge(f.enable, f.willing, f.config, f.peer)
    ensures oper == if v.TakePeer? && (f.subtype.Cin? || !f.peer.error) then f.peer.config else f.config
    ensures operMode == (!v.Disabled? && !v.Conflict? && (f.subtype.Cin? || !f.peer.error))
  {
    oper := f.config;
    if !f.enable || !f.peer.enable {
      v, operMode := Disabled, false;
    } else if f.willing && !f.peer.willing {
      v, operMode := TakePeer, f.subtype.Cin? || !f.peer.error;
      if operMode {
        oper := f.peer.config;
      }
    } else if !f.willing && f.peer.willing {
      v, operMode := TakeLocal, f.subtype.Cin? || !f.peer.error;
    } else if Compatible(f.config, f.peer) {
      v, operMode := Agree, f.subtype.Cin? || !f.peer.error;
    } else {
      v, operMode := Conflict, false;
    }
  }

  /** Program the driver and settle the errors: CEE raises or clears Error by itself, CIN reports a
      refused configuration and takes a feature in error out of operation; a changed Error bit is
      announced. */
  method Negotiate(id: FeatureId, f: Feature, ctrl: Control, drv: Driver)
      returns (oper: Config, operMode: bool, error: bool, syncd: bool, featureSeqNo: u32)
    ensures var row := Decision(Judge(f.enable, f.willing, f.config, f.peer));
            var failing := id in drv.failing;
            && error == ErrorAfter(f, row, failing) && syncd == SyncdAfter(f, row, failing)
            && featureSeqNo == FeatureSeqNoAfter(f, row, ctrl, failing)
            && operMode == OperModeAfter(f, row, failing)
            && oper == OperAfter(id, f, row, false, true, drv)
  {
    hide Judge;
    var v;
    v, oper, operMode := Choose(f);
    syncd, featureSeqNo := true, f.featureSeqNo;
    if f.subtype.Cee? {
      syncd := if v.Conflict? then f.error else !f.error;
      error := v.Conflict?;
    } else {
      error := v.Conflict? || id in drv.failing;
    }
    if id.Pg? {
      oper := drv.pgOper;
    }
    if f.subtype.Cin? && (error || f.peer.error) {
      operMode := false;
    }
    if error != f.error {
      if f.subtype.Cin? {
        syncd := false;
      }
      featureSeqNo := Next(ctrl.seqNo);
    }
  }

  /** The remote part of run_feature_protocol, once the control versions agree. */
  method TakeRemoteChange(id: FeatureId, f: Feature, ctrl: Control, pc: PeerControl, drv: Driver)
      returns (row: Row, oper: Config, operMode: bool, error: bool, syncd: bool, featureSeqNo: u32,
               operVersion: nat)
    requires f.advertise && VersionsAgree(ctrl, pc)
    ensures row == RowOf(f, ctrl, pc, true)
    ensures oper == OperAfter(id, f, row, false, true, drv)
    ensures operMode == OperModeAfter(f, row, id in drv.failing)
    ensures error == ErrorAfter(f, row, id in drv.failing)
    ensures syncd == SyncdAfter(f, row, id in drv.failing)
    ensures featureSeqNo == FeatureSeqNoAfter(f, row, ctrl, id in drv.failing)
    ensures operVersion == OperVersionAfter(f, row)
  {
    hide Judge;
    oper, operMode, error, syncd := f.oper, f.operMode, f.error, f.syncd;
    featureSeqNo, operVersion := f.featureSeqNo, f.operVersion;
    var agreed := Min(f.peer.maxVersion, f.maxVersion);
    var fallback := if id.Pg? then drv.pgOper else f.config;
    if f.subtype.Cee? && pc.rxState.Expired? {
      row := PeerExpired;
      oper, operMode, syncd, error, featureSeqNo := fallback, false, false, true, 1;
    } else if !f.peer.tlvPresent {
      row := NoPeerTlv;
      oper, operMode, syncd, operVersion, error := fallback, false, true, f.maxVersion, f.subtype.Cee?;
    } else if !f.syncd && pc.ackNo != f.featureSeqNo {
      row := Hold;
    } else if f.peer.duplicate {
      row := Duplicates;
      oper, operMode, error := fallback, false, true;
      if !f.error {
        syncd := syncd && f.subtype.Cee?;
        featureSeqNo := Next(ctrl.seqNo);
      }
    } else if f.operVersion != agreed {
      row := NewVersion;
      operVersion, syncd, featureSeqNo := agreed, false, Next(ctrl.seqNo);
    } else if f.operVersion != f.peer.operVersion {
      row, syncd := PeerVersion, true;
    } else {
      row := Decision(Judge(f.enable, f.willing, f.config, f.peer));
      oper, operMode, error, syncd, featureSeqNo := Negotiate(id, f, ctrl, drv);
    }
  }

  /** A local change, or the entry of a remote one: a second neighbour hides the peer's TLV, DCB_INIT
      is left, and a synchronised feature takes up a local change. */
  method EnterMachine(ft: Feature, ctrl: Control, tooMany: bool, remote: bool) returns (f: Feature)
    ensures f == Enter(ft, ctrl, tooMany, remote)
  {
    var operVersion, operMode, error := ft.operVersion, ft.operMode, ft.error;
    var featureSeqNo, syncd, tlvSent := ft.featureSeqNo, ft.syncd, ft.tlvSent;
    if !ft.listening {
      operVersion, operMode, error := ft.maxVersion, false, false;
      featureSeqNo, syncd := Next(ctrl.seqNo), !ft.advertise;
    }
    if !remote && syncd {
      featureSeqNo := Next(ctrl.seqNo);
      if ft.advertise || ft.advertisePrev {
        syncd := false;
      } else {
        tlvSent := true;
      }
    }
    f := ft.(listening := true, peer := ft.peer.(tlvPresent := ft.peer.tlvPresent && !tooMany),
             operVersion := operVersion, operMode := operMode, error := error,
             featureSeqNo := featureSeqNo, syncd := syncd, tlvSent := tlvSent);
  }

  /** The listening state of run_feature_protocol. */
  method RunListening(id: FeatureId, f: Feature, ctrl: Control, pc: PeerControl, justAdded: bool, remote: bool,
                      drv: Driver)
      returns (row: Row, oper: Config, operMode: bool, error: bool, syncd: bool, featureSeqNo: u32,
               operVersion: nat)
    ensures row == RowOf(f, ctrl, pc, remote)
    ensures oper == OperAfter(id, f, row, justAdded, remote, drv)
    ensures operMode == OperModeAfter(f, row, id in drv.failing)
    ensures error == ErrorAfter(f, row, id in drv.failing)
    ensures syncd == SyncdAfter(f, row, id in drv.failing)
    ensures featureSeqNo == FeatureSeqNoAfter(f, row, ctrl, id in drv.failing)
    ensures operVersion == OperVersionAfter(f, row)
  {
    hide Judge;
    oper, operMode, error, syncd := f.oper, f.operMode, f.error, f.syncd;
    featureSeqNo, operVersion := f.featureSeqNo, f.operVersion;
    if !f.advertise {
      row := Unadvertised;
      oper, operMode, error := if id.Pg? && remote then drv.pgOper else f.config, f.enable, false;
    } else if !remote {
      row := LocalOnly;
      if justAdded {
        oper := f.config;
      }
    } else if !VersionsAgree(ctrl, pc) {
      row := BadVersion;
    } else {
      row, oper, operMode, error, syncd, featureSeqNo, operVersion := TakeRemoteChange(id, f, ctrl, pc, drv);
    }
  }

  method StoreListening(id: FeatureId, f: Feature, ctrl: Control, pc: PeerControl, justAdded: bool, remote: bool,
                        drv: Driver) returns (r: Feature)
    ensures r == AfterRow(id, f, RowOf(f, ctrl, pc, remote), ctrl, justAdded, remote, drv)
  {
    hide OperAfter, OperModeAfter, ErrorAfter, SyncdAfter, FeatureSeqNoAfter, OperVersionAfter, RowOf;
    var row, o, m, e, s, n, v := RunListening(id, f, ctrl, pc, justAdded, remote, drv);
    r := f.(oper := o, operMode := m, error := e, syncd := s, featureSeqNo := n, operVersion := v,
            forceSend := f.forceSend || row.Duplicates?);
  }

  /** run_feature_protocol; `compatible` is false when it stops on the control versions. */
  method RunFeatureProtocol(id: FeatureId, ft: Feature, ctrl: Control, pc: PeerControl, remote: bool, drv: Driver)
      returns (r: Feature, compatible: bool)
    ensures r == FeatureStep(id, ft, ctrl, pc, remote, drv)
    ensures compatible <==> !(remote && ft.advertise && !VersionsAgree(ctrl, pc))
  {
    hide AfterRow, Enter, RowOf;
    compatible := !(remote && ft.advertise && !VersionsAgree(ctrl, pc));
    var f := EnterMachine(ft, ctrl, pc.tooMany, remote);
    r := StoreListening(id, f, ctrl, pc, !ft.listening && id.Pfc?, remote, drv);
  }

  const ALL_FEATURES: seq<FeatureId> := [Pfc, Pg, AppFcoe, AppIscsi, AppFip, Llink]

  /** Features in `done` have run once, the others not at all. */
  ghost predicate Progress(n: Node, feats: map<FeatureId, Feature>, done: set<FeatureId>, remote: bool, drv: Driver)
    requires n.Valid()
  {
    && feats.Keys == n.feats.Keys
    && forall id | id in feats ::
         feats[id] == if id in done then FeatureStep(id, n.feats[id], n.ctrl, n.peerCtrl, remote, drv)
                      else n.feats[id]
  }

  lemma StartProgress(n: Node, remote: bool, drv: Driver)
    requires n.Valid()
    ensures Progress(n, n.feats, {}, remote, drv)
  {
    hide FeatureStep;
  }

  lemma EndProgress(n: Node, feats: map<FeatureId, Feature>, remote: bool, flags: set<FeatureId>,
                    apps: set<FeatureId>, drv: Driver)
    requires n.Valid() && Progress(n, feats, Selected(n, remote, flags, apps), remote, drv)
    ensures feats == RunFeatures(n, remote, flags, apps, drv).feats
  {
    hide FeatureStep, Selected;
  }

  /** A port's stores. */
  class Port {
    var active: bool
    var ctrl: Control
    var peerCtrl: PeerControl
    var feats: map<FeatureId, Feature>
    var txRequested: bool

    ghost function View(): Node
      reads this
    {
      Node(active, ctrl, peerCtrl, feats, txRequested)
    }

    ghost predicate Valid()
      reads this
    {
      View().Valid()
    }

    constructor (n: Node)
      requires n.Valid()
      ensures Valid() && View() == n
    {
      active, ctrl, peerCtrl, feats, txRequested := n.active, n.ctrl, n.peerCtrl, n.feats, n.txRequested;
    }

    method FeaturesSynched() returns (synched: bool)
      requires Valid()
      ensures synched <==> DcbxNode.FeaturesSynched(feats)
    {
      for i := 0 to |ALL_FEATURES|
        invariant forall j | 0 <= j < i ::
                    feats[ALL_FEATURES[j]].listening ==> feats[ALL_FEATURES[j]].syncd && feats[ALL_FEATURES[j]].tlvSent
      {
        var ft := feats[ALL_FEATURES[i]];
        if ft.listening && (!ft.syncd || !ft.tlvSent) {
          return false;
        }
      }
      forall id | id in feats
        ensures feats[id].listening ==> feats[id].syncd && feats[id].tlvSent
      {
        var j := IndexOf(id);
      }
      return true;
    }

    method UpdateFeatureSyncd()
      requires Valid()
      modifies this`feats
      ensures feats == DcbxNode.UpdateFeatureSyncd(old(feats))
    {
      hide Released;
      for i := 0 to |ALL_FEATURES|
        invariant feats.Keys == old(feats).Keys
        invariant forall j | 0 <= j < |ALL_FEATURES| ::
                    feats[ALL_FEATURES[j]] ==
                    if j < i then Released(old(feats)[ALL_FEATURES[j]]) else old(feats)[ALL_FEATURES[j]]
      {
        var id := ALL_FEATURES[i];
        feats := feats[id := Released(feats[id])];
      }
      forall id | id in feats
        ensures feats[id] == Released(old(feats)[id])
      {
        var j := IndexOf(id);
      }
    }

    /** run_control_protocol. */
    method RunControlProtocol(remote: bool)
      requires Valid()
      modifies this
      ensures Valid() && View() == RunControl(old(View()), remote)
    {
      hide Released, DcbxNode.FeaturesSynched, DcbxNode.UpdateFeatureSyncd;
      if !active {
        return;
      }
      var c, resend := ctrl, false;
      if !c.listening {
        c := c.(operVersion := c.maxVersion, listening := true);
      }
      if remote && peerCtrl.rxState.Expired? {
        c := c.(seqNo := 0, ackNo := 0, myAckNo := 0, operVersion := c.maxVersion);
        peerCtrl := peerCtrl.(rxState := Reset);
        ctrl := c;
        if feats[Pg].subtype.Cee? {
          return;
        }
        resend := true;
      } else if remote && !peerCtrl.duplicate {
        c, resend := SynchroniseControl(c, peerCtrl);
      }
      ctrl := c;
      var synched := FeaturesSynched();
      if c.seqNo == c.myAckNo && !synched {
        UpdateFeatureSyncd();
        ctrl := c.(seqNo := Next(c.seqNo));
        txRequested := true;
      } else if resend {
        txRequested := true;
      }
    }

    /** run_dcb_protocol, called with at least one event flag: the flagged features in the order PFC,
        PG, APP, LLINK, each only while the control versions held, then the control protocol. */
    method RunDcbProtocol(remote: bool, flags: set<FeatureId>, apps: set<FeatureId>, drv: Driver)
      requires Valid() && apps <= AppFeatures && flags != {}
      modifies this
      ensures Valid() && View() == RunDcb(old(View()), remote, flags, apps, drv)
    {
      if !active {
        return;
      }
      RunFlagged(remote, flags, apps, drv);
      RunControlProtocol(remote);
    }

    method RunFlagged(remote: bool, flags: set<FeatureId>, apps: set<FeatureId>, drv: Driver)
      requires Valid() && apps <= AppFeatures
      modifies this`feats
      ensures Valid() && View() == RunFeatures(old(View()), remote, flags, apps, drv)
    {
      hide FeatureStep, Blocks, LastApp, Progress;
      ghost var n := View();
      ghost var done: set<FeatureId> := {};
      StartProgress(n, remote, drv);
      var ok := true;
      if Pfc in flags {
        ok := RunFeature(Pfc, remote, drv, n, done);
        done := done + {Pfc};
      }
      if Pg in flags && ok {
        ok := RunFeature(Pg, remote, drv, n, done);
        done := done + {Pg};
      }
      if flags * AppFeatures != {} && ok {
        ok := RunApps(remote, apps, drv, n, done);
        done := done + apps;
      }
      if remote && Llink in flags && ok {
        ok := RunFeature(Llink, remote, drv, n, done);
        done := done + {Llink};
      }
      assert apps * AppFeatures == apps;
      assert done == Selected(n, remote, flags, apps);
      EndProgress(n, feats, remote, flags, apps, drv);
    }

    /** The application features run as one batch; the last one decides about incompatibility. */
    method RunApps(remote: bool, apps: set<FeatureId>, drv: Driver, ghost n: Node, ghost done: set<FeatureId>)
        returns (compatible: bool)
      requires Valid() && n.Valid() && ctrl == n.ctrl && peerCtrl == n.peerCtrl && apps <= AppFeatures
      requires done !! apps && Progress(n, feats, done, remote, drv)
      modifies this`feats
      ensures Valid() && Progress(n, feats, done + apps, remote, drv)
      ensures compatible <==> !(LastApp(apps).Some? && Blocks(n, remote, LastApp(apps).value))
    {
      hide FeatureStep, Blocks, Progress;
      ghost var ran := done;
      compatible := true;
      if AppFcoe in apps {
        compatible := RunFeature(AppFcoe, remote, drv, n, ran);
        ran := ran + {AppFcoe};
      }
      if AppIscsi in apps {
        compatible := RunFeature(AppIscsi, remote, drv, n, ran);
        ran := ran + {AppIscsi};
      }
      if AppFip in apps {
        compatible := RunFeature(AppFip, remote, drv, n, ran);
        ran := ran + {AppFip};
      }
      assert ran == done + apps;
    }

    /** put_peer_control. */
    method PutPeerControl(tlv: PeerControl)
      modifies this`peerCtrl
      ensures peerCtrl == DcbxNode.PutPeerControl(old(peerCtrl), tlv)
      ensures tlv.duplicate || tlv.tooMany ==>
                && peerCtrl.seqNo == old(peerCtrl).seqNo && peerCtrl.ackNo == old(peerCtrl).ackNo
                && peerCtrl.operVersion == old(peerCtrl).operVersion && peerCtrl.maxVersion == old(peerCtrl).maxVersion
                && peerCtrl.rxState == old(peerCtrl).rxState
    {
      if tlv.duplicate || tlv.tooMany {
        peerCtrl := peerCtrl.(duplicate := tlv.duplicate, tooMany := tlv.tooMany);
      } else {
        peerCtrl := tlv;
      }
    }

    /** dcbx_mibDeleteObjects: forget the stored peer TLVs, mark the peer expired and run the protocol
        for the features that had one. */
    method MibDeleteObjects(drv: Driver)
      requires Valid()
      modifies this
      ensures Valid() && View() == Expire(old(View()), drv)
    {
      var flags := FlagPeers();
      DropPeers();
      PutPeerControl(peerCtrl.(rxState := Expired));
      assert View() == DropPeer(old(View()));
      hide DropPeer, RunDcb;
      if flags != {} {
        RunDcbProtocol(true, flags, AppFeatures, drv);
      } else {
        NoFlags(View(), true, AppFeatures, drv);
      }
    }

    /** The features whose peer TLV is stored. */
    method FlagPeers() returns (flags: set<FeatureId>)
      requires Valid()
      ensures flags == PresentPeers(View())
    {
      flags := {};
      for i := 0 to |ALL_FEATURES|
        invariant forall j | 0 <= j < i :: ALL_FEATURES[j] in flags <==> feats[ALL_FEATURES[j]].peer.tlvPresent
        invariant forall j | i <= j < |ALL_FEATURES| :: ALL_FEATURES[j] !in flags
      {
        if feats[ALL_FEATURES[i]].peer.tlvPresent {
          flags := flags + {ALL_FEATURES[i]};
        }
      }
      forall id: FeatureId
        ensures id in flags <==> feats[id].peer.tlvPresent
      {
        var j := IndexOf(id);
      }
    }

    method DropPeers()
      requires Valid()
      modifies this`feats
      ensures Valid() && feats == DropPeer(old(View())).feats
    {
      hide Dropped;
      for i := 0 to |ALL_FEATURES|
        invariant feats.Keys == old(feats).Keys
        invariant forall j | 0 <= j < |ALL_FEATURES| ::
                    feats[ALL_FEATURES[j]] ==
                    if j < i then Dropped(ALL_FEATURES[j], old(feats)[ALL_FEATURES[j]]) else old(feats)[ALL_FEATURES[j]]
      {
        var id := ALL_FEATURES[i];
        feats := feats[id := Dropped(id, feats[id])];
      }
      forall id: FeatureId
        ensures feats[id] == Dropped(id, old(feats)[id])
      {
        var j := IndexOf(id);
      }
    }

    /** put_pg, put_pfc and put_app with a client's copy of feature `target`'s local store: nothing happens
        when the copy equals the store, or when priority groups are `refused` by the rule checker; else
        the settings are stored and the protocol runs for the local change. */
    method PutLocal(target: FeatureId, copy: Feature, refused: bool, drv: Driver)
      requires Valid() && (refused ==> target.Pg?)
      modifies this
      ensures Valid()
      ensures View() == if Unchanged(copy, old(feats)[target]) || refused then old(View())
                        else Step(old(View()), LocalPut(target, SettingsOf(copy), drv))
    {
      hide Unchanged;
      if Unchanged(copy, feats[target]) || refused {
        return;
      }
      var settings := SettingsOf(copy);
      PutAll(target, settings);
      hide RunDcb, PutSettings;
      if IsApp(target) {
        RunDcbProtocol(false, {target}, {target}, drv);
      } else {
        RunDcbProtocol(false, {target}, {}, drv);
        NoApps(PutSettings(old(View()), target, settings), target, drv);
      }
    }

    /** A client's attributes reach their feature, and Enable and Willing its sibling applications. */
    method PutAll(target: FeatureId, settings: Settings)
      requires Valid()
      modifies this`feats
      ensures Valid() && View() == PutSettings(old(View()), target, settings)
    {
      hide Configure;
      for i := 0 to |ALL_FEATURES|
        invariant feats.Keys == old(feats).Keys
        invariant forall j | 0 <= j < |ALL_FEATURES| ::
                    feats[ALL_FEATURES[j]] ==
                    if j < i then Configure(ALL_FEATURES[j], old(feats)[ALL_FEATURES[j]], target, settings)
                    else old(feats)[ALL_FEATURES[j]]
      {
        var id := ALL_FEATURES[i];
        feats := feats[id := Configure(id, feats[id], target, settings)];
      }
      forall id: FeatureId
        ensures feats[id] == Configure(id, old(feats)[id], target, settings)
      {
        var j := IndexOf(id);
      }
    }

    /** A received LLDPDU: put_peer_control and the put_peer functions, then the protocol for the
        flagged features. */
    method ReceiveTlvs(tlv: ControlTlv, duplicate: bool, tooMany: bool, peers: map<FeatureId, Peer>,
                       flags: set<FeatureId>, drv: Driver)
      requires Valid()
      modifies this
      ensures Valid() && View() == Step(old(View()), Receive(tlv, duplicate, tooMany, peers, flags, drv))
    {
      PutPeerControl(PeerControl(tlv.operVersion, tlv.maxVersion, tlv.seqNo, tlv.ackNo, Present, duplicate, tooMany));
      PutPeers(peers);
      assert View() == StoreTlv(old(View()), tlv, duplicate, tooMany, peers);
      hide StoreTlv, RunDcb;
      if flags != {} {
        RunDcbProtocol(true, flags, AppFeatures, drv);
      } else {
        NoFlags(View(), true, AppFeatures, drv);
      }
    }

    method PutPeers(peers: map<FeatureId, Peer>)
      requires Valid()
      modifies this`feats
      ensures feats == map id | id in old(feats) :: old(feats)[id].(peer := if id in peers then peers[id] else old(feats)[id].peer)
    {
      for i := 0 to |ALL_FEATURES|
        invariant feats.Keys == old(feats).Keys
        invariant forall j | 0 <= j < |ALL_FEATURES| ::
                    feats[ALL_FEATURES[j]] ==
                    if j < i && ALL_FEATURES[j] in peers then old(feats)[ALL_FEATURES[j]].(peer := peers[ALL_FEATURES[j]])
                    else old(feats)[ALL_FEATURES[j]]
      {
        var id := ALL_FEATURES[i];
        if id in peers {
          feats := feats[id := feats[id].(peer := peers[id])];
        }
      }
      forall id | id in feats
        ensures feats[id] == if id in peers then old(feats)[id].(peer := peers[id]) else old(feats)[id]
      {
        var j := IndexOf(id);
      }
    }

    /** The port's TLVs go out: every feature's TLV has now been sent. */
    method TransmitTlvs() returns (tlv: Option<ControlTlv>)
      requires Valid()
      modifies this`feats, this`txRequested
      ensures Valid() && View() == Step(old(View()), Transmit)
      ensures tlv == if active then Some(TlvOf(old(View()))) else None
    {
      if !active {
        return None;
      }
      tlv := Some(ControlTlv(ctrl.seqNo, ctrl.ackNo, ctrl.operVersion, ctrl.maxVersion));
      MarkAllSent();
      txRequested := false;
    }

    method MarkAllSent()
      requires Valid()
      modifies this`feats
      ensures Valid() && feats == MarkSent(old(feats))
    {
      for i := 0 to |ALL_FEATURES|
        invariant feats.Keys == old(feats).Keys
        invariant forall j | 0 <= j < |ALL_FEATURES| ::
                    feats[ALL_FEATURES[j]] ==
                    if j < i then old(feats)[ALL_FEATURES[j]].(tlvSent := true) else old(feats)[ALL_FEATURES[j]]
      {
        var id := ALL_FEATURES[i];
        feats := feats[id := feats[id].(tlvSent := true)];
      }
      forall id: FeatureId
        ensures feats[id] == old(feats)[id].(tlvSent := true)
      {
        var j := IndexOf(id);
      }
    }

    /** Run one feature of the port, the `done` ones having run since state `n`. */
    method RunFeature(id: FeatureId, remote: bool, drv: Driver, ghost n: Node, ghost done: set<FeatureId>)
        returns (compatible: bool)
      requires Valid() && n.Valid() && ctrl == n.ctrl && peerCtrl == n.peerCtrl
      requires id !in done && Progress(n, feats, done, remote, drv)
      modifies this`feats
      ensures Valid() && Progress(n, feats, done + {id}, remote, drv)
      ensures compatible <==> !Blocks(n, remote, id)
    {
      hide FeatureStep;
      var r;
      r, compatible := RunFeatureProtocol(id, feats[id], ctrl, peerCtrl, remote, drv);
      feats := feats[id := r];
    }
  }

  /** One feature's share of mibUpdateObjects: a TLV that is stored flags the feature; one that is absent
      or of the wrong length marks it not present and flags it, unless it is flagged already. */
  method FlagFeature(t: SubTlv, id: FeatureId, flags: set<FeatureId>) returns (r: set<FeatureId>)
    ensures r == flags + {id}
  {
    r := flags;
    if t.GoodLength? {
      r := r + {id};
    } else {
      var newly := id !in r;
      if newly {
        r := r + {id};
      }
    }
  }

  /** The flags of mibUpdateObjects: PG, PFC, applications, LLINK in turn. */
  method MibUpdateFlags(m: Manifest) returns (flags: set<FeatureId>)
    ensures forall id: FeatureId :: id in flags <==> Flagged(m, id)
  {
    flags := FlagFeature(m.pg, Pg, {});
    flags := FlagFeature(m.pfc, Pfc, flags);
    var stored := true;
    if m.app.Some? {
      stored := ProcessAppTlv(m.app.value);
    }
    if stored {
      var apps := [AppFcoe, AppIscsi, AppFip];
      for i := 0 to |apps|
        invariant flags == {Pg, Pfc} + set id | id in apps[..i]
      {
        flags := flags + {apps[i]};
      }
      assert apps[..|apps|] == apps && apps[0] == AppFcoe && apps[1] == AppIscsi && apps[2] == AppFip;
      assert flags == {Pg, Pfc, AppFcoe, AppIscsi, AppFip};
    }
    flags := FlagFeature(m.llink, Llink, flags);
    forall id: FeatureId
      ensures id in flags <==> Flagged(m, id)
    {
      var j := IndexOf(id);
    }
  }

  /** The length checks of process_dcbx_app_tlv. */
  method ProcessAppTlv(t: AppTlv) returns (stored: bool)
    ensures stored <==> Usable(t)
  {
    if t.length < SUB_TLV_HEADER {
      return false;
    }
    if t.version.Cin? {
      var data := t.length - SUB_TLV_HEADER;
      if MAX_APP_DATA < data {
        return false;
      }
    }
    stored := true;
  }

  lemma NoFlags(n: Node, remote: bool, apps: set<FeatureId>, drv: Driver)
    requires n.Valid()
    ensures RunDcb(n, remote, {}, apps, drv) == n
  {
  }

  /** A local change of a feature that is no application runs no application. */
  lemma NoApps(n: Node, id: FeatureId, drv: Driver)
    requires n.Valid() && !IsApp(id)
    ensures RunDcb(n, false, {id}, {}, drv) == RunDcb(n, false, {id}, {id}, drv)
  {
    assert {id} * AppFeatures == {};
    assert Selected(n, false, {id}, {}) == Selected(n, false, {id}, {id});
  }

  /** The part of run_control_protocol that agrees on a version and takes in the peer's numbers. */
  method SynchroniseControl(c0: Control, pc: PeerControl) returns (c: Control, resend: bool)
    requires !pc.duplicate && !pc.rxState.Expired? && c0.listening
    ensures c == TakeIn(c0, pc)
    ensures resend == (c0.operVersion != Min(pc.maxVersion, c0.maxVersion) ||
                       (c0.operVersion == pc.operVersion && News(c0, pc)))
  {
    c, resend := c0, false;
    if c.operVersion != Min(pc.maxVersion, c.maxVersion) {
      c, resend := c.(operVersion := Min(pc.maxVersion, c.maxVersion)), true;
    } else if c.operVersion == pc.operVersion {
      c := c.(myAckNo := pc.ackNo);
      if (c.ackNo != pc.seqNo || c.myAckNo == 0) && !pc.tooMany {
        c, resend := c.(ackNo := pc.seqNo), true;
      }
    }
  }

  lemma IndexOf(id: FeatureId) returns (j: nat)
    ensures j < |ALL_FEATURES| && ALL_FEATURES[j] == id
  {
    j := match id case Pfc => 0 case Pg => 1 case AppFcoe => 2 case AppIscsi => 3 case AppFip => 4 case Llink => 5;
  }
}
