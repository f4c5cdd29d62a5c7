/** When a legacy DCBX port asks for a transmission: every number issued, taken in or agreed on is followed by a
    request, and over runs nothing the port has to say is ever left both unsaid and unrequested.
 */
module DcbxRequests {
  import opened Words
  import opened DcbxTypes
  import opened DcbxFeature
  import opened DcbxNode
  import opened DcbxRuns

  /** The control version the port runs once it has left DCB_INIT. */
  function Running(c: Control): nat {
    if c.listening then c.operVersion else c.maxVersion
  }

  function Lower(a: nat, b: nat): nat {
    if a < b then a else b
  }

  // ---------- One event ----------

  /** A feature that has something to announce. */
  predicate HasNews(ft: Feature) {
    ft.listening && !(ft.syncd && ft.tlvSent)
  }

  /** A run of the protocol issues the next number exactly if its number is then the acknowledged one
      and some feature has something to announce; it then asks for a transmission. */
  lemma IssuesIff(n: Node, remote: bool, flags: set<FeatureId>, apps: set<FeatureId>, drv: Driver)
    requires n.Valid() && n.active && flags != {} && !(remote && n.peerCtrl.rxState.Expired?)
    ensures var m, r := RunFeatures(n, remote, flags, apps, drv), RunDcb(n, remote, flags, apps, drv);
            && (r.ctrl.seqNo != n.ctrl.seqNo <==>
                  n.ctrl.seqNo == r.ctrl.myAckNo && exists id :: HasNews(m.feats[id]))
            && (r.ctrl.seqNo != n.ctrl.seqNo ==> r.ctrl.seqNo == Next(n.ctrl.seqNo) && r.txRequested)
  {
    hide RunFeatures;
    var m := RunFeatures(n, remote, flags, apps, drv);
    assert FeaturesSynched(m.feats) <==> !exists id :: HasNews(m.feats[id]) by {
      if !FeaturesSynched(m.feats) {
        var id :| id in m.feats && !(m.feats[id].listening ==> m.feats[id].syncd && m.feats[id].tlvSent);
        assert HasNews(m.feats[id]);
      }
    }
    hide FeaturesSynched, UpdateFeatureSyncd;
  }

  /** A local event asks for a transmission exactly if it issues a number. */
  lemma LocalRequestIff(n: Node, id: FeatureId, s: Settings, drv: Driver)
    requires n.Valid() && n.active
    ensures var r := Step(n, LocalPut(id, s, drv));
            r.txRequested <==> n.txRequested || r.ctrl.seqNo != n.ctrl.seqNo
  {
    hide RunFeatures, FeaturesSynched, UpdateFeatureSyncd;
  }

  /** A received control TLV asks for one exactly if it brings a new number issued, another common version
      than the port runs, or on the version both run a peer number not acknowledged yet or a peer that has
      acknowledged nothing. A duplicate TLV only does the first; a second neighbour leaves the stored versions
      to decide. */
  lemma ReceiveRequestIff(n: Node, tlv: ControlTlv, dup: bool, tooMany: bool, peers: map<FeatureId, Peer>,
                          flags: set<FeatureId>, drv: Driver)
    requires n.Valid() && n.active && flags != {} && !n.peerCtrl.rxState.Expired?
    ensures var r := Step(n, Receive(tlv, dup, tooMany, peers, flags, drv));
            var issued := r.ctrl.seqNo != n.ctrl.seqNo;
            r.txRequested <==>
              || n.txRequested || issued
              || (!dup && !tooMany &&
                  (|| Running(n.ctrl) != Lower(tlv.maxVersion, n.ctrl.maxVersion)
                   || (Running(n.ctrl) == tlv.operVersion && (n.ctrl.ackNo != tlv.seqNo || tlv.ackNo == 0))))
              || (!dup && tooMany && Running(n.ctrl) != Lower(n.peerCtrl.maxVersion, n.ctrl.maxVersion))
  {
    hide RunFeatures, FeaturesSynched, UpdateFeatureSyncd;
  }

  /** What a received control TLV does to the numbers: on matching versions and without duplicates the
      acknowledgement is taken over, and the peer's number is acknowledged. */
  lemma ReceiveTakesIn(n: Node, tlv: ControlTlv, dup: bool, tooMany: bool, peers: map<FeatureId, Peer>,
                       flags: set<FeatureId>, drv: Driver)
    requires n.Valid() && n.active && flags != {} && !n.peerCtrl.rxState.Expired?
    ensures var r := Step(n, Receive(tlv, dup, tooMany, peers, flags, drv));
            && r.ctrl.listening
            && (dup ==> r.ctrl.myAckNo == n.ctrl.myAckNo && r.ctrl.ackNo == n.ctrl.ackNo && r.ctrl.operVersion == Running(n.ctrl))
            && (!dup && !tooMany ==>
                  var match' := Running(n.ctrl) == Lower(tlv.maxVersion, n.ctrl.maxVersion) == tlv.operVersion;
                  && r.ctrl.operVersion == Lower(tlv.maxVersion, n.ctrl.maxVersion)
                  && r.ctrl.myAckNo == (if match' then tlv.ackNo else n.ctrl.myAckNo)
                  && r.ctrl.ackNo == (if match' then tlv.seqNo else n.ctrl.ackNo))
  {
    hide RunFeatures, FeaturesSynched, UpdateFeatureSyncd;
  }

  /** A client's change to a synchronised feature goes out: the feature waits under the next number, and if
      the last number has been acknowledged that number is issued and a transmission asked for. */
  lemma LocalChangeGoesOut(n: Node, id: FeatureId, s: Settings, drv: Driver)
    requires n.Valid() && n.active && !id.Llink? && n.feats[id].listening && n.feats[id].syncd
    requires s.advertise || n.feats[id].advertise
    ensures var r := Step(n, LocalPut(id, s, drv));
            && r.feats[id].featureSeqNo == Next(n.ctrl.seqNo)
            && (n.ctrl.seqNo == n.ctrl.myAckNo ==>
                  r.ctrl.seqNo == r.feats[id].featureSeqNo && r.txRequested
                  && (r.feats[id].syncd <==> !s.advertise || n.feats[id].forceSend))
            && (n.ctrl.seqNo != n.ctrl.myAckNo ==> r.ctrl.seqNo == n.ctrl.seqNo && !r.feats[id].syncd)
  {
    var m := PutSettings(n, id, s);
    ChangeStored(n, id, s);
    hide FeatureStep, RunFeatures, Selected, PutSettings, RunControl, Configure, HasNews;
    var f := RunFeatures(m, false, {id}, {id}, drv);
    RunFeaturesAt(m, false, {id}, {id}, drv, id);
    OwnFeatureRuns(m, id);
    TakenUp(id, m.feats[id], m.ctrl, m.peerCtrl, drv);
    ControlAnnouncesNews(f, id);
  }

  lemma ChangeStored(n: Node, id: FeatureId, s: Settings)
    requires n.Valid()
    ensures var m := PutSettings(n, id, s);
            && m.ctrl == n.ctrl && m.active == n.active && m.feats[id].listening == n.feats[id].listening
            && m.feats[id].syncd == n.feats[id].syncd && m.feats[id].forceSend == n.feats[id].forceSend
            && m.feats[id].advertise == s.advertise && m.feats[id].advertisePrev == n.feats[id].advertise
  {
  }

  lemma ControlAnnouncesNews(n: Node, id: FeatureId)
    requires n.Valid() && n.active && HasNews(n.feats[id])
    ensures var r := RunControl(n, false);
            if n.ctrl.seqNo == n.ctrl.myAckNo then
              && r.ctrl.seqNo == Next(n.ctrl.seqNo) && r.txRequested
              && r.feats[id].featureSeqNo == n.feats[id].featureSeqNo
              && (r.feats[id].syncd <==> n.feats[id].syncd || !n.feats[id].advertise || n.feats[id].forceSend)
            else r.ctrl.seqNo == n.ctrl.seqNo && r.feats[id] == n.feats[id]
  {
    assert !FeaturesSynched(n.feats);
    hide FeaturesSynched;
  }

  lemma OwnFeatureRuns(n: Node, id: FeatureId)
    requires n.Valid() && !id.Llink?
    ensures id in Selected(n, false, {id}, {id})
  {
    assert IsApp(id) ==> id in {id} * AppFeatures;
  }

  lemma TakenUp(id: FeatureId, ft: Feature, ctrl: Control, pc: PeerControl, drv: Driver)
    requires ft.listening && ft.syncd && (ft.advertise || ft.advertisePrev)
    ensures var r := FeatureStep(id, ft, ctrl, pc, false, drv);
            && HasNews(r) && !r.syncd && r.featureSeqNo == Next(ctrl.seqNo)
            && r.advertise == ft.advertise && r.forceSend == ft.forceSend
  {
  }

  /** A change to a feature that neither is nor was advertised is no news: the feature stays synchronised. */
  lemma UnadvertisedChangeIsQuiet(n: Node, id: FeatureId, s: Settings, drv: Driver)
    requires n.Valid() && n.active && !id.Llink? && n.feats[id].listening && n.feats[id].syncd
    requires !s.advertise && !n.feats[id].advertise
    ensures !HasNews(RunFeatures(PutSettings(n, id, s), false, {id}, {id}, drv).feats[id])
  {
    var m := PutSettings(n, id, s);
    ChangeStored(n, id, s);
    hide FeatureStep, RunFeatures, Selected, PutSettings, Configure;
    RunFeaturesAt(m, false, {id}, {id}, drv, id);
    OwnFeatureRuns(m, id);
    NotTakenUp(id, m.feats[id], m.ctrl, m.peerCtrl, drv);
  }

  lemma NotTakenUp(id: FeatureId, ft: Feature, ctrl: Control, pc: PeerControl, drv: Driver)
    requires ft.listening && ft.syncd && !ft.advertise && !ft.advertisePrev
    ensures !HasNews(FeatureStep(id, ft, ctrl, pc, false, drv))
  {
  }

  /** A transmission settles the request and what features had not sent yet; an inactive port transmits nothing. */
  lemma TransmissionSettles(n: Node, id: FeatureId)
    requires n.Valid()
    ensures var r := Step(n, Transmit);
            if n.active then
              !r.txRequested && r.feats[id] == n.feats[id].(tlvSent := true) && r.ctrl == n.ctrl && r.peerCtrl == n.peerCtrl
            else r == n
  {
  }

  // ---------- Over runs ----------

  /** The control TLV that the port has transmitted last, or the one it would have at the start. */
  function Told(n: Node, acts: seq<Action>): ControlTlv
    requires n.Valid()
    decreases |acts|
  {
    if acts == [] then TlvOf(n)
    else
      var m := Run(n, acts[..|acts| - 1]);
      if acts[|acts| - 1].Transmit? && m.active then TlvOf(m) else Told(n, acts[..|acts| - 1])
  }

  /** Whatever the port's control TLV says has been said, or a transmission is asked for. */
  predicate Spoken(n: Node, told: ControlTlv) {
    n.txRequested || TlvOf(n) == told
  }

  /** The protocol runs on the expiry of a CEE peer. */
  predicate CeeExpiry(n: Node, a: Action)
    requires n.Valid()
  {
    && n.active && n.feats[Pg].subtype.Cee?
    && match a
       case ExpirePeer(_) =>
         (exists id :: n.feats[id].peer.tlvPresent) && (n.peerCtrl.rxState.Expired? || (!n.peerCtrl.duplicate && !n.peerCtrl.tooMany))
       case Receive(_, dup, tooMany, _, flags, _) => flags != {} && (dup || tooMany) && n.peerCtrl.rxState.Expired?
       case _ => false
  }

  /** The event restarts the numbering without asking for a transmission, and what was said last is not the
      restarted numbering. */
  predicate Forgets(n: Node, told: ControlTlv, a: Action)
    requires n.Valid()
  {
    CeeExpiry(n, a) && !n.txRequested && told != ControlTlv(0, 0, n.ctrl.maxVersion, n.ctrl.maxVersion)
  }

  /** One run of the protocol: either a transmission is asked for or the control TLV stays what it was,
      unless a CEE peer expired. */
  lemma RunSpeaks(n: Node, remote: bool, flags: set<FeatureId>, apps: set<FeatureId>, drv: Driver)
    requires n.Valid() && n.ctrl.listening
    ensures var r := RunDcb(n, remote, flags, apps, drv);
            && r.ctrl.listening && (n.txRequested ==> r.txRequested)
            && if remote && n.active && flags != {} && n.peerCtrl.rxState.Expired? && n.feats[Pg].subtype.Cee?
               then r.txRequested == n.txRequested && TlvOf(r) == ControlTlv(0, 0, n.ctrl.maxVersion, n.ctrl.maxVersion)
               else r.txRequested || TlvOf(r) == TlvOf(n)
  {
    if n.active && flags != {} {
      var m := RunFeatures(n, remote, flags, apps, drv);
      PgSubtypeStays(n, remote, flags, apps, drv);
      hide RunFeatures, FeaturesSynched, UpdateFeatureSyncd;
      assert m.ctrl == n.ctrl && m.peerCtrl == n.peerCtrl && m.active == n.active && m.txRequested == n.txRequested;
    }
  }

  lemma PgSubtypeStays(n: Node, remote: bool, flags: set<FeatureId>, apps: set<FeatureId>, drv: Driver)
    requires n.Valid()
    ensures RunFeatures(n, remote, flags, apps, drv).feats[Pg].subtype == n.feats[Pg].subtype
  {
    hide RunFeatures, Selected, FeatureStep;
    RunFeaturesAt(n, remote, flags, apps, drv, Pg);
    SubtypeStays(Pg, n.feats[Pg], n.ctrl, n.peerCtrl, remote, drv);
  }

  lemma SubtypeStays(id: FeatureId, ft: Feature, ctrl: Control, pc: PeerControl, remote: bool, drv: Driver)
    ensures FeatureStep(id, ft, ctrl, pc, remote, drv).subtype == ft.subtype
  {
  }

  lemma StoredFor(n: Node, a: Action)
    requires n.Valid()
    ensures var m := Seen(n, a);
            && m.ctrl == n.ctrl && m.active == n.active && m.txRequested == n.txRequested && m.feats[Pg].subtype == n.feats[Pg].subtype
    ensures a.Receive? ==> (Seen(n, a).peerCtrl.rxState.Expired? <==> (a.duplicate || a.tooMany) && n.peerCtrl.rxState.Expired?)
    ensures var d := DropPeer(n);
            && d.ctrl == n.ctrl && d.active == n.active && d.txRequested == n.txRequested && d.feats[Pg].subtype == n.feats[Pg].subtype
            && (d.peerCtrl.rxState.Expired? <==> n.peerCtrl.rxState.Expired? || (!n.peerCtrl.duplicate && !n.peerCtrl.tooMany))
    ensures PresentPeers(n) != {} <==> exists id :: n.feats[id].peer.tlvPresent
  {
    PresentIff(n);
    hide PresentPeers;
  }

  lemma PresentIff(n: Node)
    requires n.Valid()
    ensures PresentPeers(n) != {} <==> exists id :: n.feats[id].peer.tlvPresent
  {
    if id :| n.feats[id].peer.tlvPresent {
      assert id in PresentPeers(n);
    }
    if id :| id in PresentPeers(n) {
      assert n.feats[id].peer.tlvPresent;
    }
  }

  /** One event keeps everything said or asked to be said, exactly if it does not forget. */
  lemma StepSpeaks(n: Node, told: ControlTlv, a: Action)
    requires n.Valid() && n.ctrl.listening && Spoken(n, told)
    ensures var now := if a.Transmit? && n.active then TlvOf(n) else told;
            Spoken(Step(n, a), now) <==> !Forgets(n, told, a)
  {
    hide RunDcb, DropPeer, PresentPeers;
    StoredFor(n, a);
    match a
    case LocalPut(id, _, drv) => RunSpeaks(Seen(n, a), false, {id}, {id}, drv);
    case Receive(_, _, _, _, flags, drv) => RunSpeaks(Seen(n, a), true, flags, AppFeatures, drv);
    case ExpirePeer(drv) => RunSpeaks(DropPeer(n), true, PresentPeers(n), AppFeatures, drv);
    case Transmit =>
  }

  lemma StepListens(n: Node, a: Action)
    requires n.Valid() && n.ctrl.listening
    ensures Step(n, a).ctrl.listening
  {
    hide RunDcb, DropPeer, PresentPeers;
    StoredFor(n, a);
    match a
    case LocalPut(id, _, drv) => RunSpeaks(Seen(n, a), false, {id}, {id}, drv);
    case Receive(_, _, _, _, flags, drv) => RunSpeaks(Seen(n, a), true, flags, AppFeatures, drv);
    case ExpirePeer(drv) => RunSpeaks(DropPeer(n), true, PresentPeers(n), AppFeatures, drv);
    case Transmit =>
  }

  lemma {:induction false} RunListens(n: Node, acts: seq<Action>)
    requires n.Valid() && n.ctrl.listening
    ensures Run(n, acts).ctrl.listening
    decreases |acts|
  {
    hide Step;
    if acts != [] {
      RunListens(n, acts[..|acts| - 1]);
      StepListens(Run(n, acts[..|acts| - 1]), acts[|acts| - 1]);
    }
  }

  ghost predicate AlwaysSpoken(n: Node, acts: seq<Action>)
    requires n.Valid()
    decreases |acts|
  {
    Spoken(Run(n, acts), Told(n, acts)) && (acts != [] ==> AlwaysSpoken(n, acts[..|acts| - 1]))
  }

  ghost predicate NeverForgets(n: Node, acts: seq<Action>)
    requires n.Valid()
    decreases |acts|
  {
    acts != [] ==>
      var init, last := acts[..|acts| - 1], acts[|acts| - 1];
      NeverForgets(n, init) && !Forgets(Run(n, init), Told(n, init), last)
  }

  /** In every run of a listening port, whatever is in its control TLV (numbers, acknowledgement, versions) has at
      all times been transmitted or is about to be, exactly if no CEE peer's expiry restarts a numbering that
      was said to be another: that alone changes what the port says without a request to say it. */
  lemma {:induction false} NothingLeftUnsaid(n: Node, acts: seq<Action>)
    requires n.Valid() && n.ctrl.listening
    ensures AlwaysSpoken(n, acts) <==> NeverForgets(n, acts)
    decreases |acts|
  {
    hide Step, Forgets, Spoken;
    if acts == [] {
      assert Spoken(n, TlvOf(n)) by { SaidAtStart(n); }
    } else {
      var init, last := acts[..|acts| - 1], acts[|acts| - 1];
      NothingLeftUnsaid(n, init);
      RunListens(n, init);
      if AlwaysSpoken(n, init) {
        StepSpeaks(Run(n, init), Told(n, init), last);
      }
    }
  }

  lemma SaidAtStart(n: Node)
    ensures Spoken(n, TlvOf(n))
  {
  }
}
