/** What one port keeps over its runs: when a change waiting for its acknowledgement is frozen, feature
    numbers stay within one of the sequence number, expiry falls back to local configuration, and
    one round trip restores the right to send.
 */
module DcbxRuns {
  import opened Words
  import opened DcbxTypes
  import opened DcbxFeature
  import opened DcbxNode

  lemma RunFeaturesAt(n: Node, remote: bool, flags: set<FeatureId>, apps: set<FeatureId>, drv: Driver, id: FeatureId)
    requires n.Valid()
    ensures RunFeatures(n, remote, flags, apps, drv).feats[id] ==
            if id in Selected(n, remote, flags, apps)
            then FeatureStep(id, n.feats[id], n.ctrl, n.peerCtrl, remote, drv) else n.feats[id]
  {
    hide FeatureStep, Selected;
  }

  // ---------- Waiting features are frozen ----------

  /** What the state machines see of an event: the port once its input has been stored. */
  function Seen(n: Node, a: Action): (r: Node)
    requires n.Valid()
    ensures r.Valid()
  {
    match a
    case LocalPut(id, s, _) => PutSettings(n, id, s)
    case Receive(tlv, dup, tooMany, peers, _, _) => StoreTlv(n, tlv, dup, tooMany, peers)
    case _ => n
  }

  /** The event leaves the feature advertised with one neighbour whose TLV is stored, and does not
      acknowledge `fsn`. */
  predicate LeavesPending(n: Node, a: Action, id: FeatureId, fsn: u32)
    requires n.Valid()
  {
    var m := Seen(n, a);
    && !a.ExpirePeer? && m.feats[id].advertise && m.feats[id].peer.tlvPresent
    && !m.peerCtrl.tooMany && !m.peerCtrl.rxState.Expired? && m.peerCtrl.ackNo != fsn
  }

  /** Unsynchronised: a change has been made and not been acknowledged. */
  predicate Unsynced(ft: Feature) {
    ft.listening && !ft.syncd
  }

  /** Nothing of how the feature operates has changed, nor its number. */
  predicate SameOperation(a: Feature, b: Feature) {
    b.oper == a.oper && b.operMode == a.operMode && b.featureSeqNo == a.featureSeqNo
  }

  lemma FeatureKeepsWaiting(id: FeatureId, ft: Feature, ctrl: Control, pc: PeerControl, remote: bool, drv: Driver)
    requires Unsynced(ft) && ft.advertise && ft.peer.tlvPresent && !pc.tooMany && !pc.rxState.Expired?
    requires pc.ackNo != ft.featureSeqNo
    ensures Unsynced(FeatureStep(id, ft, ctrl, pc, remote, drv))
    ensures FeatureStep(id, ft, ctrl, pc, remote, drv).advertise
    ensures FeatureStep(id, ft, ctrl, pc, remote, drv).forceSend == ft.forceSend
    ensures SameOperation(ft, FeatureStep(id, ft, ctrl, pc, remote, drv))
  {
  }

  /** When the control protocol sends, an advertised feature comes out synchronised exactly if it was
      synchronised or carries the force-send mark: a marked feature stops waiting without having been
      acknowledged. When nothing is sent, nothing is released. */
  lemma ForcedSendEndsWaiting(n: Node, remote: bool, id: FeatureId)
    requires n.Valid() && n.active && n.feats[id].advertise
    ensures RunControl(n, remote).feats[id].syncd <==>
              n.feats[id].syncd || (n.feats[id].forceSend && Sends(n, remote))
  {
  }

  /** Whatever may be announced has been: the state in which every run of the control protocol leaves an
      active port. */
  predicate Rested(n: Node) {
    n.ctrl.seqNo == n.ctrl.myAckNo ==> FeaturesSynched(n.feats)
  }

  lemma ControlRests(n: Node, remote: bool)
    requires n.Valid() && n.active && !n.peerCtrl.rxState.Expired?
    ensures Rested(RunControl(n, remote))
  {
  }

  /** The control numbers let a pending change be announced. */
  predicate Acknowledged(n: Node, remote: bool) {
    Updated(n, remote).seqNo == Updated(n, remote).myAckNo
  }

  lemma ControlKeepsWaiting(n: Node, remote: bool, id: FeatureId)
    requires n.Valid() && n.active && n.feats[id].advertise && Unsynced(n.feats[id]) && !n.peerCtrl.rxState.Expired?
    ensures Unsynced(RunControl(n, remote).feats[id]) <==> !(n.feats[id].forceSend && Acknowledged(n, remote))
    ensures RunControl(n, remote).feats[id].forceSend == n.feats[id].forceSend
    ensures SameOperation(n.feats[id], RunControl(n, remote).feats[id])
  {
    assert !FeaturesSynched(n.feats);
    ForcedSendEndsWaiting(n, remote, id);
  }

  lemma RunDcbKeepsWaiting(n: Node, remote: bool, flags: set<FeatureId>, apps: set<FeatureId>,
                           drv: Driver, id: FeatureId)
    requires n.Valid() && Unsynced(n.feats[id]) && n.feats[id].advertise && n.feats[id].peer.tlvPresent
    requires !n.peerCtrl.tooMany && !n.peerCtrl.rxState.Expired?
    requires n.peerCtrl.ackNo != n.feats[id].featureSeqNo
    ensures Unsynced(RunDcb(n, remote, flags, apps, drv).feats[id]) <==>
              !(n.feats[id].forceSend && n.active && flags != {} && Acknowledged(n, remote))
    ensures RunDcb(n, remote, flags, apps, drv).feats[id].forceSend == n.feats[id].forceSend
    ensures SameOperation(n.feats[id], RunDcb(n, remote, flags, apps, drv).feats[id])
  {
    hide FeatureStep, RunControl, RunFeatures, Selected;
    var m := RunFeatures(n, remote, flags, apps, drv);
    FeatureKeepsWaiting(id, n.feats[id], n.ctrl, n.peerCtrl, remote, drv);
    RunFeaturesAt(n, remote, flags, apps, drv, id);
    if n.active {
      ControlKeepsWaiting(m, remote, id);
    }
  }

  lemma SeenKeepsWaiting(n: Node, a: Action, id: FeatureId)
    requires n.Valid() && Unsynced(n.feats[id])
    ensures Unsynced(Seen(n, a).feats[id]) && SameOperation(n.feats[id], Seen(n, a).feats[id])
    ensures Seen(n, a).feats[id].forceSend == n.feats[id].forceSend && Seen(n, a).active == n.active
  {
  }

  /** The event runs the protocol, and the numbers then let a pending change be announced. */
  predicate Announces(n: Node, a: Action)
    requires n.Valid()
  {
    && n.active && (a.LocalPut? || (a.Receive? && a.flags != {}))
    && Acknowledged(Seen(n, a), a.Receive?)
  }

  /** One event with the acknowledgement outstanding: the feature goes on waiting unless it is marked
      and a send goes out, and operates as before in any case. */
  lemma StepKeepsWaiting(n: Node, a: Action, id: FeatureId)
    requires n.Valid() && Unsynced(n.feats[id]) && LeavesPending(n, a, id, n.feats[id].featureSeqNo)
    ensures Unsynced(Step(n, a).feats[id]) <==> !(n.feats[id].forceSend && Announces(n, a))
    ensures Step(n, a).feats[id].forceSend == n.feats[id].forceSend
    ensures SameOperation(n.feats[id], Step(n, a).feats[id])
  {
    hide RunDcb, Expire, PutSettings, StoreTlv;
    SeenKeepsWaiting(n, a, id);
    match a
    case LocalPut(g, _, drv) => RunDcbKeepsWaiting(Seen(n, a), false, {g}, {g}, drv, id);
    case Receive(_, _, _, _, flags, drv) => RunDcbKeepsWaiting(Seen(n, a), true, flags, AppFeatures, drv, id);
    case _ =>
  }

  /** No event of the run lets the feature's number be acknowledged. */
  predicate StaysPending(n: Node, acts: seq<Action>, id: FeatureId)
    requires n.Valid()
    decreases |acts|
  {
    acts != [] ==>
      var init, last := acts[..|acts| - 1], acts[|acts| - 1];
      StaysPending(n, init, id) && LeavesPending(Run(n, init), last, id, n.feats[id].featureSeqNo)
  }

  /** The feature is unsynchronised after every event of the run. */
  predicate WaitsThroughout(n: Node, acts: seq<Action>, id: FeatureId)
    requires n.Valid()
    decreases |acts|
  {
    Unsynced(Run(n, acts).feats[id]) && (acts != [] ==> WaitsThroughout(n, acts[..|acts| - 1], id))
  }

  /** No event of the run sends. */
  predicate NeverAnnounces(n: Node, acts: seq<Action>)
    requires n.Valid()
    decreases |acts|
  {
    acts != [] ==>
      var init, last := acts[..|acts| - 1], acts[|acts| - 1];
      NeverAnnounces(n, init) && !Announces(Run(n, init), last)
  }

  /** From the moment an advertised feature is unsynchronised until the peer acknowledges its number,
      it keeps waiting through every run of local and remote events exactly if it carries no
      force-send mark or no send goes out; and while it waits, nothing changes how it operates. */
  lemma {:induction false} WaitingFeatureIsFrozen(n: Node, acts: seq<Action>, id: FeatureId)
    requires n.Valid() && Unsynced(n.feats[id]) && StaysPending(n, acts, id)
    ensures WaitsThroughout(n, acts, id) <==> (n.feats[id].forceSend ==> NeverAnnounces(n, acts))
    ensures WaitsThroughout(n, acts, id) ==>
              && SameOperation(n.feats[id], Run(n, acts).feats[id])
              && Run(n, acts).feats[id].forceSend == n.feats[id].forceSend
    decreases |acts|
  {
    hide Step, LeavesPending, Announces, SameOperation;
    if acts == [] {
      SameAsItself(n.feats[id]);
    } else {
      var init, last := acts[..|acts| - 1], acts[|acts| - 1];
      var m := Run(n, init);
      WaitingFeatureIsFrozen(n, init, id);
      if WaitsThroughout(n, init, id) {
        SameNumber(n.feats[id], m.feats[id]);
        StepKeepsWaiting(m, last, id);
        SameTransitive(n.feats[id], m.feats[id], Step(m, last).feats[id]);
      }
    }
  }

  lemma SameAsItself(a: Feature)
    ensures SameOperation(a, a)
  {
  }

  lemma SameNumber(a: Feature, b: Feature)
    requires SameOperation(a, b)
    ensures b.featureSeqNo == a.featureSeqNo
  {
  }

  lemma SameTransitive(a: Feature, b: Feature, c: Feature)
    ensures SameOperation(a, b) && SameOperation(b, c) ==> SameOperation(a, c)
  {
  }

  // ---------- No feature waits for a number that has gone by ----------

  /** An unsynchronised feature either will be announced under the next sequence number, or was
      announced under the current one, which is not acknowledged yet. */
  predicate Announcing(ft: Feature, seqNo: u32, myAckNo: u32) {
    ft.listening && !ft.syncd ==>
      ft.featureSeqNo == Next(seqNo) || (ft.featureSeqNo == seqNo && seqNo != myAckNo)
  }

  ghost predicate NoStaleWait(n: Node)
    requires n.Valid()
  {
    && n.ctrl.listening && !n.peerCtrl.rxState.Expired?
    && forall id :: Announcing(n.feats[id], n.ctrl.seqNo, n.ctrl.myAckNo)
  }

  /** The peer's acknowledgement of the number a feature waits for is about to be taken in, without the
      feature having seen it and without anything else releasing it. */
  predicate Stuck(ft: Feature, ctrl: Control, pc: PeerControl) {
    && VersionsAgree(ctrl, pc) && !pc.duplicate && pc.ackNo == ctrl.seqNo
    && ft.listening && !ft.syncd && ft.featureSeqNo == ctrl.seqNo && ft.advertise && !ft.forceSend
  }

  lemma FeatureAnnounces(id: FeatureId, ft: Feature, ctrl: Control, pc: PeerControl, remote: bool, drv: Driver)
    requires Announcing(ft, ctrl.seqNo, ctrl.myAckNo) && !pc.rxState.Expired?
    ensures Announcing(FeatureStep(id, ft, ctrl, pc, remote, drv), ctrl.seqNo, ctrl.myAckNo)
    ensures remote ==> !Stuck(FeatureStep(id, ft, ctrl, pc, remote, drv), ctrl, pc)
  {
  }

  lemma ControlAnnouncesAt(n: Node, remote: bool, id: FeatureId)
    requires n.Valid() && n.active && n.ctrl.listening && !n.peerCtrl.rxState.Expired?
    requires Announcing(n.feats[id], n.ctrl.seqNo, n.ctrl.myAckNo)
    ensures var r := RunControl(n, remote);
            Announcing(r.feats[id], r.ctrl.seqNo, r.ctrl.myAckNo) <==> !(remote && Stuck(n.feats[id], n.ctrl, n.peerCtrl))
  {
    if Unsynced(n.feats[id]) {
      assert !FeaturesSynched(n.feats);
    }
  }

  lemma ControlAnnounces(n: Node, remote: bool)
    requires n.Valid() && n.active && NoStaleWait(n)
    ensures NoStaleWait(RunControl(n, remote)) <==> !(remote && exists id :: Stuck(n.feats[id], n.ctrl, n.peerCtrl))
  {
    hide Stuck;
    forall id
      ensures Announcing(RunControl(n, remote).feats[id], RunControl(n, remote).ctrl.seqNo, RunControl(n, remote).ctrl.myAckNo)
         <==> !(remote && Stuck(n.feats[id], n.ctrl, n.peerCtrl))
    {
      ControlAnnouncesAt(n, remote, id);
    }
    ControlListens(n, remote);
    hide RunControl;
  }

  lemma ControlListens(n: Node, remote: bool)
    requires n.Valid() && n.ctrl.listening && !n.peerCtrl.rxState.Expired?
    ensures RunControl(n, remote).ctrl.listening && !RunControl(n, remote).peerCtrl.rxState.Expired?
  {
  }

  /** A flagged event reaches a feature; one flagged application brings all of them along. */
  predicate Reached(id: FeatureId, flags: set<FeatureId>) {
    id in flags || (IsApp(id) && flags * AppFeatures != {})
  }

  lemma ReachedIsSelected(n: Node, flags: set<FeatureId>, id: FeatureId)
    requires n.Valid() && VersionsAgree(n.ctrl, n.peerCtrl)
    ensures id in Selected(n, true, flags, AppFeatures) <==> Reached(id, flags)
  {
  }

  /** After the features of a remote event have run, the stuck ones are those it did not reach. */
  lemma StuckAfterFeatures(n: Node, flags: set<FeatureId>, drv: Driver, id: FeatureId)
    requires n.Valid() && NoStaleWait(n)
    ensures var m := RunFeatures(n, true, flags, AppFeatures, drv);
            && Announcing(m.feats[id], n.ctrl.seqNo, n.ctrl.myAckNo)
            && (Stuck(m.feats[id], n.ctrl, n.peerCtrl) <==> !Reached(id, flags) && Stuck(n.feats[id], n.ctrl, n.peerCtrl))
  {
    hide FeatureStep, Selected, Reached, RunFeatures;
    assert Announcing(n.feats[id], n.ctrl.seqNo, n.ctrl.myAckNo);
    RunFeaturesAt(n, true, flags, AppFeatures, drv, id);
    FeatureAnnounces(id, n.feats[id], n.ctrl, n.peerCtrl, true, drv);
    if VersionsAgree(n.ctrl, n.peerCtrl) {
      ReachedIsSelected(n, flags, id);
    }
  }

  lemma RemoteAnnounces(n: Node, flags: set<FeatureId>, drv: Driver)
    requires n.Valid() && NoStaleWait(n)
    ensures NoStaleWait(RunDcb(n, true, flags, AppFeatures, drv)) <==>
            !(n.active && flags != {} && exists id :: !Reached(id, flags) && Stuck(n.feats[id], n.ctrl, n.peerCtrl))
  {
    hide RunControl, RunFeatures, Stuck, Reached, Announcing;
    var m := RunFeatures(n, true, flags, AppFeatures, drv);
    forall id
      ensures Announcing(m.feats[id], n.ctrl.seqNo, n.ctrl.myAckNo)
      ensures Stuck(m.feats[id], n.ctrl, n.peerCtrl) <==> !Reached(id, flags) && Stuck(n.feats[id], n.ctrl, n.peerCtrl)
    {
      StuckAfterFeatures(n, flags, drv, id);
    }
    if n.active {
      ControlAnnounces(m, true);
    }
  }

  lemma LocalAnnounces(n: Node, flags: set<FeatureId>, apps: set<FeatureId>, drv: Driver)
    requires n.Valid() && NoStaleWait(n)
    ensures NoStaleWait(RunDcb(n, false, flags, apps, drv))
  {
    hide FeatureStep, RunControl, RunFeatures, Selected;
    var m := RunFeatures(n, false, flags, apps, drv);
    forall id
      ensures Announcing(m.feats[id], n.ctrl.seqNo, n.ctrl.myAckNo)
    {
      assert Announcing(n.feats[id], n.ctrl.seqNo, n.ctrl.myAckNo);
      RunFeaturesAt(n, false, flags, apps, drv, id);
      FeatureAnnounces(id, n.feats[id], n.ctrl, n.peerCtrl, false, drv);
    }
    if n.active {
      ControlAnnounces(m, false);
    }
  }

  lemma AllSelected(n: Node, remote: bool, flags: set<FeatureId>, apps: set<FeatureId>, id: FeatureId)
    requires n.Valid() && remote && VersionsAgree(n.ctrl, n.peerCtrl)
    requires id in flags && (IsApp(id) ==> id in apps)
    ensures id in Selected(n, remote, flags, apps)
  {
  }

  /** The event strands the feature: it acknowledges the number the feature waits for, but its flags
      do not let the feature see that. */
  predicate Strands(n: Node, a: Action, id: FeatureId)
    requires n.Valid()
  {
    && a.Receive? && n.active && a.flags != {} && !Reached(id, a.flags)
    && Stuck(Seen(n, a).feats[id], n.ctrl, Seen(n, a).peerCtrl)
  }

  lemma SeenAnnounces(n: Node, a: Action)
    requires n.Valid() && NoStaleWait(n) && !a.ExpirePeer?
    ensures NoStaleWait(Seen(n, a)) && Seen(n, a).ctrl == n.ctrl && Seen(n, a).active == n.active
  {
    forall id
      ensures Announcing(Seen(n, a).feats[id], n.ctrl.seqNo, n.ctrl.myAckNo)
    {
      assert Announcing(n.feats[id], n.ctrl.seqNo, n.ctrl.myAckNo);
    }
  }

  /** One event: no feature is left waiting for a number that has gone by exactly if none is stranded. */
  lemma StepAnnounces(n: Node, a: Action)
    requires n.Valid() && NoStaleWait(n) && !a.ExpirePeer?
    ensures NoStaleWait(Step(n, a)) <==> forall id :: !Strands(n, a, id)
  {
    hide RunDcb, Expire, Stuck, Reached;
    SeenAnnounces(n, a);
    if a.LocalPut? {
      LocalAnnounces(Seen(n, a), {a.id}, {a.id}, a.drv);
    } else if a.Receive? {
      var m := Seen(n, a);
      RemoteAnnounces(m, a.flags, a.drv);
      assert forall id :: Strands(n, a, id) <==>
               n.active && a.flags != {} && !Reached(id, a.flags) && Stuck(m.feats[id], m.ctrl, m.peerCtrl);
    } else {
      forall id
        ensures Announcing(Step(n, a).feats[id], n.ctrl.seqNo, n.ctrl.myAckNo)
      {
        assert Announcing(n.feats[id], n.ctrl.seqNo, n.ctrl.myAckNo);
      }
    }
  }

  ghost predicate NeverStale(n: Node, acts: seq<Action>)
    requires n.Valid()
    decreases |acts|
  {
    NoStaleWait(Run(n, acts)) && (acts != [] ==> NeverStale(n, acts[..|acts| - 1]))
  }

  ghost predicate NeverStrands(n: Node, acts: seq<Action>)
    requires n.Valid()
    decreases |acts|
  {
    acts != [] ==>
      var init, last := acts[..|acts| - 1], acts[|acts| - 1];
      NeverStrands(n, init) && forall id :: !Strands(Run(n, init), last, id)
  }

  /** In a run without expiry, whatever numbers the peer sends and although sequence numbers wrap, every
      unsynchronised feature's number is at all times the current unacknowledged sequence number or the
      next one, exactly if no event strands a feature. */
  lemma {:induction false} NoFeatureWaitsInVain(n: Node, acts: seq<Action>)
    requires n.Valid() && NoStaleWait(n)
    requires forall k | 0 <= k < |acts| :: !acts[k].ExpirePeer?
    ensures NeverStale(n, acts) <==> NeverStrands(n, acts)
    decreases |acts|
  {
    hide Step, Strands, NoStaleWait;
    if acts != [] {
      var init, last := acts[..|acts| - 1], acts[|acts| - 1];
      NoFeatureWaitsInVain(n, init);
      if NeverStale(n, init) {
        StepAnnounces(Run(n, init), last);
      }
    }
  }

  /** The event is a received frame with these sub-TLVs. */
  ghost predicate ComesFrom(a: Action, m: Manifest) {
    a.Receive? && forall id: FeatureId :: id in a.flags <==> Flagged(m, id)
  }

  /** A received frame strands a feature exactly if that is an application waiting for the number the
      frame acknowledges and the frame's application TLV is there and not usable. */
  lemma FrameStrandsIff(n: Node, a: Action, m: Manifest, id: FeatureId)
    requires n.Valid() && ComesFrom(a, m)
    ensures Strands(n, a, id) <==>
              && n.active && IsApp(id) && m.app.Some? && !Usable(m.app.value)
              && Stuck(Seen(n, a).feats[id], n.ctrl, Seen(n, a).peerCtrl)
  {
    hide Stuck, Seen;
    assert Pfc in a.flags && Pg in a.flags && Llink in a.flags;
    assert AppFcoe in a.flags <==> (m.app.Some? ==> Usable(m.app.value));
    if m.app.Some? && !Usable(m.app.value) {
      assert AppIscsi !in a.flags && AppFip !in a.flags;
      assert a.flags * AppFeatures == {};
    }
  }

  // ---------- Feature numbers stay within one of the sequence number ----------

  ghost predicate WithinOne(n: Node)
    requires n.Valid()
  {
    !n.peerCtrl.rxState.Expired? && forall id :: n.feats[id].featureSeqNo <= n.ctrl.seqNo + 1
  }

  /** The sequence number is at its highest, the run of the protocol sends, and a feature that it does
      not renumber has a number above 1. */
  ghost predicate LeavesBehind(n: Node, remote: bool, flags: set<FeatureId>, apps: set<FeatureId>, drv: Driver)
    requires n.Valid()
  {
    && n.active && flags != {} && n.ctrl.seqNo == MAX_U32
    && Sends(RunFeatures(n, remote, flags, apps, drv), remote)
    && exists id :: n.feats[id].featureSeqNo > 1
         && RunFeatures(n, remote, flags, apps, drv).feats[id].featureSeqNo == n.feats[id].featureSeqNo
  }

  lemma FeatureNumbers(id: FeatureId, ft: Feature, ctrl: Control, pc: PeerControl, remote: bool, drv: Driver)
    requires !pc.rxState.Expired?
    ensures FeatureStep(id, ft, ctrl, pc, remote, drv).featureSeqNo in {ft.featureSeqNo, Next(ctrl.seqNo)}
  {
  }

  lemma RanNumbers(n: Node, remote: bool, flags: set<FeatureId>, apps: set<FeatureId>, drv: Driver, id: FeatureId)
    requires n.Valid() && !n.peerCtrl.rxState.Expired?
    ensures RunFeatures(n, remote, flags, apps, drv).feats[id].featureSeqNo in {n.feats[id].featureSeqNo, Next(n.ctrl.seqNo)}
  {
    hide FeatureStep, RunFeatures, Selected;
    RunFeaturesAt(n, remote, flags, apps, drv, id);
    FeatureNumbers(id, n.feats[id], n.ctrl, n.peerCtrl, remote, drv);
  }

  /** How the control protocol moves the sequence number. */
  lemma ControlNumbers(n: Node, remote: bool, id: FeatureId)
    requires n.Valid() && n.active && !n.peerCtrl.rxState.Expired?
    ensures var r := RunControl(n, remote);
            && r.ctrl.seqNo == (if Sends(n, remote) then Next(n.ctrl.seqNo) else n.ctrl.seqNo)
            && !r.peerCtrl.rxState.Expired? && r.feats[id].featureSeqNo == n.feats[id].featureSeqNo
  {
    hide Sends;
  }

  lemma RunDcbWithinOne(n: Node, remote: bool, flags: set<FeatureId>, apps: set<FeatureId>, drv: Driver)
    requires n.Valid() && WithinOne(n)
    ensures WithinOne(RunDcb(n, remote, flags, apps, drv)) <==> !LeavesBehind(n, remote, flags, apps, drv)
  {
    hide RunFeatures, RunControl, Sends;
    if n.active && flags != {} {
      var m := RunFeatures(n, remote, flags, apps, drv);
      var r := RunControl(m, remote);
      var over := n.ctrl.seqNo == MAX_U32 && Sends(m, remote);
      forall id
        ensures r.feats[id].featureSeqNo <= r.ctrl.seqNo + 1 <==>
                  !(over && n.feats[id].featureSeqNo > 1 && m.feats[id].featureSeqNo == n.feats[id].featureSeqNo)
        ensures !r.peerCtrl.rxState.Expired?
      {
        assert n.feats[id].featureSeqNo <= n.ctrl.seqNo + 1;
        RanNumbers(n, remote, flags, apps, drv, id);
        ControlNumbers(m, remote, id);
      }
      assert WithinOne(r) <==> forall id :: !(over && n.feats[id].featureSeqNo > 1 && m.feats[id].featureSeqNo == n.feats[id].featureSeqNo) by {
        ControlNumbers(m, remote, Pfc);
      }
    }
  }

  /** The event leaves some feature's number behind the wrap. */
  ghost predicate Outruns(n: Node, a: Action)
    requires n.Valid()
  {
    match a
    case LocalPut(id, _, drv) => LeavesBehind(Seen(n, a), false, {id}, {id}, drv)
    case Receive(_, _, _, _, flags, drv) => LeavesBehind(Seen(n, a), true, flags, AppFeatures, drv)
    case _ => false
  }

  lemma SeenWithinOne(n: Node, a: Action)
    requires n.Valid() && WithinOne(n) && !a.ExpirePeer?
    ensures WithinOne(Seen(n, a))
  {
    forall id
      ensures Seen(n, a).feats[id].featureSeqNo <= Seen(n, a).ctrl.seqNo + 1
    {
      assert n.feats[id].featureSeqNo <= n.ctrl.seqNo + 1;
    }
  }

  /** One event keeps every FeatureSeqNo at most SeqNo + 1 exactly if it leaves none behind the wrap. */
  lemma StepWithinOne(n: Node, a: Action)
    requires n.Valid() && WithinOne(n) && !a.ExpirePeer?
    ensures WithinOne(Step(n, a)) <==> !Outruns(n, a)
  {
    hide RunDcb, Expire, LeavesBehind;
    SeenWithinOne(n, a);
    if a.LocalPut? {
      RunDcbWithinOne(Seen(n, a), false, {a.id}, {a.id}, a.drv);
    } else if a.Receive? {
      RunDcbWithinOne(Seen(n, a), true, a.flags, AppFeatures, a.drv);
    } else {
      forall id
        ensures Step(n, a).feats[id].featureSeqNo <= n.ctrl.seqNo + 1
      {
        assert n.feats[id].featureSeqNo <= n.ctrl.seqNo + 1;
      }
    }
  }

  ghost predicate AlwaysWithinOne(n: Node, acts: seq<Action>)
    requires n.Valid()
    decreases |acts|
  {
    WithinOne(Run(n, acts)) && (acts != [] ==> AlwaysWithinOne(n, acts[..|acts| - 1]))
  }

  ghost predicate NeverOutruns(n: Node, acts: seq<Action>)
    requires n.Valid()
    decreases |acts|
  {
    acts != [] ==>
      var init, last := acts[..|acts| - 1], acts[|acts| - 1];
      NeverOutruns(n, init) && !Outruns(Run(n, init), last)
  }

  /** Between expiries FeatureSeqNo <= SeqNo + 1 at all times, exactly if no event leaves a feature's
      number behind the wrap of SeqNo. */
  lemma {:induction false} FeatureNumbersWithinOne(n: Node, acts: seq<Action>)
    requires n.Valid() && WithinOne(n)
    requires forall k | 0 <= k < |acts| :: !acts[k].ExpirePeer?
    ensures AlwaysWithinOne(n, acts) <==> NeverOutruns(n, acts)
    decreases |acts|
  {
    hide Step, Outruns, WithinOne;
    if acts != [] {
      var init, last := acts[..|acts| - 1], acts[|acts| - 1];
      FeatureNumbersWithinOne(n, init);
      if AlwaysWithinOne(n, init) {
        StepWithinOne(Run(n, init), last);
      }
    }
  }

  // ---------- Peer expiry ----------

  /** The control protocol touches nothing of how a feature operates. */
  lemma ControlAt(n: Node, remote: bool, id: FeatureId)
    requires n.Valid()
    ensures SameOperation(n.feats[id], RunControl(n, remote).feats[id])
  {
    hide RunControl;
  }

  lemma RunDcbAt(n: Node, remote: bool, flags: set<FeatureId>, apps: set<FeatureId>, drv: Driver, id: FeatureId)
    requires n.Valid() && n.active && id in flags && id in Selected(n, remote, flags, apps)
    ensures SameOperation(FeatureStep(id, n.feats[id], n.ctrl, n.peerCtrl, remote, drv),
                          RunDcb(n, remote, flags, apps, drv).feats[id])
  {
    hide FeatureStep, RunControl, RunFeatures, Selected;
    RunFeaturesAt(n, remote, flags, apps, drv, id);
    ControlAt(RunFeatures(n, remote, flags, apps, drv), remote, id);
  }

  lemma ExpiredFeature(id: FeatureId, ft: Feature, ctrl: Control, pc: PeerControl, drv: Driver)
    requires ft.advertise && VersionsAgree(ctrl, pc) && !ft.peer.tlvPresent
    ensures !FeatureStep(id, ft, ctrl, pc, true, drv).operMode
    ensures !id.Pg? ==> FeatureStep(id, ft, ctrl, pc, true, drv).oper == ft.config
    ensures ExpiryPending(ft, pc) ==> FeatureStep(id, ft, ctrl, pc, true, drv).featureSeqNo == 1
  {
  }

  lemma DropPeerAt(n: Node, id: FeatureId)
    requires n.Valid()
    ensures DropPeer(n).feats[id].advertise == n.feats[id].advertise
    ensures DropPeer(n).feats[id].config == n.feats[id].config
    ensures DropPeer(n).feats[id].subtype == n.feats[id].subtype
    ensures !DropPeer(n).feats[id].peer.tlvPresent
    ensures DropPeer(n).ctrl == n.ctrl && DropPeer(n).active == n.active
    ensures VersionsAgree(DropPeer(n).ctrl, DropPeer(n).peerCtrl) == VersionsAgree(n.ctrl, n.peerCtrl)
    ensures !n.peerCtrl.duplicate && !n.peerCtrl.tooMany ==> DropPeer(n).peerCtrl.rxState.Expired?
  {
  }

  /** When the peer expires, every advertised feature whose TLV was stored goes out of operation
      and back to its local configuration; for CEE it is to be announced under number 1, unless a
      duplicate or neighbour error hid the expiry. */
  lemma ExpiryFallsBack(n: Node, drv: Driver, id: FeatureId)
    requires n.Valid() && n.active && VersionsAgree(n.ctrl, n.peerCtrl)
    requires n.feats[id].peer.tlvPresent && n.feats[id].advertise
    ensures !Expire(n, drv).feats[id].operMode
    ensures !id.Pg? ==> Expire(n, drv).feats[id].oper == n.feats[id].config
    ensures n.feats[id].subtype.Cee? && !n.peerCtrl.duplicate && !n.peerCtrl.tooMany ==>
              Expire(n, drv).feats[id].featureSeqNo == 1
  {
    hide FeatureStep, RunDcb, Selected, DropPeer;
    var m := DropPeer(n);
    DropPeerAt(n, id);
    AllSelected(m, true, PresentPeers(n), AppFeatures, id);
    RunDcbAt(m, true, PresentPeers(n), AppFeatures, drv, id);
    ExpiredFeature(id, m.feats[id], m.ctrl, m.peerCtrl, drv);
  }

  /** put_peer_control records the expiry unless a duplicate or neighbour error is stored. */
  predicate ExpiryRecorded(pc: PeerControl) {
    pc.rxState.Expired? || (!pc.duplicate && !pc.tooMany)
  }

  /** When the expiry is recorded the numbering restarts: a CEE port ends at zero, a CIN port may already
      have announced its fallback under number 1. When it is not, the port goes on acknowledging what
      it acknowledged before and its numbers move as for any event: AckNo is cleared exactly when the
      expiry is recorded. */
  lemma ExpiryRestartsNumbering(n: Node, drv: Driver)
    requires n.Valid() && n.active && PresentPeers(n) != {}
    ensures var c := Expire(n, drv).ctrl;
            if ExpiryRecorded(n.peerCtrl) then
              && c.ackNo == 0 && c.myAckNo == 0 && c.operVersion == c.maxVersion
              && (if n.feats[Pg].subtype.Cee? then c.seqNo == 0 else c.seqNo in {0, 1})
            else
              && c.ackNo == n.ctrl.ackNo && c.myAckNo in {n.ctrl.myAckNo, n.peerCtrl.ackNo}
              && (c.seqNo == n.ctrl.seqNo || (n.ctrl.seqNo == c.myAckNo && c.seqNo == Next(n.ctrl.seqNo)))
    ensures n.ctrl.ackNo != 0 ==> (Expire(n, drv).ctrl.ackNo == 0 <==> ExpiryRecorded(n.peerCtrl))
  {
    hide FeatureStep, RunFeatures, Selected, FeaturesSynched;
    var m := RunFeatures(DropPeer(n), true, PresentPeers(n), AppFeatures, drv);
    RunFeaturesAt(DropPeer(n), true, PresentPeers(n), AppFeatures, drv, Pg);
    SubtypeFixed(Pg, DropPeer(n).feats[Pg], n.ctrl, DropPeer(n).peerCtrl, drv);
  }

  lemma SubtypeFixed(id: FeatureId, ft: Feature, ctrl: Control, pc: PeerControl, drv: Driver)
    ensures FeatureStep(id, ft, ctrl, pc, true, drv).subtype == ft.subtype
  {
  }

  // ---------- One round trip restores the right to send ----------

  /** Versions match in both directions. */
  predicate Matched(a: Node, b: Node) {
    a.ctrl.listening && b.ctrl.listening &&
    a.ctrl.operVersion == b.ctrl.operVersion == Min(a.ctrl.maxVersion, b.ctrl.maxVersion)
  }

  /** From any state of both ports: deliver `a`'s TLV to `b`, then `b`'s TLV to `a`. The port is
      then acknowledged up to the number it sent: it has just announced its next change, or may do
      so at once. */
  lemma RoundTrip(a: Node, b: Node, pa: map<FeatureId, Peer>, pb: map<FeatureId, Peer>,
                  fa: set<FeatureId>, fb: set<FeatureId>, da: Driver, db: Driver)
    requires a.Valid() && b.Valid() && a.active && b.active && Matched(a, b) && fa != {} && fb != {}
    ensures var b' := Step(b, Receive(TlvOf(a), false, false, pb, fb, db));
            var a' := Step(a, Receive(TlvOf(b'), false, false, pa, fa, da));
            && b'.ctrl.ackNo == a.ctrl.seqNo
            && a'.ctrl.myAckNo == a.ctrl.seqNo
            && a'.ctrl.ackNo == b'.ctrl.seqNo
            && (a'.ctrl.seqNo == a.ctrl.seqNo || a'.ctrl.seqNo == Next(a.ctrl.seqNo))
            && (a'.ctrl.seqNo == a.ctrl.seqNo ==> FeaturesSynched(a'.feats))
  {
    ReceiveNumbers(b, TlvOf(a), pb, fb, db);
    var b' := Step(b, Receive(TlvOf(a), false, false, pb, fb, db));
    ReceiveNumbers(a, TlvOf(b'), pa, fa, da);
  }

  lemma ReceiveNumbers(n: Node, tlv: ControlTlv, peers: map<FeatureId, Peer>, flags: set<FeatureId>, drv: Driver)
    requires n.Valid() && n.active && n.ctrl.listening && flags != {}
    requires n.ctrl.operVersion == tlv.operVersion == Min(tlv.maxVersion, n.ctrl.maxVersion)
    ensures var r := Step(n, Receive(tlv, false, false, peers, flags, drv));
            && r.ctrl.ackNo == tlv.seqNo && r.ctrl.myAckNo == tlv.ackNo
            && r.ctrl.operVersion == n.ctrl.operVersion && r.ctrl.maxVersion == n.ctrl.maxVersion
            && (r.ctrl.seqNo == n.ctrl.seqNo || (r.ctrl.seqNo == Next(n.ctrl.seqNo) && n.ctrl.seqNo == tlv.ackNo))
            && (r.ctrl.seqNo == n.ctrl.seqNo == tlv.ackNo ==> FeaturesSynched(r.feats))
  {
    hide RunFeatures, FeaturesSynched, UpdateFeatureSyncd;
  }
}
