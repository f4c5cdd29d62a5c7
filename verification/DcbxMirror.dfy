/** Two ports whose frames carry their feature data, over channels that keep their order but may lose or
    repeat frames: when each side's store mirrors the other side, and so when both operate alike.
 */
module DcbxMirror {
  import opened Words
  import opened DcbxTypes
  import opened DcbxFeature
  import opened DcbxNode
  import DcbxRuns

  /** A control TLV and a feature TLV for every advertised feature. */
  datatype Frame = Frame(ctrl: ControlTlv, features: map<FeatureId, Peer>)

  function AsPeer(ft: Feature): Peer {
    Peer(ft.enable, ft.willing, ft.error, true, false, ft.operVersion, ft.maxVersion, ft.subtype, ft.config)
  }

  function FrameOf(n: Node): Frame {
    Frame(TlvOf(n), map id | id in n.feats && n.feats[id].advertise :: AsPeer(n.feats[id]))
  }

  /** What a frame leaves in the peer store: a feature without a TLV is marked not present. */
  function StoredPeers(n: Node, f: Frame): map<FeatureId, Peer> {
    map id | id in n.feats :: if id in f.features then f.features[id] else n.feats[id].peer.(tlvPresent := false)
  }

  /** Two ports, the frames on their way, oldest first, and whether a port's present data are in the newest
      of its frames that is still on the way or has arrived. */
  datatype Link = Link(a: Node, b: Node, ab: seq<Frame>, ba: seq<Frame>, aTold: bool, bTold: bool)
  {
    ghost predicate Valid() {
      a.Valid() && b.Valid()
    }

    function Swap(): Link {
      Link(b, a, ba, ab, bTold, aTold)
    }
  }

  /** What can happen at port `a`, or to the frames travelling towards it. */
  datatype Event =
    | Change(id: FeatureId, settings: Settings, drv: Driver)
    | Send
    | Deliver(flags: set<FeatureId>, drv: Driver)
    | Lose(i: nat)
    | Repeat(i: nat)

  datatype LinkEvent = LinkEvent(atA: bool, event: Event)

  function StepA(l: Link, e: Event): (r: Link)
    requires l.Valid()
    ensures r.Valid()
  {
    match e
    case Change(id, s, drv) => l.(a := Step(l.a, LocalPut(id, s, drv)), aTold := false)
    case Send => if l.a.active then l.(a := Step(l.a, Transmit), ab := l.ab + [FrameOf(l.a)], aTold := true) else l
    case Deliver(flags, drv) =>
      if l.ba == [] then l
      else l.(a := Step(l.a, Receive(l.ba[0].ctrl, false, false, StoredPeers(l.a, l.ba[0]), flags, drv)), ba := l.ba[1..])
    case Lose(i) =>
      if i < |l.ba| then l.(ba := l.ba[..i] + l.ba[i + 1..], bTold := l.bTold && i < |l.ba| - 1) else l
    case Repeat(i) => if i < |l.ba| then l.(ba := l.ba[..i] + [l.ba[i]] + l.ba[i..]) else l
  }

  function StepLink(l: Link, e: LinkEvent): (r: Link)
    requires l.Valid()
    ensures r.Valid()
  {
    if e.atA then StepA(l, e.event) else StepA(l.Swap(), e.event).Swap()
  }

  function RunLink(l: Link, es: seq<LinkEvent>): (r: Link)
    requires l.Valid()
    ensures r.Valid()
    decreases |es|
  {
    if es == [] then l else StepLink(RunLink(l, es[..|es| - 1]), es[|es| - 1])
  }

  // ---------- What a step leaves alone ----------

  /** The settings a feature advertises, apart from its protocol variables. */
  predicate SameSettings(a: Feature, b: Feature) {
    && a.enable == b.enable && a.willing == b.willing && a.advertise == b.advertise
    && a.config == b.config && a.subtype == b.subtype
  }

  lemma FeatureKeepsData(id: FeatureId, ft: Feature, ctrl: Control, pc: PeerControl, remote: bool, drv: Driver)
    ensures SameSettings(FeatureStep(id, ft, ctrl, pc, remote, drv), ft)
    ensures !pc.tooMany ==> FeatureStep(id, ft, ctrl, pc, remote, drv).peer == ft.peer
  {
  }

  lemma ControlKeepsData(n: Node, remote: bool, id: FeatureId)
    requires n.Valid()
    ensures SameSettings(RunControl(n, remote).feats[id], n.feats[id])
    ensures RunControl(n, remote).feats[id].peer == n.feats[id].peer
    ensures RunControl(n, remote).peerCtrl.tooMany == n.peerCtrl.tooMany
  {
    hide Sends, Resends, Updated;
  }

  lemma RunKeepsData(n: Node, remote: bool, flags: set<FeatureId>, apps: set<FeatureId>, drv: Driver, id: FeatureId)
    requires n.Valid() && !n.peerCtrl.tooMany
    ensures SameSettings(RunDcb(n, remote, flags, apps, drv).feats[id], n.feats[id])
    ensures RunDcb(n, remote, flags, apps, drv).feats[id].peer == n.feats[id].peer
    ensures !RunDcb(n, remote, flags, apps, drv).peerCtrl.tooMany
  {
    hide FeatureStep, Selected, RunFeatures, RunControl;
    FeatureKeepsData(id, n.feats[id], n.ctrl, n.peerCtrl, remote, drv);
    DcbxRuns.RunFeaturesAt(n, remote, flags, apps, drv, id);
    ControlKeepsData(RunFeatures(n, remote, flags, apps, drv), remote, id);
  }

  /** A local change touches no peer store. */
  lemma ChangeKeepsPeers(n: Node, target: FeatureId, s: Settings, drv: Driver, id: FeatureId)
    requires n.Valid() && !n.peerCtrl.tooMany
    ensures var r := Step(n, LocalPut(target, s, drv)); r.feats[id].peer == n.feats[id].peer && !r.peerCtrl.tooMany
  {
    hide RunDcb;
    RunKeepsData(PutSettings(n, target, s), false, {target}, {target}, drv, id);
  }

  /** A delivery replaces the peer store by the frame and leaves the local settings alone. */
  lemma DeliveryStores(n: Node, f: Frame, flags: set<FeatureId>, drv: Driver, id: FeatureId)
    requires n.Valid()
    ensures var r := Step(n, Receive(f.ctrl, false, false, StoredPeers(n, f), flags, drv));
            && SameSettings(r.feats[id], n.feats[id]) && !r.peerCtrl.tooMany
            && r.feats[id].peer == if id in f.features then f.features[id] else n.feats[id].peer.(tlvPresent := false)
  {
    hide RunDcb;
    var m := StoreTlv(n, f.ctrl, false, false, StoredPeers(n, f));
    assert SameSettings(m.feats[id], n.feats[id]);
    RunKeepsData(m, true, flags, AppFeatures, drv, id);
  }

  // ---------- The invariant ----------

  /** A stored or travelling feature TLV that says what the feature's settings are. */
  predicate Says(p: Peer, ft: Feature) {
    p.enable == ft.enable && p.willing == ft.willing && p.config == ft.config && p.subtype == ft.subtype
  }

  /** The frame carries `n`'s present settings. */
  ghost predicate Carries(f: Frame, n: Node)
    requires n.Valid()
  {
    forall id :: (id in f.features <==> n.feats[id].advertise)
              && (id in f.features ==> f.features[id].tlvPresent && Says(f.features[id], n.feats[id]))
  }

  /** The port `to` has `of`'s present settings in its store. */
  ghost predicate Stores(to: Node, of: Node)
    requires to.Valid() && of.Valid()
  {
    forall id :: to.feats[id].peer.tlvPresent == of.feats[id].advertise
              && (of.feats[id].advertise ==> Says(to.feats[id].peer, of.feats[id]))
  }

  /** What `to` was last told by `of`: the newest frame on the way, or else the store, has it. */
  ghost predicate Told(told: bool, way: seq<Frame>, to: Node, of: Node)
    requires to.Valid() && of.Valid()
  {
    told ==> if way == [] then Stores(to, of) else Carries(way[|way| - 1], of)
  }

  ghost predicate Inv(l: Link)
    requires l.Valid()
  {
    && Told(l.aTold, l.ab, l.b, l.a) && Told(l.bTold, l.ba, l.a, l.b)
    && !l.a.peerCtrl.tooMany && !l.b.peerCtrl.tooMany
  }

  /** The listener's store and the speaker's settings are all that matters. */
  lemma ToldSame(told: bool, way: seq<Frame>, to: Node, to': Node, of: Node, of': Node)
    requires to.Valid() && to'.Valid() && of.Valid() && of'.Valid() && Told(told, way, to, of)
    requires way == [] ==> forall id :: to'.feats[id].peer == to.feats[id].peer
    requires forall id :: SameSettings(of'.feats[id], of.feats[id])
    ensures Told(told, way, to', of')
  {
    if told && way == [] {
      forall id
        ensures to'.feats[id].peer.tlvPresent == of'.feats[id].advertise && (of'.feats[id].advertise ==> Says(to'.feats[id].peer, of'.feats[id]))
      {
        assert to.feats[id].peer.tlvPresent == of.feats[id].advertise;
        assert SameSettings(of'.feats[id], of.feats[id]);
      }
    } else if told {
      var f := way[|way| - 1];
      forall id
        ensures id in f.features <==> of'.feats[id].advertise
        ensures id in f.features ==> f.features[id].tlvPresent && Says(f.features[id], of'.feats[id])
      {
        assert SameSettings(of'.feats[id], of.feats[id]);
        assert id in f.features <==> of.feats[id].advertise;
      }
    }
  }

  lemma SettingsReflexive(n: Node)
    requires n.Valid()
    ensures forall id :: SameSettings(n.feats[id], n.feats[id])
  {
  }

  lemma ChangeKeeps(l: Link, id: FeatureId, s: Settings, drv: Driver)
    requires l.Valid() && Inv(l)
    ensures Inv(StepA(l, Change(id, s, drv)))
  {
    hide Step, Carries, Stores, SameSettings;
    var a' := Step(l.a, LocalPut(id, s, drv));
    forall g ensures a'.feats[g].peer == l.a.feats[g].peer {
      ChangeKeepsPeers(l.a, id, s, drv, g);
    }
    ChangeKeepsPeers(l.a, id, s, drv, Pfc);
    SettingsReflexive(l.b);
    ToldSame(l.bTold, l.ba, l.a, a', l.b, l.b);
  }

  lemma TransmitKeeps(n: Node, id: FeatureId)
    requires n.Valid()
    ensures SameSettings(Step(n, Transmit).feats[id], n.feats[id]) && Step(n, Transmit).feats[id].peer == n.feats[id].peer
    ensures Step(n, Transmit).peerCtrl == n.peerCtrl
  {
  }

  lemma FrameCarries(n: Node)
    requires n.Valid()
    ensures Carries(FrameOf(n), n)
  {
  }

  lemma SendKeeps(l: Link)
    requires l.Valid() && Inv(l) && l.a.active
    ensures Inv(StepA(l, Send))
  {
    hide Step, Carries, Stores, SameSettings, FrameOf;
    var a' := Step(l.a, Transmit);
    forall g ensures SameSettings(a'.feats[g], l.a.feats[g]) && a'.feats[g].peer == l.a.feats[g].peer {
      TransmitKeeps(l.a, g);
    }
    TransmitKeeps(l.a, Pfc);
    SettingsReflexive(l.b);
    FrameCarries(l.a);
    ToldSame(true, l.ab + [FrameOf(l.a)], l.b, l.b, l.a, a');
    ToldSame(l.bTold, l.ba, l.a, a', l.b, l.b);
  }

  /** A delivered frame moves from the way into the store. */
  lemma ToldDelivered(told: bool, way: seq<Frame>, to: Node, to': Node, of: Node)
    requires to.Valid() && to'.Valid() && of.Valid() && way != [] && Told(told, way, to, of)
    requires forall id :: to'.feats[id].peer == if id in way[0].features then way[0].features[id] else to.feats[id].peer.(tlvPresent := false)
    ensures Told(told, way[1..], to', of)
  {
    hide Carries, Stores;
    if told && |way| == 1 {
      CarriedIsStored(way[0], to, to', of);
    } else {
      assert |way| > 1 ==> way[1..][|way| - 2] == way[|way| - 1];
    }
  }

  lemma CarriedIsStored(f: Frame, to: Node, to': Node, of: Node)
    requires to.Valid() && to'.Valid() && of.Valid() && Carries(f, of)
    requires forall id :: to'.feats[id].peer == if id in f.features then f.features[id] else to.feats[id].peer.(tlvPresent := false)
    ensures Stores(to', of)
  {
    hide Says;
    forall id
      ensures to'.feats[id].peer.tlvPresent == of.feats[id].advertise
      ensures of.feats[id].advertise ==> Says(to'.feats[id].peer, of.feats[id])
    {
      var p := to'.feats[id].peer;
      if id in f.features {
        assert p == f.features[id];
      } else {
        assert !p.tlvPresent;
      }
    }
  }

  lemma DeliverKeeps(l: Link, flags: set<FeatureId>, drv: Driver)
    requires l.Valid() && Inv(l) && l.ba != []
    ensures Inv(StepA(l, Deliver(flags, drv)))
  {
    hide Step, Carries, Stores, SameSettings, StoredPeers;
    var f := l.ba[0];
    var a' := Step(l.a, Receive(f.ctrl, false, false, StoredPeers(l.a, f), flags, drv));
    forall g
      ensures SameSettings(a'.feats[g], l.a.feats[g])
      ensures a'.feats[g].peer == if g in f.features then f.features[g] else l.a.feats[g].peer.(tlvPresent := false)
    {
      DeliveryStores(l.a, f, flags, drv, g);
    }
    DeliveryStores(l.a, f, flags, drv, Pfc);
    ToldSame(l.aTold, l.ab, l.b, l.b, l.a, a');
    ToldDelivered(l.bTold, l.ba, l.a, a', l.b);
  }

  lemma ChannelKeeps(l: Link, i: nat)
    requires l.Valid() && Inv(l) && i < |l.ba|
    ensures Inv(StepA(l, Lose(i))) && Inv(StepA(l, Repeat(i)))
  {
    hide Carries, Stores;
    var lost, again := l.ba[..i] + l.ba[i + 1..], l.ba[..i] + [l.ba[i]] + l.ba[i..];
    assert again[|again| - 1] == l.ba[|l.ba| - 1];
    if i < |l.ba| - 1 {
      assert lost[|lost| - 1] == l.ba[|l.ba| - 1];
    }
  }

  lemma StepKeeps(l: Link, e: LinkEvent)
    requires l.Valid() && Inv(l)
    ensures Inv(StepLink(l, e))
  {
    hide Step, Carries, Stores;
    var m := if e.atA then l else l.Swap();
    assert m.Swap().Swap() == m;
    match e.event {
      case Change(id, s, drv) => ChangeKeeps(m, id, s, drv);
      case Send => if m.a.active { SendKeeps(m); }
      case Deliver(flags, drv) => if m.ba != [] { DeliverKeeps(m, flags, drv); }
      case Lose(i) => if i < |m.ba| { ChannelKeeps(m, i); }
      case Repeat(i) => if i < |m.ba| { ChannelKeeps(m, i); }
    }
  }

  lemma {:induction false} RunKeeps(l: Link, es: seq<LinkEvent>)
    requires l.Valid() && Inv(l)
    ensures Inv(RunLink(l, es))
    decreases |es|
  {
    if es != [] {
      RunKeeps(l, es[..|es| - 1]);
      StepKeeps(RunLink(l, es[..|es| - 1]), es[|es| - 1]);
    }
  }

  // ---------- Mirrors ----------

  /** Two ports of one DCBX version that know nothing of each other. */
  ghost predicate Start(l: Link) {
    && l.Valid() && l.ab == [] && l.ba == [] && !l.aTold && !l.bTold
    && !l.a.peerCtrl.tooMany && !l.b.peerCtrl.tooMany
  }

  /** Nothing is on the way, neither port's newest frame with its present settings was lost, and both
      advertise the feature in one version of DCBX. */
  predicate Settled(r: Link, id: FeatureId)
    requires id in r.a.feats && id in r.b.feats
  {
    && r.ab == [] && r.ba == [] && r.aTold && r.bTold
    && r.a.feats[id].advertise && r.b.feats[id].advertise && r.a.feats[id].subtype == r.b.feats[id].subtype
  }

  /** In every run, once nothing is on the way and the newest frame of each port with its present settings
      was not lost, the stores of every feature both sides advertise mirror each other, whatever else
      was lost or repeated. */
  lemma ToldPortsMirror(l: Link, es: seq<LinkEvent>, id: FeatureId)
    requires Start(l)
    ensures Settled(RunLink(l, es), id) ==> Mirrors(RunLink(l, es).a.feats[id], RunLink(l, es).b.feats[id])
  {
    assert Inv(l);
    RunKeeps(l, es);
  }

  /** Both ports then reach the decision for PFC or an application. */
  predicate BothDecide(r: Link, id: FeatureId)
    requires id in r.a.feats && id in r.b.feats
  {
    && Settled(r, id) && (r.a.feats[id].config.PfcConfig? || r.a.feats[id].config.AppConfig?)
    && Decides(Entered(r.a.feats[id], r.a.ctrl, r.a.peerCtrl), r.a.ctrl, r.a.peerCtrl)
    && Decides(Entered(r.b.feats[id], r.b.ctrl, r.b.peerCtrl), r.b.ctrl, r.b.peerCtrl)
  }

  /** So two such ports that then both decide and both come up operate on the same PFC vector or
      application data. */
  lemma ToldPortsAgree(l: Link, es: seq<LinkEvent>, id: FeatureId, da: Driver, db: Driver)
    requires Start(l) && !id.Pg?
    ensures var r := RunLink(l, es);
            var fa := FeatureStep(id, r.a.feats[id], r.a.ctrl, r.a.peerCtrl, true, da);
            var fb := FeatureStep(id, r.b.feats[id], r.b.ctrl, r.b.peerCtrl, true, db);
            BothDecide(r, id) && fa.operMode && fb.operMode ==> fa.oper == fb.oper
  {
    hide FeatureStep, RunLink, Decides, Entered;
    var r := RunLink(l, es);
    ToldPortsMirror(l, es, id);
    if BothDecide(r, id) {
      Agreement(id, r.a.feats[id], r.b.feats[id], r.a.ctrl, r.b.ctrl, r.a.peerCtrl, r.b.peerCtrl, da, db);
    }
  }

  // ---------- One exchange is enough ----------

  /** Each port sends, and each frame arrives. */
  function Exchange(fa: set<FeatureId>, fb: set<FeatureId>, da: Driver, db: Driver): seq<LinkEvent> {
    [LinkEvent(true, Send), LinkEvent(false, Send), LinkEvent(true, Deliver(fa, da)), LinkEvent(false, Deliver(fb, db))]
  }

  lemma RunSnoc(l: Link, es: seq<LinkEvent>, e: LinkEvent)
    requires l.Valid()
    ensures RunLink(l, es + [e]) == StepLink(RunLink(l, es), e)
  {
    assert (es + [e])[..|es|] == es;
  }

  /** The four states of an exchange. */
  lemma ExchangeSteps(l: Link, fa: set<FeatureId>, fb: set<FeatureId>, da: Driver, db: Driver)
    requires Start(l) && l.a.active && l.b.active
    ensures var r := RunLink(l, Exchange(fa, fb, da, db));
            var a, b := Step(l.a, Transmit), Step(l.b, Transmit);
            && r.ab == [] && r.ba == [] && r.aTold && r.bTold
            && r.a == Step(a, Receive(TlvOf(l.b), false, false, StoredPeers(a, FrameOf(l.b)), fa, da))
            && r.b == Step(b, Receive(TlvOf(l.a), false, false, StoredPeers(b, FrameOf(l.a)), fb, db))
  {
    hide Step, RunLink, StoredPeers;
    var es := Exchange(fa, fb, da, db);
    RunSnoc(l, [], es[0]);
    RunSnoc(l, [es[0]], es[1]);
    RunSnoc(l, [es[0], es[1]], es[2]);
    RunSnoc(l, [es[0], es[1], es[2]], es[3]);
    assert [] + [es[0]] == [es[0]] && [es[0]] + [es[1]] == [es[0], es[1]];
    assert [es[0], es[1]] + [es[2]] == [es[0], es[1], es[2]] && [es[0], es[1], es[2]] + [es[3]] == es;
    assert RunLink(l, []) == l by { RunEmpty(l); }
  }

  lemma RunEmpty(l: Link)
    requires l.Valid()
    ensures RunLink(l, []) == l
  {
  }

  /** From any start, with any settings and numbers, one frame each way leaves every feature that both
      ports advertise mirrored. */
  lemma OneExchangeMirrors(l: Link, fa: set<FeatureId>, fb: set<FeatureId>, da: Driver, db: Driver, id: FeatureId)
    requires Start(l) && l.a.active && l.b.active
    requires l.a.feats[id].advertise && l.b.feats[id].advertise && l.a.feats[id].subtype == l.b.feats[id].subtype
    ensures var r := RunLink(l, Exchange(fa, fb, da, db));
            && Settled(r, id) && Mirrors(r.a.feats[id], r.b.feats[id])
            && SameSettings(r.a.feats[id], l.a.feats[id]) && SameSettings(r.b.feats[id], l.b.feats[id])
  {
    hide Step, RunLink, StoredPeers, Mirrors, Exchange, FrameOf;
    ExchangeSteps(l, fa, fb, da, db);
    TransmitKeeps(l.a, id);
    TransmitKeeps(l.b, id);
    assert FrameOf(l.a).ctrl == TlvOf(l.a) && FrameOf(l.b).ctrl == TlvOf(l.b) by { FrameControl(l.a); FrameControl(l.b); }
    DeliveryStores(Step(l.a, Transmit), FrameOf(l.b), fa, da, id);
    DeliveryStores(Step(l.b, Transmit), FrameOf(l.a), fb, db, id);
    ToldPortsMirror(l, Exchange(fa, fb, da, db), id);
  }

  lemma FrameControl(n: Node)
    ensures FrameOf(n).ctrl == TlvOf(n)
  {
  }
}
