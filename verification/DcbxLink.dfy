/** Two ports exchanging control TLVs over channels that keep their order but may lose or repeat
    TLVs, and the stop-and-wait guarantee of the control protocol: over any run at most one change
    of a port is unacknowledged, even though the 32-bit numbers wrap.
 */
module DcbxLink {
  import opened Words
  import opened DcbxTypes
  import opened DcbxNode

  /** `ab` and `ba` are the TLVs on their way, oldest first. */
  datatype Link = Link(a: Node, b: Node, ab: seq<ControlTlv>, ba: seq<ControlTlv>)
  {
    ghost predicate Valid() {
      a.Valid() && b.Valid()
    }

    function Swap(): Link {
      Link(b, a, ba, ab)
    }
  }

  /** What can happen at port `a`, or to the TLVs travelling towards it. The stored feature TLVs and
      the error conditions of a delivery are arbitrary. */
  datatype Event =
    | LocalChange(id: FeatureId, settings: Settings, drv: Driver)
    | Send
    | Deliver(duplicate: bool, tooMany: bool, peers: map<FeatureId, Peer>, flags: set<FeatureId>, drv: Driver)
    | Lose(i: nat)
    | Repeat(i: nat)

  datatype LinkEvent = LinkEvent(atA: bool, event: Event)

  function StepA(l: Link, e: Event): (r: Link)
    requires l.Valid()
    ensures r.Valid()
  {
    match e
    case LocalChange(id, s, drv) => l.(a := Step(l.a, LocalPut(id, s, drv)))
    case Send => if l.a.active then l.(a := Step(l.a, Transmit), ab := l.ab + [TlvOf(l.a)]) else l
    case Deliver(dup, tooMany, peers, flags, drv) =>
      if l.ba == [] then l
      else l.(a := Step(l.a, Receive(l.ba[0], dup, tooMany, peers, flags, drv)), ba := l.ba[1..])
    case Lose(i) => if i < |l.ba| then l.(ba := l.ba[..i] + l.ba[i + 1..]) else l
    case Repeat(i) => if i < |l.ba| then l.(ba := l.ba[..i] + [l.ba[i]] + l.ba[i..]) else l
  }

  function StepLink(l: Link, e: LinkEvent): (r: Link)
    requires l.Valid()
    ensures r.Valid()
  {
    if e.atA then StepA(l, e.event) else StepA(l.Swap(), e.event).Swap()
  }

  function RunLink(l: Link, es: seq<LinkEvent>): (r: Link)
    requires l.Valid()
    ensures r.Valid()
    decreases |es|
  {
    if es == [] then l else StepLink(RunLink(l, es[..|es| - 1]), es[|es| - 1])
  }

  // ---------- Chains of numbers ----------

  /** A sequence that holds one value and then, from some point on, its successor. */
  predicate Chain(s: seq<u32>) {
    |s| > 0 && forall i, j | 0 <= i < j < |s| :: s[i] == s[j] || (s[i] == s[0] && s[j] == Next(s[0]))
  }

  lemma ChainValues(s: seq<u32>, i: nat)
    requires Chain(s) && i < |s|
    ensures s[i] == s[0] || (s[i] == Next(s[0]) && s[|s| - 1] == Next(s[0]))
  {
    assert i < |s| - 1 ==> s[i] == s[|s| - 1] || s[i] == s[0];
  }

  /** Picking elements of a chain in order, with repetition or omission, gives a chain. */
  lemma Reindex(s: seq<u32>, t: seq<u32>, f: seq<nat>)
    requires Chain(s) && |t| == |f| > 0
    requires forall i | 0 <= i < |f| :: f[i] < |s| && t[i] == s[f[i]]
    requires forall i, j | 0 <= i < j < |f| :: f[i] <= f[j]
    ensures Chain(t)
  {
    forall i, j | 0 <= i < j < |t|
      ensures t[i] == t[j] || (t[i] == t[0] && t[j] == Next(t[0]))
    {
      assert f[0] <= f[i] <= f[j];
    }
  }

  /** The message after positions k and k + 1 is consumed: it may replace position k + 1, which may
      replace position k. */
  lemma Consume(s: seq<u32>, k: nat, u: u32, v: u32)
    requires Chain(s) && k + 2 < |s|
    requires v in {s[k + 1], s[k + 2]} && u in {s[k], v}
    ensures Chain(s[..k] + [u, v] + s[k + 3..])
  {
    var y := if v == s[k + 1] then k + 1 else k + 2;
    var x := if u == s[k] then k else y;
    var f := seq(|s| - 1, i requires 0 <= i => if i < k then i else if i == k then x else if i == k + 1 then y else i + 1);
    Reindex(s, s[..k] + [u, v] + s[k + 3..], f);
  }

  lemma Remove(s: seq<u32>, k: nat)
    requires Chain(s) && k < |s| && |s| > 1
    ensures Chain(s[..k] + s[k + 1..])
  {
    var f := seq(|s| - 1, i requires 0 <= i => if i < k then i else i + 1);
    Reindex(s, s[..k] + s[k + 1..], f);
  }

  lemma Duplicate(s: seq<u32>, k: nat)
    requires Chain(s) && k < |s|
    ensures Chain(s[..k] + [s[k]] + s[k..])
  {
    var f := seq(|s| + 1, i requires 0 <= i => if i <= k then i else i - 1);
    Reindex(s, s[..k] + [s[k]] + s[k..], f);
  }

  /** A new number is issued only when the chain has settled on one value. */
  lemma Issue(s: seq<u32>)
    requires Chain(s) && |s| > 1 && s[|s| - 1] == s[0]
    ensures Chain(s[..|s| - 1] + [Next(s[0])])
  {
    forall i | 0 <= i < |s|
      ensures s[i] == s[0]
    {
      ChainValues(s, i);
    }
  }

  // ---------- The invariant ----------

  function Acks(c: seq<ControlTlv>): (r: seq<u32>)
    ensures |r| == |c| && forall i | 0 <= i < |c| :: r[i] == c[i].ackNo
  {
    seq(|c|, i requires 0 <= i < |c| => c[i].ackNo)
  }

  function Seqs(c: seq<ControlTlv>): (r: seq<u32>)
    ensures |r| == |c| && forall i | 0 <= i < |c| :: r[i] == c[i].seqNo
  {
    seq(|c|, i requires 0 <= i < |c| => c[i].seqNo)
  }

  /** The life of port `a`'s sequence number, from what `a` knows to be acknowledged back to what it
      last issued: through the acknowledgements on their way, what `b` acknowledges and stores, and
      the announcements on their way. */
  function Trail(l: Link): seq<u32> {
    Line(l.a.ctrl.myAckNo, l.a.peerCtrl.ackNo, Acks(l.ba), l.b.ctrl.ackNo, l.b.peerCtrl.seqNo,
         Seqs(l.ab), l.a.ctrl.seqNo)
  }

  function Line(myAck: u32, storedAck: u32, acks: seq<u32>, ack: u32, storedSeq: u32, seqs: seq<u32>,
                issued: u32): seq<u32> {
    [myAck, storedAck] + acks + [ack, storedSeq] + seqs + [issued]
  }

  ghost predicate Inv(l: Link)
    requires l.Valid()
  {
    && Chain(Trail(l)) && Chain(Trail(l.Swap()))
    && !l.a.peerCtrl.rxState.Expired? && !l.b.peerCtrl.rxState.Expired?
  }

  // ---------- How one port's numbers move ----------

  /** A send bumps the sequence number only when it is acknowledged. */
  predicate MayIssue(old': u32, acked: u32, new': u32) {
    new' == old' || (old' == acked && new' == Next(old'))
  }

  lemma LocalNumbers(n: Node, id: FeatureId, s: Settings, drv: Driver)
    requires n.Valid()
    ensures var r := Step(n, LocalPut(id, s, drv));
            && r.peerCtrl == n.peerCtrl && r.ctrl.ackNo == n.ctrl.ackNo && r.ctrl.myAckNo == n.ctrl.myAckNo
            && MayIssue(n.ctrl.seqNo, n.ctrl.myAckNo, r.ctrl.seqNo)
  {
    hide RunFeatures, FeaturesSynched, UpdateFeatureSyncd;
  }

  lemma ReceiveNumbers(n: Node, tlv: ControlTlv, dup: bool, tooMany: bool, peers: map<FeatureId, Peer>,
                       flags: set<FeatureId>, drv: Driver)
    requires n.Valid() && !n.peerCtrl.rxState.Expired?
    ensures var r := Step(n, Receive(tlv, dup, tooMany, peers, flags, drv));
            && !r.peerCtrl.rxState.Expired?
            && ((r.peerCtrl.ackNo == tlv.ackNo && r.peerCtrl.seqNo == tlv.seqNo) ||
                (r.peerCtrl.ackNo == n.peerCtrl.ackNo && r.peerCtrl.seqNo == n.peerCtrl.seqNo))
            && (r.ctrl.myAckNo == n.ctrl.myAckNo || r.ctrl.myAckNo == r.peerCtrl.ackNo)
            && (r.ctrl.ackNo == n.ctrl.ackNo || r.ctrl.ackNo == r.peerCtrl.seqNo)
            && MayIssue(n.ctrl.seqNo, r.ctrl.myAckNo, r.ctrl.seqNo)
  {
    hide RunFeatures, FeaturesSynched, UpdateFeatureSyncd;
  }

  // ---------- What events do to a line of numbers ----------

  /** The last element may be replaced by the next number. */
  lemma MayIssueKeeps(s: seq<u32>, new': u32)
    requires Chain(s) && |s| > 1 && MayIssue(s[|s| - 1], s[0], new')
    ensures Chain(s[..|s| - 1] + [new'])
  {
    if new' == s[|s| - 1] {
      assert s[..|s| - 1] + [new'] == s;
    } else {
      Issue(s);
    }
  }

  lemma LineIssue(m: u32, p: u32, acks: seq<u32>, k: u32, q: u32, seqs: seq<u32>, n: u32, n': u32)
    requires Chain(Line(m, p, acks, k, q, seqs, n)) && MayIssue(n, m, n')
    ensures Chain(Line(m, p, acks, k, q, seqs, n'))
  {
    var s := Line(m, p, acks, k, q, seqs, n);
    MayIssueKeeps(s, n');
    assert Line(m, p, acks, k, q, seqs, n') == s[..|s| - 1] + [n'];
  }

  lemma LineConsumeAck(m: u32, p: u32, acks: seq<u32>, k: u32, q: u32, seqs: seq<u32>, n: u32, m': u32, p': u32)
    requires Chain(Line(m, p, acks, k, q, seqs, n)) && acks != []
    requires (p' == p || p' == acks[0]) && (m' == m || m' == p')
    ensures Chain(Line(m', p', acks[1..], k, q, seqs, n))
  {
    var s := Line(m, p, acks, k, q, seqs, n);
    Consume(s, 0, m', p');
    assert Line(m', p', acks[1..], k, q, seqs, n) == s[..0] + [m', p'] + s[3..];
  }

  lemma LineConsumeSeq(m: u32, p: u32, acks: seq<u32>, k: u32, q: u32, seqs: seq<u32>, n: u32, k': u32, q': u32)
    requires Chain(Line(m, p, acks, k, q, seqs, n)) && seqs != []
    requires (q' == q || q' == seqs[0]) && (k' == k || k' == q')
    ensures Chain(Line(m, p, acks, k', q', seqs[1..], n))
  {
    var s, i := Line(m, p, acks, k, q, seqs, n), 2 + |acks|;
    Consume(s, i, k', q');
    assert Line(m, p, acks, k', q', seqs[1..], n) == s[..i] + [k', q'] + s[i + 3..];
  }

  /** A port's TLV joins the channel: the peer's line gains its acknowledgement, its own line its
      sequence number. */
  lemma LineSend(m: u32, p: u32, acks: seq<u32>, k: u32, q: u32, seqs: seq<u32>, n: u32)
    requires Chain(Line(m, p, acks, k, q, seqs, n))
    ensures Chain(Line(m, p, acks, k, q, seqs + [n], n))
    ensures Chain(Line(m, p, acks + [k], k, q, seqs, n))
  {
    var s, i := Line(m, p, acks, k, q, seqs, n), 2 + |acks|;
    Duplicate(s, |s| - 1);
    assert Line(m, p, acks, k, q, seqs + [n], n) == s[..|s| - 1] + [s[|s| - 1]] + s[|s| - 1..];
    Duplicate(s, i);
    assert Line(m, p, acks + [k], k, q, seqs, n) == s[..i] + [s[i]] + s[i..];
  }

  lemma LineLoseAck(m: u32, p: u32, acks: seq<u32>, k: u32, q: u32, seqs: seq<u32>, n: u32, i: nat)
    requires Chain(Line(m, p, acks, k, q, seqs, n)) && i < |acks|
    ensures Chain(Line(m, p, acks[..i] + acks[i + 1..], k, q, seqs, n))
    ensures Chain(Line(m, p, acks[..i] + [acks[i]] + acks[i..], k, q, seqs, n))
  {
    var s := Line(m, p, acks, k, q, seqs, n);
    Remove(s, 2 + i);
    assert Line(m, p, acks[..i] + acks[i + 1..], k, q, seqs, n) == s[..2 + i] + s[3 + i..];
    Duplicate(s, 2 + i);
    assert Line(m, p, acks[..i] + [acks[i]] + acks[i..], k, q, seqs, n) == s[..2 + i] + [s[2 + i]] + s[2 + i..];
  }

  lemma LineLoseSeq(m: u32, p: u32, acks: seq<u32>, k: u32, q: u32, seqs: seq<u32>, n: u32, i: nat)
    requires Chain(Line(m, p, acks, k, q, seqs, n)) && i < |seqs|
    ensures Chain(Line(m, p, acks, k, q, seqs[..i] + seqs[i + 1..], n))
    ensures Chain(Line(m, p, acks, k, q, seqs[..i] + [seqs[i]] + seqs[i..], n))
  {
    var s, j := Line(m, p, acks, k, q, seqs, n), 4 + |acks| + i;
    Remove(s, j);
    assert Line(m, p, acks, k, q, seqs[..i] + seqs[i + 1..], n) == s[..j] + s[j + 1..];
    Duplicate(s, j);
    assert Line(m, p, acks, k, q, seqs[..i] + [seqs[i]] + seqs[i..], n) == s[..j] + [s[j]] + s[j..];
  }

  // ---------- Every event keeps both trails ----------

  lemma LocalKeeps(l: Link, id: FeatureId, s: Settings, drv: Driver)
    requires l.Valid() && Inv(l)
    ensures Inv(StepA(l, LocalChange(id, s, drv)))
  {
    hide Step, Chain, Line;
    var a, b, a' := l.a, l.b, Step(l.a, LocalPut(id, s, drv));
    LocalNumbers(a, id, s, drv);
    LineIssue(a.ctrl.myAckNo, a.peerCtrl.ackNo, Acks(l.ba), b.ctrl.ackNo, b.peerCtrl.seqNo, Seqs(l.ab),
              a.ctrl.seqNo, a'.ctrl.seqNo);
  }

  lemma SendKeeps(l: Link)
    requires l.Valid() && Inv(l) && l.a.active
    ensures Inv(StepA(l, Send))
  {
    hide Chain, Line;
    var a, b := l.a, l.b;
    assert Seqs(l.ab + [TlvOf(a)]) == Seqs(l.ab) + [a.ctrl.seqNo];
    assert Acks(l.ab + [TlvOf(a)]) == Acks(l.ab) + [a.ctrl.ackNo];
    LineSend(a.ctrl.myAckNo, a.peerCtrl.ackNo, Acks(l.ba), b.ctrl.ackNo, b.peerCtrl.seqNo, Seqs(l.ab), a.ctrl.seqNo);
    LineSend(b.ctrl.myAckNo, b.peerCtrl.ackNo, Acks(l.ab), a.ctrl.ackNo, a.peerCtrl.seqNo, Seqs(l.ba), b.ctrl.seqNo);
  }

  lemma DeliverKeeps(l: Link, e: Event)
    requires l.Valid() && Inv(l) && e.Deliver? && l.ba != []
    ensures Inv(StepA(l, e))
  {
    hide Step, Chain, Line;
    var a, b := l.a, l.b;
    var a' := Step(a, Receive(l.ba[0], e.duplicate, e.tooMany, e.peers, e.flags, e.drv));
    ReceiveNumbers(a, l.ba[0], e.duplicate, e.tooMany, e.peers, e.flags, e.drv);
    assert Acks(l.ba[1..]) == Acks(l.ba)[1..] && Seqs(l.ba[1..]) == Seqs(l.ba)[1..];
    LineConsumeAck(a.ctrl.myAckNo, a.peerCtrl.ackNo, Acks(l.ba), b.ctrl.ackNo, b.peerCtrl.seqNo, Seqs(l.ab),
                   a.ctrl.seqNo, a'.ctrl.myAckNo, a'.peerCtrl.ackNo);
    LineIssue(a'.ctrl.myAckNo, a'.peerCtrl.ackNo, Acks(l.ba)[1..], b.ctrl.ackNo, b.peerCtrl.seqNo, Seqs(l.ab),
              a.ctrl.seqNo, a'.ctrl.seqNo);
    LineConsumeSeq(b.ctrl.myAckNo, b.peerCtrl.ackNo, Acks(l.ab), a.ctrl.ackNo, a.peerCtrl.seqNo, Seqs(l.ba),
                   b.ctrl.seqNo, a'.ctrl.ackNo, a'.peerCtrl.seqNo);
  }

  lemma ChannelKeeps(l: Link, i: nat)
    requires l.Valid() && Inv(l) && i < |l.ba|
    ensures Inv(StepA(l, Lose(i))) && Inv(StepA(l, Repeat(i)))
  {
    hide Chain, Line;
    var a, b, c, d := l.a, l.b, l.ba[..i] + l.ba[i + 1..], l.ba[..i] + [l.ba[i]] + l.ba[i..];
    assert Acks(c) == Acks(l.ba)[..i] + Acks(l.ba)[i + 1..] && Seqs(c) == Seqs(l.ba)[..i] + Seqs(l.ba)[i + 1..];
    assert Acks(d) == Acks(l.ba)[..i] + [Acks(l.ba)[i]] + Acks(l.ba)[i..];
    assert Seqs(d) == Seqs(l.ba)[..i] + [Seqs(l.ba)[i]] + Seqs(l.ba)[i..];
    LineLoseAck(a.ctrl.myAckNo, a.peerCtrl.ackNo, Acks(l.ba), b.ctrl.ackNo, b.peerCtrl.seqNo, Seqs(l.ab), a.ctrl.seqNo, i);
    LineLoseSeq(b.ctrl.myAckNo, b.peerCtrl.ackNo, Acks(l.ab), a.ctrl.ackNo, a.peerCtrl.seqNo, Seqs(l.ba), b.ctrl.seqNo, i);
  }

  lemma StepKeeps(l: Link, e: LinkEvent)
    requires l.Valid() && Inv(l)
    ensures Inv(StepLink(l, e))
  {
    hide Step, Trail;
    var m := if e.atA then l else l.Swap();
    assert m.Swap().Swap() == m;
    match e.event {
      case LocalChange(id, s, drv) => LocalKeeps(m, id, s, drv);
      case Send => if m.a.active { SendKeeps(m); }
      case Deliver(_, _, _, _, _) => if m.ba != [] { DeliverKeeps(m, e.event); }
      case Lose(i) => if i < |m.ba| { ChannelKeeps(m, i); }
      case Repeat(i) => if i < |m.ba| { ChannelKeeps(m, i); }
    }
  }

  lemma {:induction false} RunKeeps(l: Link, es: seq<LinkEvent>)
    requires l.Valid() && Inv(l)
    ensures Inv(RunLink(l, es))
    decreases |es|
  {
    if es != [] {
      RunKeeps(l, es[..|es| - 1]);
      StepKeeps(RunLink(l, es[..|es| - 1]), es[|es| - 1]);
    }
  }

  // ---------- Stop and wait ----------

  /** Both ports start their numbering at zero and nothing is on its way. */
  ghost predicate Start(l: Link) {
    && l.Valid() && l.ab == [] && l.ba == []
    && (forall n | n in {l.a, l.b} ::
          && n.ctrl.seqNo == n.ctrl.ackNo == n.ctrl.myAckNo == n.peerCtrl.seqNo == n.peerCtrl.ackNo == 0
          && !n.peerCtrl.rxState.Expired?)
  }

  /** In every run from zero, without expiry, a port's sequence number is the one acknowledged to it
      or the next, the peer acknowledges one of these two, and until the number wraps
      MyAckNo <= peer's AckNo <= SeqNo <= MyAckNo + 1. */
  lemma StopAndWait(l: Link, es: seq<LinkEvent>)
    requires Start(l)
    ensures var r := RunLink(l, es);
            && OneUnacknowledged(r.a.ctrl, r.b.ctrl)
            && OneUnacknowledged(r.b.ctrl, r.a.ctrl)
  {
    assert l.a in {l.a, l.b} && l.b in {l.a, l.b};
    assert Trail(l) == [0, 0, 0, 0, 0] && Trail(l.Swap()) == [0, 0, 0, 0, 0];
    RunKeeps(l, es);
    TrailEnds(RunLink(l, es));
    TrailEnds(RunLink(l, es).Swap());
  }

  predicate OneUnacknowledged(own: Control, peer: Control) {
    && (own.seqNo == own.myAckNo || own.seqNo == Next(own.myAckNo))
    && (peer.ackNo == own.myAckNo || peer.ackNo == own.seqNo)
    && (own.myAckNo <= own.seqNo ==> own.myAckNo <= peer.ackNo <= own.seqNo <= own.myAckNo + 1)
  }

  lemma TrailEnds(l: Link)
    requires l.Valid() && Chain(Trail(l))
    ensures OneUnacknowledged(l.a.ctrl, l.b.ctrl)
  {
    var s := Trail(l);
    ChainValues(s, |s| - 1);
    ChainValues(s, 2 + |l.ba|);
  }
}
