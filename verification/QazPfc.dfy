/** Priority flow control in IEEE 802.1Qaz DCBX (lldp_8021qaz.c): the symmetric state machine of
    section 38.4 of IEEE 802.1Qaz-2011, its TLV, and the convergence of two neighbours.
 */
module QazPfc {
  import opened Words

  // ---------- Addresses ----------

  const ETH_ALEN := 6

  /** An address read as one big-endian number. */
  function Value(mac: seq<u8>): nat {
    if mac == [] then 0 else Value(mac[..|mac| - 1]) * 256 + mac[|mac| - 1]
  }

  lemma {:induction false} FirstDifference(a: seq<u8>, b: seq<u8>, i: nat)
    requires |a| == |b| && i < |a| && a[..i] == b[..i] && a[i] < b[i]
    ensures Value(a) < Value(b)
    decreases |a|
  {
    var n := |a| - 1;
    if i == n {
      assert a[..n] == b[..n];
    } else {
      assert a[..n][..i] == a[..i] && b[..n][..i] == b[..i];
      FirstDifference(a[..n], b[..n], i);
    }
  }

  /** cmp_mac_addrs: whether the first address is the greater number. */
  method CompareMacs(first: seq<u8>, second: seq<u8>) returns (greater: bool)
    requires |first| == |second| == ETH_ALEN
    ensures greater <==> Value(first) > Value(second)
  {
    for i := 0 to ETH_ALEN
      invariant first[..i] == second[..i]
    {
      if first[i] != second[i] {
        if first[i] < second[i] {
          FirstDifference(first, second, i);
          return false;
        }
        FirstDifference(second, first, i);
        return true;
      }
    }
    assert first == first[..ETH_ALEN] == second[..ETH_ALEN] == second;
    greater := false;
  }

  lemma Parts(high: nat, low: u8)
    ensures (high * 256 + low) / 256 == high && (high * 256 + low) % 256 == low
  {
  }

  /** Distinct addresses are distinct numbers, so two willing neighbours can always be told apart. */
  lemma {:induction false} ValueInjective(a: seq<u8>, b: seq<u8>)
    requires |a| == |b| && Value(a) == Value(b)
    ensures a == b
    decreases |a|
  {
    if a != [] {
      var n := |a| - 1;
      Parts(Value(a[..n]), a[n]);
      Parts(Value(b[..n]), b[n]);
      ValueInjective(a[..n], b[..n]);
      assert a == a[..n] + [a[n]] && b == b[..n] + [b[n]];
    }
  }

  // ---------- The TLV ----------

  /** `pfc_obj` without the delay. */
  datatype Pfc = Pfc(willing: bool, mbc: bool, cap: bv8, enable: bv8)

  /** The two bytes after the subtype. */
  datatype PfcTlv = PfcTlv(wmrc: bv8, enable: bv8)

  /** bld_ieee8021qaz_pfc_tlv, advertising `enable`. */
  function Encode(p: Pfc, enable: bv8): PfcTlv {
    PfcTlv((if p.willing then 0x80 else 0) | (if p.mbc then 0x40 else 0) | p.cap, enable)
  }

  /** process_ieee8021qaz_pfc_tlv. */
  function Decode(t: PfcTlv): Pfc {
    Pfc(t.wmrc & 0x80 != 0, t.wmrc & 0x40 != 0, t.wmrc & 0x0F, t.enable)
  }

  /** What is sent is what is received exactly when the capability fits its four bits. */
  lemma PfcRoundTrip(p: Pfc)
    ensures Decode(Encode(p, p.enable)) == p <==> p.cap < 16
  {
    var w: bv8 := (if p.willing then 0x80 else 0) | (if p.mbc then 0x40 else 0);
    assert (w | p.cap) & 0x0F == p.cap & 0x0F;
    if p.cap < 16 {
      assert p.cap & 0x80 == 0 && p.cap & 0x40 == 0 && p.cap & 0x0F == p.cap;
    }
  }

  /** The byte after the subtype: willing in the highest bit, MBC in the next, the capability in the lowest four. */
  lemma PfcFormat(p: Pfc, enable: bv8)
    requires p.cap < 16
    ensures var t := Encode(p, enable);
            && t.enable == enable && (t.wmrc & 0x80 == 0x80 <==> p.willing) && (t.wmrc & 0x40 == 0x40 <==> p.mbc)
            && t.wmrc & 0x3F == p.cap
    ensures Decode(Encode(p, enable)) == p.(enable := enable)
  {
    assert p.cap & 0x80 == 0 && p.cap & 0x40 == 0 && p.cap & 0x3F == p.cap && p.cap & 0x0F == p.cap;
    PfcRoundTrip(p.(enable := enable));
  }

  // ---------- One port ----------

  /** What a port knows: `follows` is the state RX_RECOMMEND, `oper` what the hardware was last given. */
  datatype Port = Port(mac: seq<u8>, local: Pfc, remote: Pfc, remoteParam: bool, remoteMac: seq<u8>,
                       follows: bool, oper: bv8)

  const NO_PFC := Pfc(false, false, 0, 0)

  function Initial(mac: seq<u8>, local: Pfc): Port {
    Port(mac, local, NO_PFC, false, [0, 0, 0, 0, 0, 0], false, local.enable)
  }

  /** pfc_sm. */
  function NextState(n: Port): bool {
    var greater := Value(n.mac) > Value(n.remoteMac);
    if (n.local.willing && !n.remote.willing && n.remoteParam) || (n.local.willing && n.remote.willing && !greater) then true
    else if !n.local.willing || !n.remoteParam || (n.local.willing && n.remote.willing && greater) then false
    else n.follows
  }

  function Advertised(n: Port): bv8 {
    if n.follows then n.remote.enable else n.local.enable
  }

  /** The PFC part of run_all_sm. */
  function RunMachine(n: Port): Port {
    var f := NextState(n);
    n.(follows := f, oper := if f then n.remote.enable else n.local.enable)
  }

  /** A received frame: with a PFC TLV, or without one but perhaps with another 802.1Qaz TLV. */
  datatype Frame = WithPfc(tlv: PfcTlv) | WithoutPfc(qaz: bool)

  function Receive(n: Port, source: seq<u8>, f: Frame): Port {
    match f
    case WithPfc(t) => RunMachine(n.(remoteMac := source, remote := Decode(t), remoteParam := true))
    case WithoutPfc(qaz) => RunMachine(n.(remoteMac := if qaz then source else n.remoteMac, remoteParam := false))
  }

  /** The neighbour's information times out: the machine is not run until the next transmission. */
  function Expire(n: Port): Port {
    n.(remote := NO_PFC, remoteParam := false)
  }

  // ---------- Two neighbours ----------

  /** Two ports and everything each has ever sent. */
  datatype Net = Net(lead: Port, follow: Port, fromLead: seq<PfcTlv>, fromFollow: seq<PfcTlv>)

  /** What can happen to one of the two ports. Frames may be lost, repeated and reordered. */
  datatype Event =
    | Send
    | Hear(k: nat)
    | HearNoPfc(qaz: bool)
    | Lapse

  datatype Step = AtLead(e: Event) | AtFollow(e: Event)

  /** The port after an event, given what its neighbour has sent. */
  function After(n: Port, peer: Port, sent: seq<PfcTlv>, e: Event): Port {
    match e
    case Send => RunMachine(n)
    case Hear(k) => if k < |sent| then Receive(n, peer.mac, WithPfc(sent[k])) else n
    case HearNoPfc(qaz) => Receive(n, peer.mac, WithoutPfc(qaz))
    case Lapse => Expire(n)
  }

  /** What the port's transmissions are after an event. */
  function Sent(n: Port, sent: seq<PfcTlv>, e: Event): seq<PfcTlv> {
    if e.Send? then sent + [Encode(n.local, Advertised(RunMachine(n)))] else sent
  }

  function Apply(s: Net, step: Step): Net {
    match step
    case AtLead(e) => s.(lead := After(s.lead, s.follow, s.fromFollow, e), fromLead := Sent(s.lead, s.fromLead, e))
    case AtFollow(e) => s.(follow := After(s.follow, s.lead, s.fromLead, e), fromFollow := Sent(s.follow, s.fromFollow, e))
  }

  function Run(s: Net, steps: seq<Step>): Net
    decreases |steps|
  {
    if steps == [] then s else Apply(Run(s, steps[..|steps| - 1]), steps[|steps| - 1])
  }

  /** The unwilling port leads a willing one; of two willing ports the one with the greater address. */
  predicate Leads(leadMac: seq<u8>, lead: Pfc, followMac: seq<u8>, follow: Pfc) {
    follow.willing && (!lead.willing || Value(leadMac) > Value(followMac))
  }

  /** With distinct addresses and at least one of them willing, exactly one port leads. */
  lemma OneLeader(aMac: seq<u8>, a: Pfc, bMac: seq<u8>, b: Pfc)
    requires |aMac| == |bMac| == ETH_ALEN && aMac != bMac && (a.willing || b.willing)
    ensures Leads(aMac, a, bMac, b) <==> !Leads(bMac, b, aMac, a)
  {
    if Value(aMac) == Value(bMac) {
      ValueInjective(aMac, bMac);
    }
  }

  predicate Fits(p: Pfc) {
    p.cap < 16
  }

  function Start(leadMac: seq<u8>, lead: Pfc, followMac: seq<u8>, follow: Pfc): Net {
    Net(Initial(leadMac, lead), Initial(followMac, follow), [], [])
  }

  // ---------- What every run keeps ----------

  ghost predicate LeaderOk(l: Port, f: Port) {
    && !l.follows && l.oper == l.local.enable
    && (l.remoteParam ==> l.remote.willing)
    && (l.remote.willing ==> l.remoteMac == f.mac)
  }

  ghost predicate FollowerOk(f: Port, l: Port) {
    && (f.remoteParam ==> f.remote == l.local && f.remoteMac == l.mac && f.follows && f.oper == l.local.enable)
    && (f.remote.willing ==> l.local.willing && f.remoteMac == l.mac && f.remote.enable == l.local.enable)
  }

  ghost predicate Sound(s: Net) {
    && Fits(s.lead.local) && Fits(s.follow.local)
    && Leads(s.lead.mac, s.lead.local, s.follow.mac, s.follow.local)
    && LeaderOk(s.lead, s.follow) && FollowerOk(s.follow, s.lead)
    && (forall k :: 0 <= k < |s.fromLead| ==> s.fromLead[k] == Encode(s.lead.local, s.lead.local.enable))
    && (forall k :: 0 <= k < |s.fromFollow| ==> Decode(s.fromFollow[k]).willing)
  }

  /** The willing bit survives whatever enable vector is advertised. */
  lemma WillingSurvives(p: Pfc, enable: bv8)
    requires Fits(p)
    ensures Decode(Encode(p, enable)) == p.(enable := enable)
  {
    PfcRoundTrip(p.(enable := enable));
  }

  lemma LeaderStep(s: Net, e: Event)
    requires Sound(s)
    ensures Sound(Apply(s, AtLead(e)))
  {
    hide Encode, Decode, Value;
  }

  lemma FollowerStep(s: Net, e: Event)
    requires Sound(s)
    ensures Sound(Apply(s, AtFollow(e)))
  {
    WillingSurvives(s.lead.local, s.lead.local.enable);
    WillingSurvives(s.follow.local, Advertised(RunMachine(s.follow)));
    hide Encode, Decode, Value;
  }

  lemma {:induction false} RunKeeps(leadMac: seq<u8>, lead: Pfc, followMac: seq<u8>, follow: Pfc, steps: seq<Step>)
    requires Fits(lead) && Fits(follow) && Leads(leadMac, lead, followMac, follow)
    ensures var s := Run(Start(leadMac, lead, followMac, follow), steps);
            && Sound(s) && s.lead.mac == leadMac && s.lead.local == lead && s.follow.mac == followMac && s.follow.local == follow
    decreases |steps|
  {
    hide Encode, Decode;
    if steps != [] {
      RunKeeps(leadMac, lead, followMac, follow, steps[..|steps| - 1]);
      var s := Run(Start(leadMac, lead, followMac, follow), steps[..|steps| - 1]);
      match steps[|steps| - 1]
      case AtLead(e) => LeaderStep(s, e);
      case AtFollow(e) => FollowerStep(s, e);
    }
  }

  /** A port that is not willing runs its own setting, whatever it has heard. */
  lemma UnwillingKeepsOwn(n: Port)
    requires !n.local.willing
    ensures !RunMachine(n).follows && RunMachine(n).oper == n.local.enable && Advertised(RunMachine(n)) == n.local.enable
  {
  }

  /** Two ports neither of which is willing. */
  ghost predicate BothOwn(s: Net, a: Pfc, b: Pfc) {
    && s.lead.local == a && s.follow.local == b
    && !s.lead.follows && s.lead.oper == a.enable && !s.follow.follows && s.follow.oper == b.enable
  }

  /** In every run of two ports neither of which is willing, each stays on its own setting. */
  lemma {:induction false} NeitherFollows(aMac: seq<u8>, a: Pfc, bMac: seq<u8>, b: Pfc, steps: seq<Step>)
    requires !a.willing && !b.willing
    ensures BothOwn(Run(Start(aMac, a, bMac, b), steps), a, b)
    decreases |steps|
  {
    hide Encode, Decode, Value;
    if steps != [] {
      NeitherFollows(aMac, a, bMac, b, steps[..|steps| - 1]);
    }
  }

  // ---------- Convergence ----------

  /** In every run, whatever is lost, repeated or times out, the leader keeps to its own setting. */
  lemma LeaderNeverFollows(leadMac: seq<u8>, lead: Pfc, followMac: seq<u8>, follow: Pfc, steps: seq<Step>)
    requires Fits(lead) && Fits(follow) && Leads(leadMac, lead, followMac, follow)
    ensures var l := Run(Start(leadMac, lead, followMac, follow), steps).lead;
            !l.follows && l.oper == lead.enable
  {
    RunKeeps(leadMac, lead, followMac, follow, steps);
  }

  /** A step that does not take the neighbour's setting away from the follower. */
  predicate Undisturbed(step: Step) {
    step.AtLead? || step.e.Send? || step.e.Hear?
  }

  lemma {:induction false} Remembers(s: Net, steps: seq<Step>)
    requires s.follow.remoteParam && forall i :: 0 <= i < |steps| ==> Undisturbed(steps[i])
    ensures Run(s, steps).follow.remoteParam
    decreases |steps|
  {
    if steps != [] {
      Remembers(s, steps[..|steps| - 1]);
    }
  }

  lemma {:induction false} RunAppend(s: Net, a: seq<Step>, b: seq<Step>)
    ensures Run(s, a + b) == Run(Run(s, a), b)
    decreases |b|
  {
    if b == [] {
      assert a + b == a;
    } else {
      var n := |b| - 1;
      assert (a + b)[..|a + b| - 1] == a + b[..n];
      RunAppend(s, a, b[..n]);
    }
  }

  /** Once the follower has heard any TLV of the leader's, both operate on the leader's setting for
      as long as nothing takes it away again, although the follower re-advertises that setting. */
  lemma Converges(leadMac: seq<u8>, lead: Pfc, followMac: seq<u8>, follow: Pfc,
                  before: seq<Step>, k: nat, later: seq<Step>)
    requires Fits(lead) && Fits(follow) && Leads(leadMac, lead, followMac, follow)
    requires k < |Run(Start(leadMac, lead, followMac, follow), before).fromLead|
    requires forall i :: 0 <= i < |later| ==> Undisturbed(later[i])
    ensures var s := Run(Start(leadMac, lead, followMac, follow), before + [AtFollow(Hear(k))] + later);
            && s.lead.oper == s.follow.oper == lead.enable
            && s.follow.follows && Advertised(s.follow) == lead.enable
  {
    var start := Start(leadMac, lead, followMac, follow);
    var heard := before + [AtFollow(Hear(k))];
    assert heard[..|heard| - 1] == before;
    RunAppend(start, heard, later);
    Remembers(Run(start, heard), later);
    RunKeeps(leadMac, lead, followMac, follow, heard + later);
    hide Encode, Decode, Run;
  }

  /** The step delivers one of the leader's TLVs to the follower. */
  predicate HearsLead(s: Net, step: Step) {
    step.AtFollow? && step.e.Hear? && step.e.k < |s.fromLead|
  }

  /** The last thing the follower learnt in the run was a TLV of the leader's: no frame without PFC and
      no time-out came after it. */
  predicate Holds(start: Net, steps: seq<Step>)
    decreases |steps|
  {
    steps != [] &&
    var init, last := steps[..|steps| - 1], steps[|steps| - 1];
    HearsLead(Run(start, init), last) || (Undisturbed(last) && Holds(start, init))
  }

  /** The follower has heard the leader since the last time-out. */
  predicate HeardSinceTimeOut(start: Net, steps: seq<Step>)
    decreases |steps|
  {
    steps != [] &&
    var init, last := steps[..|steps| - 1], steps[|steps| - 1];
    HearsLead(Run(start, init), last) || (last != AtFollow(Lapse) && HeardSinceTimeOut(start, init))
  }

  /** What the follower has stored is that history. */
  lemma {:induction false} StoredIsHistory(leadMac: seq<u8>, lead: Pfc, followMac: seq<u8>, follow: Pfc, steps: seq<Step>)
    requires Fits(lead) && Fits(follow) && Leads(leadMac, lead, followMac, follow)
    ensures var start := Start(leadMac, lead, followMac, follow);
            var f := Run(start, steps).follow;
            && (f.remoteParam <==> Holds(start, steps))
            && (f.remote.willing <==> lead.willing && HeardSinceTimeOut(start, steps))
    decreases |steps|
  {
    if steps != [] {
      var start, init, last := Start(leadMac, lead, followMac, follow), steps[..|steps| - 1], steps[|steps| - 1];
      StoredIsHistory(leadMac, lead, followMac, follow, init);
      RunKeeps(leadMac, lead, followMac, follow, init);
      WillingSurvives(lead, lead.enable);
      StoredStep(Run(start, init), last);
    }
  }

  lemma StoredStep(s: Net, step: Step)
    requires Sound(s) && Decode(Encode(s.lead.local, s.lead.local.enable)) == s.lead.local
    ensures var f, g := s.follow, Apply(s, step).follow;
            && (g.remoteParam <==> HearsLead(s, step) || (Undisturbed(step) && f.remoteParam))
            && (g.remote.willing <==> if HearsLead(s, step) then s.lead.local.willing else step != AtFollow(Lapse) && f.remote.willing)
  {
    hide Encode, Decode, NextState;
  }

  /** After any run, running the follower's machine makes it follow exactly if the last thing it learnt
      was the leader's TLV, or the leader is willing and was heard since the last time-out: in that
      case pfc_sm does not test remote_param, so a frame without a PFC TLV does not bring the local
      setting back. */
  lemma FollowsExactly(leadMac: seq<u8>, lead: Pfc, followMac: seq<u8>, follow: Pfc, steps: seq<Step>)
    requires Fits(lead) && Fits(follow) && Leads(leadMac, lead, followMac, follow)
    ensures var start := Start(leadMac, lead, followMac, follow);
            var f := Run(start, steps).follow;
            var follows := Holds(start, steps) || (lead.willing && HeardSinceTimeOut(start, steps));
            && (NextState(f) <==> follows)
            && RunMachine(f).oper == if follows then lead.enable else follow.enable
  {
    StoredIsHistory(leadMac, lead, followMac, follow, steps);
    RunKeeps(leadMac, lead, followMac, follow, steps);
    hide Holds, HeardSinceTimeOut, Run;
  }

  /** The machine comes to rest in one run. */
  lemma MachineSettles(n: Port)
    ensures NextState(RunMachine(n)) == RunMachine(n).follows
    ensures RunMachine(RunMachine(n)) == RunMachine(n)
  {
    hide Value;
  }

  /** The step ends with a run of the follower's machine: it transmits, or takes in a frame with or without PFC. */
  predicate Acts(s: Net, step: Step) {
    step.AtFollow? && (step.e.Send? || step.e.HearNoPfc? || HearsLead(s, step))
  }

  /** A transmission or a received frame brings the follower where it belongs at once: a frame without PFC takes an
      unwilling leader's setting away, and does so for the hardware too. */
  lemma SettledOnceItActs(leadMac: seq<u8>, lead: Pfc, followMac: seq<u8>, follow: Pfc, steps: seq<Step>)
    requires Fits(lead) && Fits(follow) && Leads(leadMac, lead, followMac, follow) && steps != []
    requires Acts(Run(Start(leadMac, lead, followMac, follow), steps[..|steps| - 1]), steps[|steps| - 1])
    ensures var start := Start(leadMac, lead, followMac, follow);
            var f := Run(start, steps).follow;
            var follows := Holds(start, steps) || (lead.willing && HeardSinceTimeOut(start, steps));
            f.follows == follows && f.oper == if follows then lead.enable else follow.enable
  {
    var start, init, step := Start(leadMac, lead, followMac, follow), steps[..|steps| - 1], steps[|steps| - 1];
    var s := Run(start, init);
    FollowsExactly(leadMac, lead, followMac, follow, steps);
    RanMachine(s, step);
    hide Holds, HeardSinceTimeOut, Run, RunMachine, NextState;
  }

  lemma RanMachine(s: Net, step: Step)
    requires Acts(s, step)
    ensures var f := Apply(s, step).follow; NextState(f) == f.follows && RunMachine(f) == f
  {
    hide Decode, Encode, RunMachine, NextState;
    match step.e
    case Send => MachineSettles(s.follow);
    case Hear(k) => MachineSettles(s.follow.(remoteMac := s.lead.mac, remote := Decode(s.fromLead[k]), remoteParam := true));
    case HearNoPfc(qaz) => MachineSettles(s.follow.(remoteMac := if qaz then s.lead.mac else s.follow.remoteMac, remoteParam := false));
  }

  /** The address compared is the source of the last frame that carried an 802.1Qaz TLV. */
  lemma AddressCompared(n: Port, source: seq<u8>, t: PfcTlv)
    ensures Receive(n, source, WithPfc(t)).remoteMac == source == Receive(n, source, WithoutPfc(true)).remoteMac
    ensures Receive(n, source, WithoutPfc(false)).remoteMac == n.remoteMac
  {
  }

  const HIGH_MAC: seq<u8> := [0, 0, 0, 0, 0, 2]
  const LOW_MAC: seq<u8> := [0, 0, 0, 0, 0, 1]
  const HIGH := Pfc(true, false, 8, 0x08)
  const LOW := Pfc(true, false, 8, 0x10)

  /** Two willing ports: the follower hears the leader once, then a frame without PFC. It still operates
      on the leader's vector, although it no longer holds a TLV. */
  lemma FollowsWithoutTlv()
    ensures Leads(HIGH_MAC, HIGH, LOW_MAC, LOW)
    ensures var f := Run(Start(HIGH_MAC, HIGH, LOW_MAC, LOW), [AtLead(Send), AtFollow(Hear(0)), AtFollow(HearNoPfc(true))]).follow;
            !f.remoteParam && f.follows && f.oper == HIGH.enable
  {
    MacOrder();
    var start := Start(HIGH_MAC, HIGH, LOW_MAC, LOW);
    var one, two := [AtLead(Send)], [AtLead(Send), AtFollow(Hear(0))];
    RunSnoc(start, [], AtLead(Send));
    RunSnoc(start, one, AtFollow(Hear(0)));
    RunSnoc(start, two, AtFollow(HearNoPfc(true)));
    assert [] + [AtLead(Send)] == one && one + [AtFollow(Hear(0))] == two;
    assert two + [AtFollow(HearNoPfc(true))] == [AtLead(Send), AtFollow(Hear(0)), AtFollow(HearNoPfc(true))];
    RunKeeps(HIGH_MAC, HIGH, LOW_MAC, LOW, two);
    hide Run, Encode, Decode, Value;
    assert |Run(start, one).fromLead| == 1;
    assert Run(start, two).follow.remoteParam;
  }

  lemma RunSnoc(s: Net, steps: seq<Step>, last: Step)
    ensures Run(s, steps + [last]) == Apply(Run(s, steps), last)
    ensures Run(s, []) == s
  {
    assert (steps + [last])[..|steps|] == steps;
  }

  lemma MacOrder()
    ensures Value(HIGH_MAC) == 2 && Value(LOW_MAC) == 1
  {
    Zeroes(HIGH_MAC[..5]);
    Zeroes(LOW_MAC[..5]);
  }

  lemma {:induction false} Zeroes(mac: seq<u8>)
    requires forall i :: 0 <= i < |mac| ==> mac[i] == 0
    ensures Value(mac) == 0
    decreases |mac|
  {
    if mac != [] {
      Zeroes(mac[..|mac| - 1]);
    }
  }

  // ---------- The code ----------

  /** `pfc_attrib` and the addresses the machine compares. */
  class PfcPort {
    const mac: seq<u8>
    var local: Pfc
    var remote: Pfc
    var remoteParam: bool
    var remoteMac: seq<u8>
    var follows: bool
    var oper: bv8

    ghost predicate Valid()
      reads this
    {
      |mac| == |remoteMac| == ETH_ALEN
    }

    ghost function View(): Port
      reads this
    {
      Port(mac, local, remote, remoteParam, remoteMac, follows, oper)
    }

    constructor (mac: seq<u8>, local: Pfc)
      requires |mac| == ETH_ALEN
      ensures Valid() && View() == Initial(mac, local)
    {
      this.mac, this.local, remote, remoteParam := mac, local, NO_PFC, false;
      remoteMac, follows, oper := [0, 0, 0, 0, 0, 0], false, local.enable;
    }

    /** pfc_sm and the PFC part of run_all_sm. */
    method StateMachine()
      requires Valid()
      modifies this`follows, this`oper
      ensures View() == RunMachine(old(View()))
    {
      var greater := CompareMacs(mac, remoteMac);
      if (local.willing && !remote.willing && remoteParam) || (local.willing && remote.willing && !greater) {
        follows := true;
      } else if !local.willing || !remoteParam || (local.willing && remote.willing && greater) {
        follows := false;
      }
      oper := if follows then remote.enable else local.enable;
    }

    /** The end of a frame from `source`: process_ieee8021qaz_pfc_tlv or its absence, then the machine. */
    method EndOfFrame(source: seq<u8>, f: Frame)
      requires Valid() && |source| == ETH_ALEN
      modifies this`remote, this`remoteParam, this`remoteMac, this`follows, this`oper
      ensures Valid() && View() == Receive(old(View()), source, f)
    {
      if f.WithPfc? {
        remoteMac := source;
        remote := Pfc(f.tlv.wmrc & 0x80 != 0, f.tlv.wmrc & 0x40 != 0, f.tlv.wmrc & 0x0F, f.tlv.enable);
        remoteParam := true;
      } else {
        if f.qaz {
          remoteMac := source;
        }
        remoteParam := false;
      }
      StateMachine();
    }

    /** ieee8021qaz_gettlv for PFC: run the machine, then build. */
    method Transmit() returns (t: PfcTlv)
      requires Valid()
      modifies this`follows, this`oper
      ensures View() == RunMachine(old(View())) && t == Encode(local, Advertised(View()))
    {
      StateMachine();
      if !follows {
        t := Encode(local, local.enable);
      } else {
        t := Encode(local, remote.enable);
      }
    }

    /** ieee8021qaz_mibDeleteObject for PFC. */
    method MibDelete()
      requires Valid()
      modifies this`remote, this`remoteParam
      ensures Valid() && View() == Expire(old(View()))
    {
      remoteParam := false;
      remote := NO_PFC;
    }
  }
}
