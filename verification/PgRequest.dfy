/** set_pg_config (lldp_dcbx_cmds.c) as a function of the stored attributes and the client's request:
    decode, renumber link strict priorities, check, rebalance once and check again.
 */
module PgRequest {
  import opened Words
  import opened PgTypes
  import opened PriorityGroups
  import opened PgFixUp
  import opened RuleCheck
  import opened PgRules

  /** One field of the client's message: a raw character, or a decoded hexadecimal pair. */
  datatype Field = NotSupplied | Malformed | Value(v: u8)

  datatype Request = Request(upToTc: seq<Field>, pgPercent: seq<Field>, pgid: seq<Field>,
                             upPercent: seq<Field>, groupStrict: seq<Field>)
  {
    predicate Valid() {
      && |upToTc| == |pgid| == |upPercent| == |groupStrict| == PRIORITIES
      && |pgPercent| == GROUPS
      && (forall i :: 0 <= i < PRIORITIES ==> !upToTc[i].Malformed? && !pgid[i].Malformed? && !groupStrict[i].Malformed?)
      && (forall i :: 0 <= i < PRIORITIES && pgid[i].Value? ==> Pgid(pgid[i].v) < GROUPS || Pgid(pgid[i].v) == LINK_STRICT_PGID)
    }
  }

  /** The digit f in either case is the link strict group; otherwise the low four bits count. */
  function Pgid(c: u8): u8 {
    if c == 102 || c == 70 then LINK_STRICT_PGID else c % 16
  }

  // ---------- Strictness bits ----------

  predicate LinkBit(s: Strict) {
    s.LinkStrict? || s.InvalidStrict?
  }

  predicate GroupBit(s: Strict) {
    s.GroupStrict? || s.InvalidStrict?
  }

  function Bits(group: bool, link: bool): Strict {
    if link then (if group then InvalidStrict else LinkStrict) else if group then GroupStrict else NoStrict
  }

  function WithGroupBit(s: Strict, f: Field): Strict {
    if f.Value? then Bits(f.v % 2 == 1, LinkBit(s)) else s
  }

  function WithoutLinkBit(s: Strict): Strict {
    Bits(GroupBit(s), false)
  }

  // ---------- Decoding ----------

  predicate Accepts(pg: PgData, q: Request)
    requires pg.Valid() && q.Valid()
  {
    && (forall i :: 0 <= i < PRIORITIES && q.upToTc[i].Value? ==> q.upToTc[i].v % 8 < pg.numTcs)
    && (forall i :: 0 <= i < PRIORITIES ==> !q.pgPercent[i].Malformed? && !q.upPercent[i].Malformed?)
  }

  function Or(f: Field, otherwise: u8): u8 {
    if f.Value? then f.v else otherwise
  }

  /** The group of one priority once both fields that name it have been read. */
  function ReadPgid(q: Request, p: Priority, i: nat): u8
    requires q.Valid() && i < PRIORITIES
  {
    if q.pgid[i].Value? then Pgid(q.pgid[i].v)
    else if q.upToTc[i].Value? then q.upToTc[i].v % 8
    else p.pgid
  }

  /** The group a priority claims, which is 15 for one that stays link strict. */
  function Claim(q: Request, p: Priority, i: nat): u8
    requires q.Valid() && i < PRIORITIES
  {
    if !q.pgid[i].Value? && p.strict.LinkStrict? then LINK_STRICT_PGID else ReadPgid(q, p, i)
  }

  predicate Claimed(q: Request, up: seq<Priority>, g: nat)
    requires q.Valid() && |up| == PRIORITIES
  {
    exists i :: 0 <= i < PRIORITIES && Claim(q, up[i], i) == g
  }

  /** The lowest group in `g`..7 that nothing claims, 8 if there is none. */
  function FreeFrom(q: Request, up: seq<Priority>, g: nat): (r: nat)
    requires q.Valid() && |up| == PRIORITIES && g <= GROUPS
    ensures g <= r <= GROUPS && (r < GROUPS ==> !Claimed(q, up, r))
    ensures forall h :: g <= h < r ==> Claimed(q, up, h)
    decreases GROUPS - g
  {
    if g == GROUPS || !Claimed(q, up, g) then g else FreeFrom(q, up, g + 1)
  }

  function Free(q: Request, up: seq<Priority>): nat
    requires q.Valid() && |up| == PRIORITIES
  {
    FreeFrom(q, up, 0)
  }

  /** Whether priority `i` ends up link strict. */
  predicate MadeStrict(q: Request, up: seq<Priority>, i: nat)
    requires q.Valid() && |up| == PRIORITIES && i < PRIORITIES
  {
    var g := ReadPgid(q, up[i], i);
    g == LINK_STRICT_PGID || (!Claimed(q, up, g) && LinkBit(WithGroupBit(up[i].strict, q.groupStrict[i])))
  }

  /** What becomes of priority `i` in the direction `side`; the transmit side `up` decides. */
  function DecodedPriority(q: Request, up: seq<Priority>, side: seq<Priority>, i: nat): Priority
    requires q.Valid() && |up| == |side| == PRIORITIES && i < PRIORITIES
  {
    var s := WithGroupBit(side[i].strict, q.groupStrict[i]);
    var pct := Or(q.upPercent[i], side[i].percent);
    if MadeStrict(q, up, i) then Priority(Free(q, up), side[i].bwgid, pct, LinkStrict)
    else Priority(ReadPgid(q, side[i], i), side[i].bwgid, pct, WithoutLinkBit(s))
  }

  function DecodedUp(q: Request, up: seq<Priority>, side: seq<Priority>): (r: seq<Priority>)
    requires q.Valid() && |up| == |side| == PRIORITIES
    ensures |r| == PRIORITIES
  {
    seq(PRIORITIES, i requires 0 <= i < PRIORITIES => DecodedPriority(q, up, side, i))
  }

  function DecodedPercent(q: Request, pct: seq<u8>): (r: seq<u8>)
    requires q.Valid() && |pct| == GROUPS
    ensures |r| == GROUPS
  {
    seq(GROUPS, g requires 0 <= g < GROUPS => Or(q.pgPercent[g], pct[g]))
  }

  function Decode(q: Request, pg: PgData): (r: PgData)
    requires q.Valid() && pg.Valid()
    ensures r.Valid() && r.numTcs == pg.numTcs
  {
    PgData(Traffic(DecodedPercent(q, pg.tx.pgPercent), DecodedUp(q, pg.tx.up, pg.tx.up)),
             Traffic(DecodedPercent(q, pg.rx.pgPercent), DecodedUp(q, pg.tx.up, pg.rx.up)), pg.numTcs)
  }

  predicate PercentsSupplied(q: Request)
    requires q.Valid()
  {
    exists i :: 0 <= i < PRIORITIES && !q.upPercent[i].NotSupplied?
  }

  // ---------- Renumbering ----------

  /** What the first `n` priorities claim. */
  function Claims(q: Request, up: seq<Priority>, n: nat): (r: set<int>)
    requires q.Valid() && |up| == PRIORITIES && n <= PRIORITIES
    ensures |r| <= n
    ensures forall i :: 0 <= i < n ==> Claim(q, up[i], i) in r
  {
    if n == 0 then {} else Claims(q, up, n - 1) + {Claim(q, up[n - 1], n - 1)}
  }

  /** Stored group numbers are those the decoder can leave behind, or the raw link strict number. */
  predicate Stored(up: seq<Priority>) {
    forall i :: 0 <= i < |up| ==> up[i].pgid < GROUPS || up[i].pgid == LINK_STRICT_PGID
  }

  lemma StrictClaimsFifteen(q: Request, up: seq<Priority>, i: nat)
    requires q.Valid() && |up| == PRIORITIES && i < PRIORITIES && Stored(up)
    ensures MadeStrict(q, up, i) ==> Claim(q, up[i], i) == LINK_STRICT_PGID
    ensures !MadeStrict(q, up, i) ==> ReadPgid(q, up[i], i) < GROUPS && Claimed(q, up, ReadPgid(q, up[i], i))
  {
  }

  function Below(n: nat): (r: set<int>)
    ensures |r| == n && forall x :: x in r <==> 0 <= x < n
  {
    if n == 0 then {} else Below(n - 1) + {n - 1}
  }

  lemma SubsetSize(a: set<int>, b: set<int>)
    requires a <= b
    ensures |a| <= |b|
  {
    assert b == a + (b - a);
  }

  /** Eight priorities of which one claims no group leave one of the eight groups free. */
  lemma SomeGroupIsFree(q: Request, up: seq<Priority>, i: nat)
    requires q.Valid() && |up| == PRIORITIES && i < PRIORITIES && Claim(q, up[i], i) == LINK_STRICT_PGID
    ensures Free(q, up) < GROUPS
  {
    var r, below := Claims(q, up, PRIORITIES), Below(Free(q, up));
    forall g | g in below ensures g in r {
      assert Claimed(q, up, g);
    }
    hide Claim, Claimed, Claims, Free, FreeFrom, Below;
    assert LINK_STRICT_PGID in r && LINK_STRICT_PGID !in below;
    SubsetSize(below + {LINK_STRICT_PGID}, r);
  }

  /** After decoding both directions agree on which priorities are link strict, these are exactly
      the ones in the group that was free, and every transmit group exists. */
  lemma DecodedGroups(q: Request, pg: PgData, i: nat)
    requires q.Valid() && pg.Valid() && Stored(pg.tx.up) && i < PRIORITIES
    ensures var tx, rx := Decode(q, pg).tx.up, Decode(q, pg).rx.up;
            && tx[i].pgid < GROUPS
            && (tx[i].strict.LinkStrict? <==> rx[i].strict.LinkStrict?)
            && (tx[i].strict.LinkStrict? <==> tx[i].pgid == Free(q, pg.tx.up))
            && (rx[i].strict.LinkStrict? ==> rx[i].pgid == tx[i].pgid)
  {
    StrictClaimsFifteen(q, pg.tx.up, i);
    if MadeStrict(q, pg.tx.up, i) {
      SomeGroupIsFree(q, pg.tx.up, i);
    }
  }

  lemma DecodedIsMapped(q: Request, pg: PgData)
    requires q.Valid() && pg.Valid() && Stored(pg.tx.up)
    ensures Mapped(Decode(q, pg).tx.up)
  {
    forall i | 0 <= i < PRIORITIES ensures Decode(q, pg).tx.up[i].pgid < GROUPS {
      DecodedGroups(q, pg, i);
    }
  }

  // ---------- The request as a whole ----------

  /** Check attributes that have been decoded and, if the rules reject them and the client left the
      percentages to the daemon, rebalance and check again. */
  function Settle(pg: PgData, rebalance: bool): Status
    requires pg.Valid() && Mapped(pg.tx.up)
  {
    var fixed := FixUp(pg, None);
    var status := Judge(fixed);
    if status.BadParams? && rebalance then
      StillMapped(pg);
      Judge(FixUp(Rebalance(fixed.value), None))
    else status
  }

  lemma StillMapped(pg: PgData)
    requires pg.Valid() && Mapped(pg.tx.up) && FixUp(pg, None).Some?
    ensures Mapped(Rebalance(FixUp(pg, None).value).tx.up)
    ensures Fits(Rebalance(FixUp(pg, None).value).tx.up, pg.numTcs)
  {
    SecondRunSettles(pg, None, None);
    forall i | 0 <= i < PRIORITIES ensures FixUp(pg, None).value.tx.up[i].pgid < pg.numTcs {
      CollapseKeepsGroups(pg, None, i, i);
    }
  }

  /** The attributes handed on once decoded attributes have passed. */
  function Outcome(pg: PgData): PgData
    requires pg.Valid() && Mapped(pg.tx.up) && FixUp(pg, None).Some?
  {
    var fixed := FixUp(pg, None);
    if Judge(fixed).Success? then fixed.value
    else
      StillMapped(pg);
      FixUp(Rebalance(fixed.value), None).value
  }

  function SetPg(q: Request, pg: PgData): Status
    requires q.Valid() && pg.Valid() && Stored(pg.tx.up)
  {
    if !Accepts(pg, q) then BadParams
    else
      DecodedIsMapped(q, pg);
      Settle(Decode(q, pg), !PercentsSupplied(q))
  }

  /** The attributes a passing request hands on. */
  function PassedOn(q: Request, pg: PgData): PgData
    requires q.Valid() && pg.Valid() && Stored(pg.tx.up) && SetPg(q, pg).Success?
  {
    DecodedIsMapped(q, pg);
    Outcome(Decode(q, pg))
  }

  /** The client's message: of the right length, without a payload, or neither. */
  datatype Message = Payload(q: Request) | NoPayload | WrongLength

  /** Without a payload the stored attributes themselves are checked, so their groups must exist. */
  predicate Serviceable(m: Message, pg: PgData)
    requires pg.Valid()
  {
    match m
    case Payload(q) => q.Valid() && Stored(pg.tx.up)
    case NoPayload => Mapped(pg.tx.up)
    case WrongLength => true
  }

  function Respond(m: Message, pg: PgData): Status
    requires pg.Valid() && Serviceable(m, pg)
  {
    match m
    case Payload(q) => SetPg(q, pg)
    case NoPayload => Settle(pg, true)
    case WrongLength => BadParams
  }

  /** What is handed on after success. */
  function Granted(m: Message, pg: PgData): PgData
    requires pg.Valid() && Serviceable(m, pg) && Respond(m, pg).Success?
  {
    match m
    case Payload(q) => PassedOn(q, pg)
    case NoPayload => Outcome(pg)
    case WrongLength => pg
  }

  // ---------- One link strict group ----------

  /** Link strict priorities are in one group `g` only. */
  predicate StrictOnly(up: seq<Priority>, g: u8) {
    forall i :: 0 <= i < |up| && up[i].strict.LinkStrict? ==> up[i].pgid == g
  }

  lemma {:induction false} OneStrictGroup(up: seq<Priority>, g: u8, n: nat)
    requires n <= |up| && StrictOnly(up, g)
    ensures StrictGroup(up, n) == Some(g) || StrictGroup(up, n) == Some(LINK_STRICT_PGID)
    decreases n
  {
    if n > 0 {
      OneStrictGroup(up, g, n - 1);
    }
  }

  /** The rule that rejects a second link strict group never rejects a decoded request. */
  lemma StrictRuleNeverRejects(q: Request, pg: PgData)
    requires q.Valid() && pg.Valid() && Stored(pg.tx.up) && Mapped(Decode(q, pg).tx.up)
    requires FixUp(Decode(q, pg), None).Some?
    ensures StrictGroup(FixUp(Decode(q, pg), None).value.tx.up, PRIORITIES).Some?
    ensures StrictGroup(FixUp(Decode(q, pg), None).value.rx.up, PRIORITIES).Some?
  {
    var d := Decode(q, pg);
    var r := FixUp(d, None).value;
    SameStrictness(q, pg);
    if j :| 0 <= j < PRIORITIES && d.tx.up[j].strict.LinkStrict? {
      forall i | 0 <= i < PRIORITIES && d.tx.up[i].strict.LinkStrict?
        ensures r.tx.up[i].pgid == r.tx.up[j].pgid == r.rx.up[i].pgid
      {
        StrictStayTogether(q, pg, i, j);
      }
      hide Decode, FixUp;
      OneStrictGroup(r.tx.up, r.tx.up[j].pgid, PRIORITIES);
      OneStrictGroup(r.rx.up, r.tx.up[j].pgid, PRIORITIES);
    } else {
      hide Decode, FixUp;
      OneStrictGroup(r.tx.up, 0, PRIORITIES);
      OneStrictGroup(r.rx.up, 0, PRIORITIES);
    }
  }

  /** Link strict priorities of a decoded request end in one group in both directions. */
  lemma StrictStayTogether(q: Request, pg: PgData, i: nat, j: nat)
    requires q.Valid() && pg.Valid() && Stored(pg.tx.up) && Mapped(Decode(q, pg).tx.up)
    requires FixUp(Decode(q, pg), None).Some? && i < PRIORITIES && j < PRIORITIES
    requires Decode(q, pg).tx.up[i].strict.LinkStrict? && Decode(q, pg).tx.up[j].strict.LinkStrict?
    ensures var r := FixUp(Decode(q, pg), None).value; r.tx.up[i].pgid == r.tx.up[j].pgid == r.rx.up[i].pgid
  {
    hide Decode, Types, Groups;
    DecodedGroups(q, pg, i);
    DecodedGroups(q, pg, j);
    CollapseKeepsGroups(Decode(q, pg), None, i, j);
  }

  lemma SameStrictness(q: Request, pg: PgData)
    requires q.Valid() && pg.Valid() && Stored(pg.tx.up) && Mapped(Decode(q, pg).tx.up)
    requires FixUp(Decode(q, pg), None).Some?
    ensures var d, r := Decode(q, pg), FixUp(Decode(q, pg), None).value;
            forall i :: 0 <= i < PRIORITIES ==>
              && (r.tx.up[i].strict.LinkStrict? <==> d.tx.up[i].strict.LinkStrict?)
              && (r.rx.up[i].strict.LinkStrict? <==> d.tx.up[i].strict.LinkStrict?)
  {
    forall i | 0 <= i < PRIORITIES ensures Decode(q, pg).rx.up[i].strict.LinkStrict? <==> Decode(q, pg).tx.up[i].strict.LinkStrict? {
      DecodedGroups(q, pg, i);
    }
  }

  // ---------- When a request passes ----------

  /** The totals only depend on the groups and on who is link strict. */
  lemma {:induction false} SameStrictGroup(a: seq<Priority>, b: seq<Priority>, n: nat)
    requires n <= |a| == |b|
    requires forall i :: 0 <= i < |a| ==> a[i].pgid == b[i].pgid && (a[i].strict.LinkStrict? <==> b[i].strict.LinkStrict?)
    ensures StrictGroup(a, n) == StrictGroup(b, n)
    decreases n
  {
    if n > 0 {
      SameStrictGroup(a, b, n - 1);
    }
  }

  /** Priority `i` is alone in bandwidth group `i`. */
  predicate Alone(up: seq<Priority>) {
    forall i :: 0 <= i < |up| ==> up[i].bwgid == i
  }

  lemma {:induction false} AloneCounts(up: seq<Priority>, b: nat, n: nat)
    requires Alone(up) && n <= |up| && b < |up|
    ensures GroupSum(up, b, n) == if b < n then up[b].percent else 0
    ensures Members(up, b, n) == if b < n then 1 else 0
    decreases n
  {
    if n > 0 {
      AloneCounts(up, b, n - 1);
    }
  }

  /** Rebalancing bandwidth groups of one leaves all or nothing. */
  lemma RebalancedAlone(shape: seq<Priority>, up: seq<Priority>, i: nat)
    requires |shape| == |up| == PRIORITIES && Alone(shape) && i < PRIORITIES
    requires shape[i].strict.LinkStrict? <==> up[i].strict.LinkStrict?
    ensures var r := Rebalanced(shape, up)[i];
            && r.percent == NewPercent(up[i])
            && (r.strict.LinkStrict? <==> up[i].strict.LinkStrict?)
            && r.pgid == up[i].pgid && r.bwgid == up[i].bwgid
  {
    AloneCounts(shape, i, PRIORITIES);
    AloneCounts(shape, i, i);
    assert HasStrict(shape, i) <==> shape[i].strict.LinkStrict?;
  }

  /** All or nothing meets every rule but the one on totals. */
  lemma AllOrNothing(t: Traffic)
    requires |t.up| == PRIORITIES && |t.pgPercent| == GROUPS && Alone(t.up)
    requires forall i :: 0 <= i < PRIORITIES ==> t.up[i].percent == NewPercent(t.up[i])
    ensures PrioritiesOk(t.up) && BandwidthGroupsOk(t)
  {
    forall b | 0 <= b < GROUPS ensures BandwidthGroupOk(t, b) {
      AloneCounts(t.up, b, PRIORITIES);
      assert HasStrict(t.up, b) <==> t.up[b].strict.LinkStrict?;
    }
  }

  /** One direction after rebalancing and a second repair. */
  lemma SecondTry(shape: seq<Priority>, t: Traffic)
    requires |shape| == |t.up| == PRIORITIES && |t.pgPercent| == GROUPS && Alone(shape)
    requires forall i :: 0 <= i < PRIORITIES ==> (shape[i].strict.LinkStrict? <==> t.up[i].strict.LinkStrict?)
    ensures TrafficOk(Traffic(t.pgPercent, OneToOne(Rebalanced(shape, t.up)))) <==> TotalOk(t)
  {
    var up := OneToOne(Rebalanced(shape, t.up));
    forall i | 0 <= i < PRIORITIES
      ensures up[i].percent == NewPercent(up[i]) && up[i].pgid == t.up[i].pgid
      ensures up[i].strict.LinkStrict? <==> t.up[i].strict.LinkStrict?
    {
      RebalancedAlone(shape, t.up, i);
    }
    AllOrNothing(Traffic(t.pgPercent, up));
    SameStrictGroup(t.up, up, PRIORITIES);
  }

  lemma PassesTotals(q: Request, pg: PgData)
    requires q.Valid() && pg.Valid() && Stored(pg.tx.up) && Accepts(pg, q) && !PercentsSupplied(q)
    ensures Mapped(Decode(q, pg).tx.up)
    ensures SetPg(q, pg).Success? <==>
            var fixed := FixUp(Decode(q, pg), None);
            fixed.Some? && TotalOk(fixed.value.tx) && TotalOk(fixed.value.rx)
  {
    DecodedIsMapped(q, pg);
    var d := Decode(q, pg);
    var fixed := FixUp(d, None);
    if fixed.Some? && Judge(fixed).BadParams? {
      var f := fixed.value;
      StillMapped(d);
      SameStrictness(q, pg);
      assert Alone(f.tx.up);
      SecondTry(f.tx.up, f.tx);
      SecondTry(f.tx.up, f.rx);
      RetryVerdict(f);
    }
  }

  /** A request that leaves the percentages to the daemon passes exactly when the groups can be
      repaired and both directions then give out everything (or nothing, all being link strict). */
  lemma PassesIff(q: Request, pg: PgData)
    requires q.Valid() && pg.Valid() && Stored(pg.tx.up) && Accepts(pg, q)
    requires forall i :: 0 <= i < PRIORITIES ==> q.upPercent[i].NotSupplied?
    ensures Mapped(Decode(q, pg).tx.up)
    ensures SetPg(q, pg).Success? <==>
            var fixed := FixUp(Decode(q, pg), None);
            fixed.Some? && GivenOut(fixed.value.tx) && GivenOut(fixed.value.rx)
  {
    PassesTotals(q, pg);
    hide SetPg, Decode, FixUp, GivenOut, TotalOk;
    var fixed := FixUp(Decode(q, pg), None);
    if fixed.Some? {
      TotalsMean(fixed.value.tx);
      TotalsMean(fixed.value.rx);
    }
  }

  lemma RetryVerdict(f: PgData)
    requires f.Valid() && Mapped(Rebalance(f).tx.up) && Fits(Rebalance(f).tx.up, f.numTcs)
    ensures Judge(FixUp(Rebalance(f), None)).Success? <==>
            && TrafficOk(Traffic(f.tx.pgPercent, OneToOne(Rebalanced(f.tx.up, f.tx.up))))
            && TrafficOk(Traffic(f.rx.pgPercent, OneToOne(Rebalanced(f.tx.up, f.rx.up))))
  {
    hide TrafficOk, Rebalanced, OneToOne;
  }

  /** A decoded request never leaves bandwidth over on a device whose classes are all link strict. */
  lemma DecodedLeftoverHasHome(q: Request, pg: PgData)
    requires q.Valid() && pg.Valid() && Stored(pg.tx.up)
    ensures LeftoverHasHome(Decode(q, pg).tx.up, Decode(q, pg).tx.pgPercent, pg.numTcs, None)
  {
    var up := Decode(q, pg).tx.up;
    var gs := Groups(up, None);
    DecodedIsMapped(q, pg);
    if i :| 0 <= i < PRIORITIES && !up[i].strict.LinkStrict? {
      var g := up[i].pgid;
      forall j | 0 <= j < PRIORITIES && up[j].pgid == g ensures !up[j].strict.LinkStrict? {
        DecodedGroups(q, pg, i);
        DecodedGroups(q, pg, j);
      }
      PlainGroup(up, g, 0);
      RankBelowCount(gs, BestEffort, g);
      if pg.numTcs >= Types(gs) {
        NonStrictLeavesRoom(gs, pg.numTcs);
      }
    } else {
      AllStrictFits(q, pg);
    }
  }

  lemma {:induction false} PlainGroup(up: seq<Priority>, g: nat, j: nat)
    requires j <= |up|
    requires forall i :: j <= i < |up| && up[i].pgid == g ==> !up[i].strict.LinkStrict?
    ensures GroupFrom(up, None, g, j) in {Unused, Of(BestEffort)}
    decreases |up| - j
  {
    if j < |up| && up[j].pgid != g {
      PlainGroup(up, g, j + 1);
    }
  }

  /** When everything is link strict, everything is in group 0: it fits, or there are no classes. */
  lemma AllStrictFits(q: Request, pg: PgData)
    requires q.Valid() && pg.Valid() && Stored(pg.tx.up) && AllStrict(Decode(q, pg).tx.up)
    ensures Fits(Decode(q, pg).tx.up, pg.numTcs) || pg.numTcs < Types(Groups(Decode(q, pg).tx.up, None))
  {
    var up := Decode(q, pg).tx.up;
    forall i | 0 <= i < PRIORITIES ensures Claim(q, pg.tx.up[i], i) == LINK_STRICT_PGID {
      DecodedGroups(q, pg, i);
      StrictClaimsFifteen(q, pg.tx.up, i);
      assert up[i].strict.LinkStrict?;
    }
    assert Free(q, pg.tx.up) == 0;
    forall i | 0 <= i < PRIORITIES ensures up[i].pgid == 0 {
      DecodedGroups(q, pg, i);
    }
    var gs := Groups(up, None);
    assert up[0].pgid == 0 && gs[0] == Of(Strict);
    RankBelowCount(gs, Strict, 0);
  }
}
