/** The DCB rules of dcb_check_config and the even redistribution of rebalance_uppcts
    (dcb_rule_chk.c), as functions of the configuration.
 */
module RuleCheck {
  import opened Words
  import opened PgTypes
  import opened PgFixUp

  datatype Status = Success | Failed | BadParams

  // ---------- The rules ----------

  /** The only group that link strict priorities may be in, 15 when there is none so far; `None` when
      the first `n` priorities name two. */
  function StrictGroup(up: seq<Priority>, n: nat): Option<u8>
    requires n <= |up|
  {
    if n == 0 then Some(LINK_STRICT_PGID)
    else
      var l := StrictGroup(up, n - 1);
      if l.None? || !up[n - 1].strict.LinkStrict? then l
      else if l.value == LINK_STRICT_PGID then Some(up[n - 1].pgid)
      else if up[n - 1].pgid != l.value then None
      else l
  }

  /** Totals are kept in an unsigned byte and leave out the link strict group. */
  function TotalLess(pct: seq<u8>, strictGroup: u8): u8 {
    ToByte(Sum(pct) - if strictGroup < |pct| then pct[strictGroup] else 0)
  }

  predicate AllStrict(up: seq<Priority>) {
    forall i :: 0 <= i < |up| ==> up[i].strict.LinkStrict?
  }

  /** Everything is given out, or there is nothing to give and everything is link strict. */
  predicate TotalOk(t: Traffic) {
    var s := StrictGroup(t.up, |t.up|);
    && s.Some?
    && var bw := TotalLess(t.pgPercent, s.value); bw == BW_PERCENT || (bw == 0 && AllStrict(t.up))
  }

  /** Link strict means no bandwidth within the bandwidth group, anything else means some. */
  predicate PriorityOk(p: Priority) {
    p.bwgid < GROUPS && (p.strict.LinkStrict? <==> p.percent == 0)
  }

  predicate PrioritiesOk(up: seq<Priority>) {
    forall i :: 0 <= i < |up| ==> PriorityOk(up[i])
  }

  /** Percentages of the first `n` priorities that are in bandwidth group `b`. */
  function GroupSum(up: seq<Priority>, b: int, n: nat): nat
    requires n <= |up|
  {
    if n == 0 then 0 else GroupSum(up, b, n - 1) + if up[n - 1].bwgid == b then up[n - 1].percent else 0
  }

  predicate HasStrict(up: seq<Priority>, b: int) {
    exists i :: 0 <= i < |up| && up[i].bwgid == b && up[i].strict.LinkStrict?
  }

  predicate BandwidthGroupOk(t: Traffic, b: nat)
    requires b < |t.pgPercent|
  {
    var sum := ToByte(GroupSum(t.up, b, |t.up|));
    if HasStrict(t.up, b) then sum == 0 || t.pgPercent[b] == 0 else sum == 0 || sum == BW_PERCENT
  }

  predicate BandwidthGroupsOk(t: Traffic)
    requires |t.pgPercent| == GROUPS
  {
    forall b :: 0 <= b < GROUPS ==> BandwidthGroupOk(t, b)
  }

  predicate TrafficOk(t: Traffic)
    requires |t.pgPercent| == GROUPS
  {
    TotalOk(t) && PrioritiesOk(t.up) && BandwidthGroupsOk(t)
  }

  /** dcb_check_config repairs the groups and judges the result. */
  function Judge(fixed: Option<PgData>): Status
    requires fixed.Some? ==> fixed.value.Valid()
  {
    if fixed.None? then Failed
    else if TrafficOk(fixed.value.tx) && TrafficOk(fixed.value.rx) then Success
    else BadParams
  }

  // ---------- Rebalancing ----------

  /** Members of bandwidth group `b` among the first `n` priorities. */
  function Members(up: seq<Priority>, b: int, n: nat): (r: nat)
    requires n <= |up|
    ensures r <= n
  {
    if n == 0 then 0 else Members(up, b, n - 1) + if up[n - 1].bwgid == b then 1 else 0
  }

  /** A bandwidth group that takes part: no member is link strict. */
  predicate Balanced(up: seq<Priority>, b: int) {
    b < GROUPS && !HasStrict(up, b)
  }

  lemma {:induction false} MembersMonotone(up: seq<Priority>, b: int, m: nat, n: nat)
    requires m <= n <= |up|
    ensures Members(up, b, m) <= Members(up, b, n)
    decreases n
  {
    if m < n {
      MembersMonotone(up, b, m, n - 1);
    }
  }

  /** The `k`-th of `n` equal parts of one hundred, the first ones taking what does not divide. */
  function Part(n: nat, k: nat): u8
    requires 0 < n
  {
    100 / n + if k < 100 % n then 1 else 0
  }

  function BalancedPercent(up: seq<Priority>, i: nat, otherwise: u8): u8
    requires i < |up|
  {
    var b := up[i].bwgid;
    if b >= GROUPS then otherwise
    else if up[i].strict.LinkStrict? then 0
    else if HasStrict(up, b) then otherwise
    else
      MembersMonotone(up, b, i + 1, |up|);
      Part(Members(up, b, |up|), Members(up, b, i))
  }

  function BalancedStrict(up: seq<Priority>, i: nat, otherwise: Strict): Strict
    requires i < |up|
  {
    if Balanced(up, up[i].bwgid) then NoStrict else otherwise
  }

  /** Both directions follow the transmit side's bandwidth groups `shape`. */
  function Rebalanced(shape: seq<Priority>, up: seq<Priority>): (r: seq<Priority>)
    requires |shape| == |up|
    ensures |r| == |up|
  {
    var n := |up|;
    seq(n, i requires 0 <= i < n =>
      up[i].(percent := BalancedPercent(shape, i, up[i].percent), strict := BalancedStrict(shape, i, up[i].strict)))
  }

  function Rebalance(pg: PgData): (r: PgData)
    requires pg.Valid()
    ensures r.Valid() && r.numTcs == pg.numTcs
  {
    pg.(tx := pg.tx.(up := Rebalanced(pg.tx.up, pg.tx.up)), rx := pg.rx.(up := Rebalanced(pg.tx.up, pg.rx.up)))
  }

  // ---------- What rebalancing achieves ----------

  lemma {:induction false} SameMembers(up: seq<Priority>, r: seq<Priority>, b: int, n: nat)
    requires n <= |up| == |r|
    requires forall i :: 0 <= i < n ==> r[i].bwgid == up[i].bwgid
    ensures Members(r, b, n) == Members(up, b, n)
    decreases n
  {
    if n > 0 {
      SameMembers(up, r, b, n - 1);
    }
  }

  /** In a group where the first `extra` members have `q + 1` and the others `q`. */
  lemma {:induction false} PartialSum(up: seq<Priority>, b: int, n: nat, q: nat, extra: nat)
    requires n <= |up|
    requires forall i :: 0 <= i < |up| && up[i].bwgid == b ==>
               up[i].percent == q + if Members(up, b, i) < extra then 1 else 0
    ensures GroupSum(up, b, n) == Members(up, b, n) * q + Min(Members(up, b, n), extra)
    decreases n
  {
    if n > 0 {
      PartialSum(up, b, n - 1, q, extra);
      OneMore(Members(up, b, n - 1), q, extra);
    }
  }

  lemma OneMore(m: nat, q: nat, extra: nat)
    ensures (m + 1) * q + Min(m + 1, extra) == m * q + Min(m, extra) + q + if m < extra then 1 else 0
  {
  }

  /** A member of a balanced group gets its part. */
  lemma BalancedMember(up: seq<Priority>, i: nat)
    requires i < |up| && Balanced(up, up[i].bwgid)
    ensures Members(up, up[i].bwgid, |up|) > 0
    ensures Rebalanced(up, up)[i].percent == Part(Members(up, up[i].bwgid, |up|), Members(up, up[i].bwgid, i))
  {
    MembersMonotone(up, up[i].bwgid, i + 1, |up|);
  }

  lemma QuotientAndRest(n: nat)
    requires n > 0
    ensures n * (100 / n) + 100 % n == 100 && 100 % n < n
  {
  }

  /** Members of a rebalanced group: the first ones have one percent more. */
  lemma RebalancedParts(up: seq<Priority>, b: nat, i: nat)
    requires Balanced(up, b) && i < |up| && up[i].bwgid == b
    ensures Members(up, b, |up|) > 0 && Rebalanced(up, up)[i].bwgid == b
    ensures var size := Members(up, b, |up|);
            Rebalanced(up, up)[i].percent
              == 100 / size + if Members(Rebalanced(up, up), b, i) < 100 % size then 1 else 0
  {
    BalancedMember(up, i);
    SameMembers(up, Rebalanced(up, up), b, i);
  }

  /** Each bandwidth group with a member and no link strict member ends at exactly one hundred
      percent, in equal parts up to one. */
  lemma RebalanceFillsGroups(up: seq<Priority>, b: nat)
    requires Balanced(up, b) && Members(up, b, |up|) > 0
    ensures GroupSum(Rebalanced(up, up), b, |up|) == 100
    ensures forall i, j :: 0 <= i < |up| && 0 <= j < |up| && up[i].bwgid == b && up[j].bwgid == b ==>
              Rebalanced(up, up)[i].percent <= Rebalanced(up, up)[j].percent + 1
  {
    var size, r := Members(up, b, |up|), Rebalanced(up, up);
    var q, extra := 100 / size, 100 % size;
    forall i | 0 <= i < |up| && up[i].bwgid == b
      ensures r[i].percent == q + if Members(r, b, i) < extra then 1 else 0
    {
      RebalancedParts(up, b, i);
    }
    assert forall i :: 0 <= i < |r| ==> r[i].bwgid == up[i].bwgid;
    SameMembers(up, r, b, |up|);
    QuotientAndRest(size);
    hide Rebalanced, Members, GroupSum;
    PartialSum(r, b, |up|, q, extra);
  }

  /** Link strict members get nothing in either direction; members beside them keep what they had. */
  lemma RebalanceAndStrict(shape: seq<Priority>, up: seq<Priority>, i: nat)
    requires i < |shape| == |up| && shape[i].bwgid < GROUPS && HasStrict(shape, shape[i].bwgid)
    ensures Rebalanced(shape, up)[i] == up[i].(percent := if shape[i].strict.LinkStrict? then 0 else up[i].percent)
  {
  }

  /** Rebalancing twice is rebalancing once. */
  lemma RebalanceIdempotent(pg: PgData)
    requires pg.Valid()
    ensures Rebalance(Rebalance(pg)) == Rebalance(pg)
  {
    var r := Rebalance(pg);
    forall i | 0 <= i < PRIORITIES
      ensures Rebalanced(r.tx.up, r.tx.up)[i] == r.tx.up[i] && Rebalanced(r.tx.up, r.rx.up)[i] == r.rx.up[i]
    {
      SameShape(pg.tx.up, i);
    }
    assert Rebalanced(r.tx.up, r.tx.up) == r.tx.up && Rebalanced(r.tx.up, r.rx.up) == r.rx.up;
  }

  /** Rebalancing changes neither who is in a group nor which groups take part. */
  lemma SameShape(up: seq<Priority>, i: nat)
    requires i < |up|
    ensures var r := Rebalanced(up, up);
            && r[i].bwgid == up[i].bwgid && (r[i].strict.LinkStrict? <==> up[i].strict.LinkStrict?)
            && (HasStrict(r, up[i].bwgid) <==> HasStrict(up, up[i].bwgid))
            && Members(r, up[i].bwgid, i) == Members(up, up[i].bwgid, i)
            && Members(r, up[i].bwgid, |up|) == Members(up, up[i].bwgid, |up|)
  {
    var r, b := Rebalanced(up, up), up[i].bwgid;
    SameMembers(up, r, b, i);
    SameMembers(up, r, b, |up|);
    if HasStrict(up, b) {
      var j :| 0 <= j < |up| && up[j].bwgid == b && up[j].strict.LinkStrict?;
      assert r[j].bwgid == b && r[j].strict.LinkStrict?;
    }
  }
}
