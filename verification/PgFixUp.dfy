/** dcb_fixup_pg (dcb_rule_chk.c) as a function of the configuration: what a port's priorities and
    bandwidth become, and the conservation of bandwidth.
 */
module PgFixUp {
  import opened Words
  import opened PgTypes
  import opened PriorityGroups

  /** Every priority belongs to one of the eight groups. */
  predicate Mapped(up: seq<Priority>) {
    forall i :: 0 <= i < |up| ==> up[i].pgid < GROUPS
  }

  /** One class per group is possible without any collapse. */
  predicate Fits(up: seq<Priority>, numTcs: nat) {
    forall i :: 0 <= i < |up| ==> up[i].pgid < numTcs
  }

  // ---------- Bandwidth ----------

  /** What the groups before `g` that went to class `c` bring along. */
  function ShareOf(gs: seq<Group>, numTcs: nat, pct: seq<u8>, c: nat, g: nat): nat
    requires Types(gs) <= numTcs && g <= |gs| == |pct|
  {
    if g == 0 then 0
    else ShareOf(gs, numTcs, pct, c, g - 1) + if gs[g - 1].Of? && ClassOf(gs, numTcs, g - 1) == c then pct[g - 1] else 0
  }

  /** Bandwidth of the used groups before `g`. */
  function TotalOf(gs: seq<Group>, pct: seq<u8>, g: nat): nat
    requires g <= |gs| == |pct|
  {
    if g == 0 then 0 else TotalOf(gs, pct, g - 1) + if gs[g - 1].Of? then pct[g - 1] else 0
  }

  /** A class gets the sum of its groups; one class also gets what the used groups leave over. */
  function ClassBandwidth(gs: seq<Group>, numTcs: nat, pct: seq<u8>, c: nat): int
    requires Types(gs) <= numTcs && |gs| == |pct|
  {
    ShareOf(gs, numTcs, pct, c, |gs|)
      + if c == LeftoverClass(gs, numTcs) then BW_PERCENT - TotalOf(gs, pct, |gs|) else 0
  }

  /** Percentages are stored in an unsigned byte. */
  function ToByte(x: int): u8 {
    x % 256
  }

  function Bandwidth(gs: seq<Group>, numTcs: nat, pct: seq<u8>): (r: seq<u8>)
    requires Types(gs) <= numTcs && |gs| == |pct|
    ensures |r| == GROUPS
  {
    seq(GROUPS, c requires 0 <= c => ToByte(ClassBandwidth(gs, numTcs, pct, c)))
  }

  // ---------- The whole configuration ----------

  function OneToOne(up: seq<Priority>): (r: seq<Priority>)
    requires |up| == PRIORITIES
    ensures |r| == PRIORITIES
  {
    seq(PRIORITIES, i requires 0 <= i < PRIORITIES => up[i].(bwgid := i))
  }

  function NewPgid(gs: seq<Group>, numTcs: nat, p: Priority): u8
    requires Types(gs) <= numTcs < 256 && p.pgid < |gs| && gs[p.pgid].Of?
  {
    ClassOf(gs, numTcs, p.pgid)
  }

  function NewPercent(p: Priority): u8 {
    if p.strict.LinkStrict? then 0 else BW_PERCENT
  }

  function CollapsedTx(gs: seq<Group>, numTcs: nat, up: seq<Priority>): (r: seq<Priority>)
    requires Types(gs) <= numTcs < 256 && |up| == PRIORITIES
    requires forall i :: 0 <= i < PRIORITIES ==> up[i].pgid < |gs| && gs[up[i].pgid].Of?
    ensures |r| == PRIORITIES
  {
    seq(PRIORITIES, i requires 0 <= i < PRIORITIES =>
      up[i].(pgid := NewPgid(gs, numTcs, up[i]), bwgid := i, percent := NewPercent(up[i])))
  }

  /** The receive side follows the transmit side's groups and strictness but keeps its own
      bandwidth group (dcb_rule_chk.c:252). */
  function CollapsedRx(gs: seq<Group>, numTcs: nat, up: seq<Priority>, rx: seq<Priority>): (r: seq<Priority>)
    requires Types(gs) <= numTcs < 256 && |up| == |rx| == PRIORITIES
    requires forall i :: 0 <= i < PRIORITIES ==> up[i].pgid < |gs| && gs[up[i].pgid].Of?
    ensures |r| == PRIORITIES
  {
    seq(PRIORITIES, i requires 0 <= i < PRIORITIES =>
      rx[i].(pgid := NewPgid(gs, numTcs, up[i]), percent := NewPercent(up[i])))
  }

  function Collapse(pg: PgData, pfc: Option<seq<bool>>): (r: PgData)
    requires pg.Valid() && Mapped(pg.tx.up) && Types(Groups(pg.tx.up, pfc)) <= pg.numTcs
    ensures r.Valid()
  {
    var gs := Groups(pg.tx.up, pfc);
    var bw := Bandwidth(gs, pg.numTcs, pg.tx.pgPercent);
    PgData(Traffic(bw, CollapsedTx(gs, pg.numTcs, pg.tx.up)),
             Traffic(bw, CollapsedRx(gs, pg.numTcs, pg.tx.up, pg.rx.up)), pg.numTcs)
  }

  /** Left-over bandwidth is given to a class that exists; otherwise the code writes before its table
      (dcb_rule_chk.c:230). */
  predicate LeftoverHasHome(up: seq<Priority>, pct: seq<u8>, numTcs: nat, pfc: Option<seq<bool>>)
    requires |pct| == GROUPS
  {
    var gs := Groups(up, pfc);
    Fits(up, numTcs) || numTcs < Types(gs) || TotalOf(gs, pct, GROUPS) == BW_PERCENT || LeftoverClass(gs, numTcs) >= 0
  }

  /** `None` is the -1 of dcb_rule_chk.c:160. */
  function FixUp(pg: PgData, pfc: Option<seq<bool>>): (r: Option<PgData>)
    requires pg.Valid() && Mapped(pg.tx.up)
    ensures r.Some? ==> r.value.Valid() && r.value.numTcs == pg.numTcs
  {
    if Fits(pg.tx.up, pg.numTcs) then
      Some(pg.(tx := pg.tx.(up := OneToOne(pg.tx.up)), rx := pg.rx.(up := OneToOne(pg.rx.up))))
    else if pg.numTcs < Types(Groups(pg.tx.up, pfc)) then None
    else Some(Collapse(pg, pfc))
  }

  // ---------- What the collapse keeps ----------

  /** On success every new group exists on the device, priorities that shared a group still do, and
      priorities put together had groups of one type. */
  lemma CollapseKeepsGroups(pg: PgData, pfc: Option<seq<bool>>, i: nat, j: nat)
    requires pg.Valid() && Mapped(pg.tx.up) && FixUp(pg, pfc).Some? && i < PRIORITIES && j < PRIORITIES
    ensures var up, r := pg.tx.up, FixUp(pg, pfc).value.tx.up;
            var gs := Groups(up, pfc);
            && r[i].pgid < pg.numTcs
            && (up[i].pgid == up[j].pgid ==> r[i].pgid == r[j].pgid)
            && (r[i].pgid == r[j].pgid ==> gs[up[i].pgid] == gs[up[j].pgid])
  {
    var up, gs := pg.tx.up, Groups(pg.tx.up, pfc);
    if !Fits(up, pg.numTcs) {
      CollapsedApart(gs, pg.numTcs, up, i, j);
    }
  }

  lemma CollapsedApart(gs: seq<Group>, numTcs: nat, up: seq<Priority>, i: nat, j: nat)
    requires Types(gs) <= numTcs < 256 && |up| == PRIORITIES && i < PRIORITIES && j < PRIORITIES
    requires forall i :: 0 <= i < PRIORITIES ==> up[i].pgid < |gs| && gs[up[i].pgid].Of?
    ensures CollapsedTx(gs, numTcs, up)[i].pgid == CollapsedTx(gs, numTcs, up)[j].pgid ==> gs[up[i].pgid] == gs[up[j].pgid]
  {
    if ClassOf(gs, numTcs, up[i].pgid) == ClassOf(gs, numTcs, up[j].pgid) {
      TypesStayApart(gs, numTcs, up[i].pgid, up[j].pgid);
    }
  }

  /** Whatever flow control settings come with it, a second run succeeds and changes nothing but the
      receive side's bandwidth groups. */
  lemma SecondRunSettles(pg: PgData, pfc: Option<seq<bool>>, again: Option<seq<bool>>)
    requires pg.Valid() && Mapped(pg.tx.up) && FixUp(pg, pfc).Some?
    ensures var r := FixUp(pg, pfc).value;
            && Mapped(r.tx.up)
            && FixUp(r, again) == Some(r.(rx := r.rx.(up := OneToOne(r.rx.up))))
  {
    var r := FixUp(pg, pfc).value;
    forall i | 0 <= i < PRIORITIES
      ensures r.tx.up[i].pgid < pg.numTcs && r.tx.up[i].pgid < GROUPS && r.tx.up[i].bwgid == i
    {
      CollapseKeepsGroups(pg, pfc, i, i);
      SomeGroupIsHigh(pg.tx.up, pg.numTcs);
    }
    assert OneToOne(r.tx.up) == r.tx.up;
  }

  /** A collapse only happens with fewer classes than the eight group numbers. */
  lemma SomeGroupIsHigh(up: seq<Priority>, numTcs: nat)
    requires Mapped(up)
    ensures Fits(up, numTcs) || numTcs < GROUPS
  {
  }

  // ---------- Bandwidth is conserved ----------

  function Sum(s: seq<int>): int {
    if s == [] then 0 else Sum(s[..|s| - 1]) + s[|s| - 1]
  }

  lemma {:induction false} SumAdd(s: seq<int>, i: nat, v: int)
    requires i < |s|
    ensures Sum(s[i := s[i] + v]) == Sum(s) + v
    decreases |s|
  {
    var t := s[i := s[i] + v];
    if i == |s| - 1 {
      assert t[..|s| - 1] == s[..|s| - 1];
    } else {
      assert t[..|s| - 1] == s[..|s| - 1][i := s[i] + v];
      SumAdd(s[..|s| - 1], i, v);
    }
  }

  function Shares(gs: seq<Group>, numTcs: nat, pct: seq<u8>, g: nat): (r: seq<int>)
    requires Types(gs) <= numTcs && g <= |gs| == |pct|
    ensures |r| == GROUPS
  {
    seq(GROUPS, c requires 0 <= c => ShareOf(gs, numTcs, pct, c, g))
  }

  lemma {:induction false} ZeroSum(s: seq<int>)
    requires forall i :: 0 <= i < |s| ==> s[i] == 0
    ensures Sum(s) == 0
    decreases |s|
  {
    if s != [] {
      ZeroSum(s[..|s| - 1]);
    }
  }

  /** The classes' shares add up to what the used groups had. */
  lemma {:induction false} SharesAddUp(gs: seq<Group>, numTcs: nat, pct: seq<u8>, g: nat)
    requires Types(gs) <= numTcs <= GROUPS && g <= |gs| == |pct|
    ensures Sum(Shares(gs, numTcs, pct, g)) == TotalOf(gs, pct, g)
    decreases g
  {
    var now := Shares(gs, numTcs, pct, g);
    if g == 0 {
      ZeroSum(now);
    } else {
      SharesAddUp(gs, numTcs, pct, g - 1);
      var before := Shares(gs, numTcs, pct, g - 1);
      if gs[g - 1].Of? {
        var c := ClassOf(gs, numTcs, g - 1);
        SumAdd(before, c, pct[g - 1]);
        assert now == before[c := before[c] + pct[g - 1]];
      } else {
        assert now == before;
      }
    }
  }

  lemma {:induction false} ShareWithinTotal(gs: seq<Group>, numTcs: nat, pct: seq<u8>, c: nat, g: nat)
    requires Types(gs) <= numTcs && g <= |gs| == |pct|
    ensures ShareOf(gs, numTcs, pct, c, g) <= TotalOf(gs, pct, g)
    decreases g
  {
    if g > 0 {
      ShareWithinTotal(gs, numTcs, pct, c, g - 1);
    }
  }

  /** When the used groups claim at most everything, no class's bandwidth wraps. */
  lemma NothingWraps(gs: seq<Group>, numTcs: nat, pct: seq<u8>, c: nat)
    requires Types(gs) <= numTcs <= GROUPS && |gs| == |pct| && c < GROUPS
    requires TotalOf(gs, pct, |gs|) <= BW_PERCENT
    ensures Bandwidth(gs, numTcs, pct)[c] == ClassBandwidth(gs, numTcs, pct, c)
  {
    hide Types, LeftoverClass;
    ShareWithinTotal(gs, numTcs, pct, c, |gs|);
  }

  /** Then the classes have exactly one hundred percent, provided the left-over class exists. */
  lemma BandwidthConserved(gs: seq<Group>, numTcs: nat, pct: seq<u8>)
    requires Types(gs) <= numTcs <= GROUPS && |gs| == |pct|
    requires TotalOf(gs, pct, |gs|) <= BW_PERCENT && 0 <= LeftoverClass(gs, numTcs)
    ensures Sum(Bandwidth(gs, numTcs, pct)) == BW_PERCENT
  {
    var s, c := Shares(gs, numTcs, pct, |gs|), LeftoverClass(gs, numTcs);
    var rest := BW_PERCENT - TotalOf(gs, pct, |gs|);
    assert c < GROUPS;
    hide Types, LeftoverClass, Sum;
    SharesAddUp(gs, numTcs, pct, |gs|);
    SumAdd(s, c, rest);
    forall d | 0 <= d < GROUPS ensures Bandwidth(gs, numTcs, pct)[d] == s[c := s[c] + rest][d] {
      NothingWraps(gs, numTcs, pct, d);
    }
    assert Bandwidth(gs, numTcs, pct) == s[c := s[c] + rest];
  }

  /** A collapse of a configuration with some group that is not link strict and used groups of at
      most one hundred percent gives both directions the same one hundred percent. */
  lemma CollapseConserves(pg: PgData, pfc: Option<seq<bool>>)
    requires pg.Valid() && Mapped(pg.tx.up) && FixUp(pg, pfc).Some? && !Fits(pg.tx.up, pg.numTcs)
    requires exists g :: 0 <= g < GROUPS && Groups(pg.tx.up, pfc)[g].Of? && !Groups(pg.tx.up, pfc)[g].kind.Strict?
    requires TotalOf(Groups(pg.tx.up, pfc), pg.tx.pgPercent, GROUPS) <= BW_PERCENT
    ensures LeftoverHasHome(pg.tx.up, pg.tx.pgPercent, pg.numTcs, pfc)
    ensures var r := FixUp(pg, pfc).value;
            && r.tx.pgPercent == r.rx.pgPercent
            && Sum(r.tx.pgPercent) == BW_PERCENT
            && forall c :: 0 <= c < GROUPS ==>
                 r.tx.pgPercent[c] == ClassBandwidth(Groups(pg.tx.up, pfc), pg.numTcs, pg.tx.pgPercent, c)
  {
    var gs := Groups(pg.tx.up, pfc);
    var g :| 0 <= g < GROUPS && gs[g].Of? && !gs[g].kind.Strict?;
    RankBelowCount(gs, gs[g].kind, g);
    SomeGroupIsHigh(pg.tx.up, pg.numTcs);
    NonStrictLeavesRoom(gs, pg.numTcs);
    BandwidthConserved(gs, pg.numTcs, pg.tx.pgPercent);
    forall c | 0 <= c < GROUPS
      ensures Bandwidth(gs, pg.numTcs, pg.tx.pgPercent)[c] == ClassBandwidth(gs, pg.numTcs, pg.tx.pgPercent, c)
    {
      NothingWraps(gs, pg.numTcs, pg.tx.pgPercent, c);
    }
  }

  lemma NonStrictLeavesRoom(gs: seq<Group>, numTcs: nat)
    requires Types(gs) <= numTcs && Count(gs, BestEffort) + Count(gs, FlowControlled) > 0
    ensures LeftoverClass(gs, numTcs) >= 0
  {
  }

  // ---------- Left-over bandwidth without a class to go to ----------

  /** The code writes before its table exactly when it has to collapse, all groups are link strict, there
      are at least as many of them as classes, and their bandwidth is not one hundred percent. */
  lemma NoHomeIff(up: seq<Priority>, pct: seq<u8>, numTcs: nat, pfc: Option<seq<bool>>)
    requires |pct| == GROUPS
    ensures var gs := Groups(up, pfc);
            !LeftoverHasHome(up, pct, numTcs, pfc) <==>
              && !Fits(up, numTcs) && Types(gs) <= numTcs && TotalOf(gs, pct, GROUPS) != BW_PERCENT
              && Count(gs, BestEffort) + Count(gs, FlowControlled) == 0 && Count(gs, Strict) >= numTcs
  {
    hide Groups, Fits, TotalOf;
  }

  /** A CIN priority-group TLV: priority `i` is in group `i`, strict bits and percentages are the peer's
      (tlv_dcbx.c:1310-1345). */
  predicate FromCin(up: seq<Priority>) {
    |up| == PRIORITIES && forall i :: 0 <= i < PRIORITIES ==> up[i].pgid == i
  }

  lemma {:induction false} CinGroup(up: seq<Priority>, pfc: Option<seq<bool>>, g: nat, j: nat)
    requires FromCin(up) && j <= g < PRIORITIES
    ensures GroupFrom(up, pfc, g, j) == Of(KindOf(up[g], FlowControlOn(pfc, g)))
    decreases g - j
  {
    if j < g {
      CinGroup(up, pfc, g, j + 1);
    }
  }

  lemma {:induction false} AllOneKind(gs: seq<Group>, k: Kind, g: nat)
    requires g <= |gs|
    ensures Rank(gs, k, g) <= g
    ensures Rank(gs, k, g) == g <==> forall h :: 0 <= h < g ==> gs[h] == Of(k)
    decreases g
  {
    if g > 0 {
      AllOneKind(gs, k, g - 1);
    }
  }

  lemma {:induction false} RanksAddUp(gs: seq<Group>, g: nat)
    requires g <= |gs| && forall h :: 0 <= h < g ==> gs[h].Of?
    ensures Rank(gs, BestEffort, g) + Rank(gs, FlowControlled, g) + Rank(gs, Strict, g) == g
    decreases g
  {
    if g > 0 {
      RanksAddUp(gs, g - 1);
      assert gs[g - 1] == Of(gs[g - 1].kind) && (gs[g - 1].kind.BestEffort? || gs[g - 1].kind.FlowControlled? || gs[g - 1].kind.Strict?);
    }
  }

  /** What a willing port takes over from a CIN peer makes the code write before its table exactly when
      the device has one to seven classes, the peer makes every priority link strict, and its
      percentages are not one hundred in all. */
  lemma CinNoHomeIff(up: seq<Priority>, pct: seq<u8>, numTcs: nat, pfc: Option<seq<bool>>)
    requires |pct| == GROUPS && FromCin(up)
    ensures !LeftoverHasHome(up, pct, numTcs, pfc) <==>
              && 1 <= numTcs < GROUPS && (forall i :: 0 <= i < PRIORITIES ==> up[i].strict.LinkStrict?)
              && Sum(pct) != BW_PERCENT
  {
    var gs := Groups(up, pfc);
    NoHomeIff(up, pct, numTcs, pfc);
    forall g | 0 <= g < GROUPS ensures gs[g] == Of(KindOf(up[g], FlowControlOn(pfc, g))) {
      CinGroup(up, pfc, g, 0);
    }
    AllOneKind(gs, Strict, GROUPS);
    RanksAddUp(gs, GROUPS);
    TotalIsSum(gs, pct, GROUPS);
    assert pct[..GROUPS] == pct;
    assert Fits(up, numTcs) <==> numTcs >= GROUPS by {
      assert up[7].pgid == 7;
    }
    hide Groups, LeftoverHasHome, Sum, GroupFrom;
  }

  lemma {:induction false} TotalIsSum(gs: seq<Group>, pct: seq<u8>, g: nat)
    requires g <= |gs| == |pct| && forall h :: 0 <= h < |gs| ==> gs[h].Of?
    ensures TotalOf(gs, pct, g) == Sum(pct[..g])
    decreases g
  {
    if g > 0 {
      TotalIsSum(gs, pct, g - 1);
      assert pct[..g][..g - 1] == pct[..g - 1];
    }
  }

  /** Eight link strict priorities from a CIN peer, nothing to give out, four classes. */
  lemma CinOverrun(pfc: Option<seq<bool>>)
    ensures var up := seq(PRIORITIES, i requires 0 <= i < PRIORITIES => Priority(i, i, 0, LinkStrict));
            FromCin(up) && Mapped(up) && !LeftoverHasHome(up, [0, 0, 0, 0, 0, 0, 0, 0], 4, pfc)
  {
    var up := seq(PRIORITIES, i requires 0 <= i < PRIORITIES => Priority(i, i, 0, LinkStrict));
    ZeroSum([0, 0, 0, 0, 0, 0, 0, 0]);
    CinNoHomeIff(up, [0, 0, 0, 0, 0, 0, 0, 0], 4, pfc);
  }

  // ---------- Where the left-over goes astray ----------

  const PLAIN := Priority(0, 0, BW_PERCENT, NoStrict)
  const STRICT := Priority(7, 7, 0, LinkStrict)

  /** Priorities 0 to 6 in group 0 with 60 percent, priority 7 link strict in group 7, three classes. */
  const SPARSE: PgData :=
    var t := Traffic([60, 0, 0, 0, 0, 0, 0, 0], [PLAIN, PLAIN, PLAIN, PLAIN, PLAIN, PLAIN, PLAIN, STRICT]);
    PgData(t, t, 3)

  const SPARSE_GROUPS := [Of(BestEffort), Unused, Unused, Unused, Unused, Unused, Unused, Of(Strict)]

  /** Nobody before the last priority is in group 7. */
  lemma {:induction false} LastInGroup(up: seq<Priority>, g: nat, j: nat)
    requires j < |up| && up[|up| - 1].pgid == g && forall i :: j <= i < |up| - 1 ==> up[i].pgid != g
    ensures GroupFrom(up, None, g, j) == Of(KindOf(up[|up| - 1], false))
    decreases |up| - j
  {
    if j < |up| - 1 {
      LastInGroup(up, g, j + 1);
    }
  }

  lemma SparseGroups()
    ensures SPARSE.Valid() && Mapped(SPARSE.tx.up) && Groups(SPARSE.tx.up, None) == SPARSE_GROUPS
  {
    var up := SPARSE.tx.up;
    assert forall g :: 1 <= g < 7 ==> Groups(up, None)[g] == GroupFrom(up, None, g, 0) == Unused;
    LastInGroup(up, 7, 0);
    assert Groups(up, None)[0] == Of(BestEffort);
  }

  lemma SparseCounts(k: Kind)
    ensures Rank(SPARSE_GROUPS, k, 7) == (if k.BestEffort? then 1 else 0)
    ensures Count(SPARSE_GROUPS, k) == if k.FlowControlled? then 0 else 1
  {
    var gs := SPARSE_GROUPS;
    assert Rank(gs, k, 1) == if k.BestEffort? then 1 else 0;
    assert Rank(gs, k, 3) == Rank(gs, k, 1);
    assert Rank(gs, k, 5) == Rank(gs, k, 3);
    assert Rank(gs, k, 7) == Rank(gs, k, 5);
    assert Rank(gs, k, 8) == Rank(gs, k, 7) + if k.Strict? then 1 else 0;
  }

  lemma SparseClasses()
    ensures Types(SPARSE_GROUPS) == 2 && LeftoverClass(SPARSE_GROUPS, 3) == 1
    ensures ClassOf(SPARSE_GROUPS, 3, 0) == 0 && ClassOf(SPARSE_GROUPS, 3, 7) == 1
  {
    SparseCounts(BestEffort);
    SparseCounts(FlowControlled);
    SparseCounts(Strict);
  }

  lemma SparseBandwidth()
    requires Types(SPARSE_GROUPS) <= 3
    ensures ClassBandwidth(SPARSE_GROUPS, 3, SPARSE.tx.pgPercent, 1) == 40
  {
    var gs, pct := SPARSE_GROUPS, SPARSE.tx.pgPercent;
    SparseClasses();
    hide ClassOf, Types, LeftoverClass;
    assert ShareOf(gs, 3, pct, 1, 1) == 0 && TotalOf(gs, pct, 1) == 60;
    assert ShareOf(gs, 3, pct, 1, 3) == 0 && TotalOf(gs, pct, 3) == 60;
    assert ShareOf(gs, 3, pct, 1, 5) == 0 && TotalOf(gs, pct, 5) == 60;
    assert ShareOf(gs, 3, pct, 1, 7) == 0 && TotalOf(gs, pct, 7) == 60;
    assert ShareOf(gs, 3, pct, 1, 8) == 0 && TotalOf(gs, pct, 8) == 60;
  }

  /** With fewer groups than classes the promise at dcb_rule_chk.c:224 fails: the groups 0 and 7 do not
      fit three classes, the collapse puts the link strict priority on class 1, and that class gets
      the 40 percent the used groups leave over. */
  lemma LeftoverOnStrictClass()
    ensures SPARSE.Valid() && Mapped(SPARSE.tx.up) && !Fits(SPARSE.tx.up, SPARSE.numTcs)
    ensures FixUp(SPARSE, None).Some?
    ensures var r := FixUp(SPARSE, None).value;
            && r.tx.up[7].strict.LinkStrict? && r.tx.up[7].pgid == 1
            && (forall i :: 0 <= i < 7 ==> r.tx.up[i].pgid == 0)
            && r.tx.pgPercent[1] == 40 && r.rx.pgPercent[1] == 40
  {
    SparseGroups();
    SparseClasses();
    SparseBandwidth();
    assert SPARSE.tx.up[7].pgid == 7;
    hide ClassOf, Types, Groups, ClassBandwidth;
  }
}
