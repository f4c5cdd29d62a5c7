/** What dcb_fixup_pg does with the three types of traffic, in terms of the stored priorities and the flow
    control settings alone.
 */
module PgKinds {
  import opened Words
  import opened PgTypes
  import opened PriorityGroups
  import opened PgFixUp

  /** Priority `a` is the lowest of its group and so decides the group's type. */
  predicate Lowest(up: seq<Priority>, a: nat) {
    a < |up| && forall k :: 0 <= k < a ==> up[k].pgid != up[a].pgid
  }

  /** Flow control is switched on for priority `a`. */
  predicate On(pfc: Option<seq<bool>>, a: nat) {
    match pfc
    case None => false
    case Some(admin) => a < |admin| && admin[a]
  }

  predicate IsStrict(up: seq<Priority>, a: nat) {
    a < |up| && up[a].strict.LinkStrict?
  }

  predicate IsLossless(up: seq<Priority>, pfc: Option<seq<bool>>, a: nat) {
    a < |up| && !up[a].strict.LinkStrict? && On(pfc, a)
  }

  predicate IsPlain(up: seq<Priority>, pfc: Option<seq<bool>>, a: nat) {
    a < |up| && !up[a].strict.LinkStrict? && !On(pfc, a)
  }

  lemma {:induction false} LowestDecides(up: seq<Priority>, pfc: Option<seq<bool>>, a: nat, j: nat)
    requires Lowest(up, a) && j <= a
    ensures var g := GroupFrom(up, pfc, up[a].pgid, j);
            && (g == Of(Strict) <==> IsStrict(up, a)) && (g == Of(FlowControlled) <==> IsLossless(up, pfc, a))
            && (g == Of(BestEffort) <==> IsPlain(up, pfc, a))
    decreases a - j
  {
    if j < a {
      LowestDecides(up, pfc, a, j + 1);
    }
  }

  /** The lowest priority of a group from `j` on. */
  lemma {:induction false} FindLowest(up: seq<Priority>, g: nat, j: nat) returns (a: nat)
    requires j <= |up| && (forall k :: 0 <= k < j ==> up[k].pgid != g) && exists i :: j <= i < |up| && up[i].pgid == g
    ensures Lowest(up, a) && up[a].pgid == g
    decreases |up| - j
  {
    if up[j].pgid == g {
      a := j;
    } else {
      a := FindLowest(up, g, j + 1);
    }
  }

  /** Priorities that end in one class were in groups of one type: the lowest priorities of the two groups
      are both link strict, or neither is and flow control is on for both or for neither. */
  lemma JoinedAlike(pg: PgData, pfc: Option<seq<bool>>, i: nat, j: nat, a: nat, b: nat)
    requires pg.Valid() && Mapped(pg.tx.up) && FixUp(pg, pfc).Some? && i < PRIORITIES && j < PRIORITIES
    requires Lowest(pg.tx.up, a) && pg.tx.up[a].pgid == pg.tx.up[i].pgid
    requires Lowest(pg.tx.up, b) && pg.tx.up[b].pgid == pg.tx.up[j].pgid
    ensures var up, r := pg.tx.up, FixUp(pg, pfc).value.tx.up;
            r[i].pgid == r[j].pgid ==>
              && up[a].strict.LinkStrict? == up[b].strict.LinkStrict?
              && (!up[a].strict.LinkStrict? ==> (On(pfc, a) <==> On(pfc, b)))
  {
    CollapseKeepsGroups(pg, pfc, i, j);
    LowestDecides(pg.tx.up, pfc, a, 0);
    LowestDecides(pg.tx.up, pfc, b, 0);
    hide FixUp, GroupFrom;
  }

  /** A collapse lays the types out in order: best effort lowest, then flow controlled, then link strict. */
  lemma TypesInOrder(pg: PgData, pfc: Option<seq<bool>>, a: nat, b: nat)
    requires pg.Valid() && Mapped(pg.tx.up) && FixUp(pg, pfc).Some? && exists i :: 0 <= i < PRIORITIES && pg.tx.up[i].pgid >= pg.numTcs
    requires Lowest(pg.tx.up, a) && Lowest(pg.tx.up, b)
    ensures var up, r := pg.tx.up, FixUp(pg, pfc).value.tx.up;
            && (!IsStrict(up, a) && IsStrict(up, b) ==> r[a].pgid < r[b].pgid)
            && (IsPlain(up, pfc, a) && IsLossless(up, pfc, b) ==> r[a].pgid < r[b].pgid)
  {
    var gs := Groups(pg.tx.up, pfc);
    LowestDecides(pg.tx.up, pfc, a, 0);
    LowestDecides(pg.tx.up, pfc, b, 0);
    assert !Fits(pg.tx.up, pg.numTcs);
    hide GroupFrom, Fits;
    assert CollapsedTx(gs, pg.numTcs, pg.tx.up)[a].pgid == ClassOf(gs, pg.numTcs, pg.tx.up[a].pgid);
    assert CollapsedTx(gs, pg.numTcs, pg.tx.up)[b].pgid == ClassOf(gs, pg.numTcs, pg.tx.up[b].pgid);
  }

  /** One if some group is of the type that its lowest priority says. */
  function One(used: bool): nat {
    if used then 1 else 0
  }

  /** A type is counted if some lowest priority's group is of it. */
  lemma {:induction false} KindCounted(up: seq<Priority>, pfc: Option<seq<bool>>, k: Kind, n: nat)
    requires Mapped(up) && n <= GROUPS
    ensures Rank(Groups(up, pfc), k, n) > 0 <==>
            exists a: nat :: Lowest(up, a) && up[a].pgid < n && Groups(up, pfc)[up[a].pgid] == Of(k)
    decreases n
  {
    var gs := Groups(up, pfc);
    if n > 0 {
      KindCounted(up, pfc, k, n - 1);
      if gs[n - 1] == Of(k) {
        var a := FindLowest(up, n - 1, 0);
        assert Lowest(up, a) && up[a].pgid < n;
      }
    }
  }

  lemma TypesUsed(up: seq<Priority>, pfc: Option<seq<bool>>)
    requires Mapped(up)
    ensures Count(Groups(up, pfc), Strict) > 0 <==> exists a: nat :: Lowest(up, a) && IsStrict(up, a)
    ensures Count(Groups(up, pfc), FlowControlled) > 0 <==> exists a: nat :: Lowest(up, a) && IsLossless(up, pfc, a)
    ensures Count(Groups(up, pfc), BestEffort) > 0 <==> exists a: nat :: Lowest(up, a) && IsPlain(up, pfc, a)
  {
    forall a: nat | Lowest(up, a)
      ensures a < |up| && up[a].pgid < GROUPS
      ensures Groups(up, pfc)[up[a].pgid] == Of(Strict) <==> IsStrict(up, a)
      ensures Groups(up, pfc)[up[a].pgid] == Of(FlowControlled) <==> IsLossless(up, pfc, a)
      ensures Groups(up, pfc)[up[a].pgid] == Of(BestEffort) <==> IsPlain(up, pfc, a)
    {
      LowestDecides(up, pfc, a, 0);
    }
    KindCounted(up, pfc, Strict, GROUPS);
    KindCounted(up, pfc, FlowControlled, GROUPS);
    KindCounted(up, pfc, BestEffort, GROUPS);
    hide IsStrict, IsLossless, IsPlain, Groups, Rank;
  }

  /** The repair fails exactly if some group has no class of its own and there are fewer classes than types,
      a type being in use if some group's lowest priority is of it. */
  lemma FailsIff(pg: PgData, pfc: Option<seq<bool>>)
    requires pg.Valid() && Mapped(pg.tx.up)
    ensures var up := pg.tx.up;
            FixUp(pg, pfc).None? <==>
              && (exists i :: 0 <= i < PRIORITIES && up[i].pgid >= pg.numTcs)
              && pg.numTcs < One(exists a: nat :: Lowest(up, a) && IsStrict(up, a))
                           + One(exists a: nat :: Lowest(up, a) && IsLossless(up, pfc, a))
                           + One(exists a: nat :: Lowest(up, a) && IsPlain(up, pfc, a))
  {
    TypesUsed(pg.tx.up, pfc);
    hide Lowest, IsStrict, IsLossless, IsPlain, Groups, Rank, Collapse;
  }

  /** Classes are given out to link strict groups first, then to flow controlled ones, then to best effort:
      a type goes short only when those after it have no more than one class each, and no class is
      withheld while a group has to share. */
  lemma StrictServedFirst(gs: seq<Group>, numTcs: nat)
    requires Types(gs) <= numTcs
    ensures var q := Quotas(gs, numTcs);
            && (q.strict < Count(gs, Strict) ==> q.pfc <= 1 && q.be <= 1)
            && (q.pfc < Count(gs, FlowControlled) ==> q.be <= 1)
            && (q.be < Count(gs, BestEffort) ==> q.be + q.pfc + q.strict == numTcs)
            && (q.pfc < Count(gs, FlowControlled) ==> q.be + q.pfc + q.strict == numTcs)
            && (q.strict < Count(gs, Strict) ==> q.be + q.pfc + q.strict == numTcs)
  {
    hide Rank;
  }

  /** After a collapse every priority is alone in its transmit bandwidth group with all of it or, link
      strict, nothing; the receive side follows in group and percentage and keeps the rest. */
  lemma CollapsedPriorities(pg: PgData, pfc: Option<seq<bool>>, i: nat)
    requires pg.Valid() && Mapped(pg.tx.up) && FixUp(pg, pfc).Some? && i < PRIORITIES
    requires exists i :: 0 <= i < PRIORITIES && pg.tx.up[i].pgid >= pg.numTcs
    ensures var tx, rx, r := pg.tx.up[i], pg.rx.up[i], FixUp(pg, pfc).value;
            && r.tx.up[i].bwgid == i && r.tx.up[i].strict == tx.strict
            && r.tx.up[i].percent == (if tx.strict.LinkStrict? then 0 else 100)
            && r.rx.up[i] == rx.(pgid := r.tx.up[i].pgid, percent := r.tx.up[i].percent)
  {
    assert !Fits(pg.tx.up, pg.numTcs);
    hide Fits, Types, Groups;
  }

  // ---------- Bandwidth ----------

  /** Group `g` is in use, and its priorities are in class `c` of `now`. */
  predicate WentTo(up: seq<Priority>, now: seq<Priority>, g: int, c: int)
    requires |up| == |now|
  {
    exists i :: 0 <= i < |up| && up[i].pgid == g && now[i].pgid == c
  }

  /** Percentages of the groups that went to class `c`. */
  function Brought(pct: seq<u8>, up: seq<Priority>, now: seq<Priority>, c: int): seq<int>
    requires |up| == |now|
  {
    seq(|pct|, g requires 0 <= g < |pct| => if WentTo(up, now, g, c) then pct[g] else 0)
  }

  /** Percentages of the groups in use. */
  function InUse(pct: seq<u8>, up: seq<Priority>): seq<int> {
    seq(|pct|, g requires 0 <= g < |pct| => if exists i :: 0 <= i < |up| && up[i].pgid == g then pct[g] else 0)
  }

  lemma {:induction false} ShareIsBrought(pct: seq<u8>, up: seq<Priority>, pfc: Option<seq<bool>>, numTcs: nat, c: nat, g: nat)
    requires Mapped(up) && |up| == PRIORITIES && |pct| == GROUPS && g <= GROUPS && Types(Groups(up, pfc)) <= numTcs < 256
    ensures ShareOf(Groups(up, pfc), numTcs, pct, c, g) == Sum(Brought(pct, up, CollapsedTx(Groups(up, pfc), numTcs, up), c)[..g])
    ensures TotalOf(Groups(up, pfc), pct, g) == Sum(InUse(pct, up)[..g])
    decreases g
  {
    var gs, now := Groups(up, pfc), CollapsedTx(Groups(up, pfc), numTcs, up);
    if g > 0 {
      hide Types, ClassOf;
      ShareIsBrought(pct, up, pfc, numTcs, c, g - 1);
      assert Brought(pct, up, now, c)[..g][..g - 1] == Brought(pct, up, now, c)[..g - 1];
      assert InUse(pct, up)[..g][..g - 1] == InUse(pct, up)[..g - 1];
      assert gs[g - 1].Of? <==> exists i :: 0 <= i < PRIORITIES && up[i].pgid == g - 1;
      if i :| 0 <= i < PRIORITIES && up[i].pgid == g - 1 {
        assert now[i].pgid == ClassOf(gs, numTcs, g - 1);
      }
      assert WentTo(up, now, g - 1, c) <==> gs[g - 1].Of? && ClassOf(gs, numTcs, g - 1) == c;
    }
  }

  /** The classes that link strict groups, told by their lowest priorities, ended in. */
  function StrictClasses(up: seq<Priority>, now: seq<Priority>): set<int>
    requires |up| == |now|
  {
    set a | 0 <= a < |up| && Lowest(up, a) && IsStrict(up, a) :: now[a].pgid
  }

  function Between(lo: nat, n: nat): (r: set<int>)
    ensures |r| == n && forall x :: x in r <==> lo <= x < lo + n
  {
    if n == 0 then {} else Between(lo, n - 1) + {lo + n - 1}
  }

  lemma StrictClassCount(up: seq<Priority>, pfc: Option<seq<bool>>, numTcs: nat)
    requires Mapped(up) && |up| == PRIORITIES && Types(Groups(up, pfc)) <= numTcs < 256
    ensures |StrictClasses(up, CollapsedTx(Groups(up, pfc), numTcs, up))| == Quotas(Groups(up, pfc), numTcs).strict
  {
    var gs, now := Groups(up, pfc), CollapsedTx(Groups(up, pfc), numTcs, up);
    var q := Quotas(gs, numTcs);
    var base, all := q.Base(Strict), Between(q.Base(Strict), q.strict);
    forall a | 0 <= a < |up| && Lowest(up, a) && IsStrict(up, a) ensures now[a].pgid in all {
      LowestDecides(up, pfc, a, 0);
      assert gs[up[a].pgid] == Of(Strict);
      assert now[a].pgid == ClassOf(gs, numTcs, up[a].pgid);
    }
    forall c | c in all ensures c in StrictClasses(up, now) {
      StrictClassUsed(up, pfc, numTcs, c);
    }
    assert StrictClasses(up, now) == all;
  }

  lemma StrictClassUsed(up: seq<Priority>, pfc: Option<seq<bool>>, numTcs: nat, c: nat)
    requires Mapped(up) && |up| == PRIORITIES && Types(Groups(up, pfc)) <= numTcs < 256
    requires var q := Quotas(Groups(up, pfc), numTcs); q.Base(Strict) <= c < q.Base(Strict) + q.strict
    ensures c in StrictClasses(up, CollapsedTx(Groups(up, pfc), numTcs, up))
  {
    var gs, now := Groups(up, pfc), CollapsedTx(Groups(up, pfc), numTcs, up);
    var base := Quotas(gs, numTcs).Base(Strict);
    EvenSpread(gs, numTcs, Strict, c - base, 0);
    var g := LoadWitness(gs, numTcs, c, |gs|);
    var a := FindLowest(up, g, 0);
    LowestDecides(up, pfc, a, 0);
    assert gs[g].kind == Strict;
    hide ClassOf, Types, GroupFrom;
    assert now[a].pgid == ClassOf(gs, numTcs, up[a].pgid) == c;
  }

  /** A collapse gives each class, in both directions, what the groups that went to it had; what the groups
      in use leave of one hundred percent goes to the class whose number is the number of classes less
      the link strict ones less one. Stored in an unsigned byte. */
  lemma ClassesGetTheirGroups(pg: PgData, pfc: Option<seq<bool>>, c: nat)
    requires pg.Valid() && Mapped(pg.tx.up) && FixUp(pg, pfc).Some? && c < GROUPS
    requires exists i :: 0 <= i < PRIORITIES && pg.tx.up[i].pgid >= pg.numTcs
    ensures var up, pct, r := pg.tx.up, pg.tx.pgPercent, FixUp(pg, pfc).value;
            var rest := if c == pg.numTcs - |StrictClasses(up, r.tx.up)| - 1 then 100 - Sum(InUse(pct, up)) else 0;
            r.tx.pgPercent[c] == r.rx.pgPercent[c] == (Sum(Brought(pct, up, r.tx.up, c)) + rest) % 256
  {
    assert !Fits(pg.tx.up, pg.numTcs);
    var up, pct, gs := pg.tx.up, pg.tx.pgPercent, Groups(pg.tx.up, pfc);
    var now := CollapsedTx(gs, pg.numTcs, up);
    StrictClassCount(up, pfc, pg.numTcs);
    ShareIsBrought(pct, up, pfc, pg.numTcs, c, GROUPS);
    assert Brought(pct, up, now, c)[..GROUPS] == Brought(pct, up, now, c) && InUse(pct, up)[..GROUPS] == InUse(pct, up);
    hide Fits, Groups, Quotas, Types, Sum, ShareOf, TotalOf, Brought, InUse, StrictClasses;
  }

  // ---------- One lossless group among eight ----------

  /** Priority i in group i, none link strict, flow control on for priority 3 only, four classes: group 3
      has the highest class to itself. */
  lemma LosslessKeepsApart(i: nat)
    requires i < PRIORITIES && i != 3
    ensures var up := seq(8, i requires 0 <= i < 8 => Priority(i, i, 100, NoStrict));
            var t := Traffic([100, 0, 0, 0, 0, 0, 0, 0], up);
            var pfc := Some([false, false, false, true, false, false, false, false]);
            && FixUp(PgData(t, t, 4), pfc).Some?
            && FixUp(PgData(t, t, 4), pfc).value.tx.up[i].pgid < FixUp(PgData(t, t, 4), pfc).value.tx.up[3].pgid
  {
    var up := seq(8, i requires 0 <= i < 8 => Priority(i, i, 100, NoStrict));
    var t := Traffic([100, 0, 0, 0, 0, 0, 0, 0], up);
    var pfc := Some([false, false, false, true, false, false, false, false]);
    assert up[7].pgid == 7 && Lowest(up, i) && Lowest(up, 3);
    FailsIff(PgData(t, t, 4), pfc);
    TypesInOrder(PgData(t, t, 4), pfc, i, 3);
    hide FixUp, Lowest;
  }
}
