/** What the DCB rules of dcb_check_config promise about a configuration, in terms of its percentages and
    priorities alone.
 */
module PgRules {
  import opened Words
  import opened PgTypes
  import opened PgFixUp
  import opened RuleCheck

  // ---------- Totals ----------

  /** No link strict priority is in another group than an earlier one; 15 does not count as a group. */
  predicate OneStrict(up: seq<Priority>, n: nat)
    requires n <= |up|
  {
    forall i, j :: 0 <= i < j < n && up[i].strict.LinkStrict? && up[j].strict.LinkStrict? && up[i].pgid != 15 ==>
      up[j].pgid == up[i].pgid
  }

  /** The groups' percentages, nothing for a group that a link strict priority is in. */
  function Shared(t: Traffic): seq<int> {
    seq(|t.pgPercent|, g requires 0 <= g < |t.pgPercent| =>
      if exists i :: 0 <= i < |t.up| && t.up[i].strict.LinkStrict? && t.up[i].pgid == g then 0 else t.pgPercent[g])
  }

  /** Link strict priorities are in one group, and the other groups have one hundred percent, or nothing
      when every priority is link strict. Sums are those of an unsigned byte. */
  predicate GivenOut(t: Traffic) {
    && OneStrict(t.up, |t.up|)
    && var sum := Sum(Shared(t)) % 256;
       sum == 100 || (sum == 0 && forall i :: 0 <= i < |t.up| ==> t.up[i].strict.LinkStrict?)
  }

  lemma {:induction false} StrictGroupMeans(up: seq<Priority>, n: nat)
    requires n <= |up|
    ensures StrictGroup(up, n).Some? <==> OneStrict(up, n)
    ensures StrictGroup(up, n).Some? ==>
              var v := StrictGroup(up, n).value;
              && (v != 15 ==> exists i :: 0 <= i < n && up[i].strict.LinkStrict? && up[i].pgid == v)
              && (forall i :: 0 <= i < n && up[i].strict.LinkStrict? ==> up[i].pgid == v || up[i].pgid == 15)
    decreases n
  {
    if n > 0 {
      StrictGroupMeans(up, n - 1);
      var l := StrictGroup(up, n - 1);
      if l.Some? && l.value != 15 {
        var i :| 0 <= i < n - 1 && up[i].strict.LinkStrict? && up[i].pgid == l.value;
      }
    }
  }

  lemma SharedSum(t: Traffic)
    requires |t.pgPercent| == GROUPS && StrictGroup(t.up, |t.up|).Some?
    ensures Sum(Shared(t)) % 256 == TotalLess(t.pgPercent, StrictGroup(t.up, |t.up|).value)
  {
    var v := StrictGroup(t.up, |t.up|).value;
    StrictGroupMeans(t.up, |t.up|);
    hide StrictGroup, Sum;
    var pct: seq<int> := t.pgPercent;
    if v < GROUPS {
      SumAdd(pct, v, -pct[v]);
      assert Shared(t) == pct[v := pct[v] + -pct[v]];
    } else {
      assert Shared(t) == pct;
    }
  }

  /** The rule on totals accepts exactly what is given out. */
  lemma TotalsMean(t: Traffic)
    requires |t.pgPercent| == GROUPS
    ensures TotalOk(t) <==> GivenOut(t)
  {
    StrictGroupMeans(t.up, |t.up|);
    if StrictGroup(t.up, |t.up|).Some? {
      SharedSum(t);
    }
    hide StrictGroup, Sum, TotalLess, Shared, OneStrict;
  }

  // ---------- Percentages within bandwidth groups ----------

  /** The percentages of the members of bandwidth group `b`, nothing for the others. */
  function Within(up: seq<Priority>, b: int): seq<int> {
    seq(|up|, i requires 0 <= i < |up| => if up[i].bwgid == b then up[i].percent else 0)
  }

  /** Bandwidth groups exist, exactly link strict priorities have nothing within theirs, and a group's members
      have one hundred percent or nothing; a group with a link strict member may have any sum when the group
      itself has nothing. */
  predicate SplitUp(t: Traffic)
    requires |t.pgPercent| == 8
  {
    && (forall i :: 0 <= i < |t.up| ==> t.up[i].bwgid < 8 && (t.up[i].percent == 0 <==> t.up[i].strict.LinkStrict?))
    && forall b :: 0 <= b < 8 ==>
         var sum := Sum(Within(t.up, b)) % 256;
         || sum == 0
         || if exists i :: 0 <= i < |t.up| && t.up[i].bwgid == b && t.up[i].strict.LinkStrict?
            then t.pgPercent[b] == 0 else sum == 100
  }

  lemma {:induction false} GroupSumIs(up: seq<Priority>, b: int, n: nat)
    requires n <= |up|
    ensures GroupSum(up, b, n) == Sum(Within(up, b)[..n])
    decreases n
  {
    if n > 0 {
      GroupSumIs(up, b, n - 1);
      assert Within(up, b)[..n][..n - 1] == Within(up, b)[..n - 1];
    }
  }

  /** The rules on priorities accept exactly what is split up. */
  lemma SplitMeans(t: Traffic)
    requires |t.pgPercent| == GROUPS
    ensures PrioritiesOk(t.up) && BandwidthGroupsOk(t) <==> SplitUp(t)
  {
    forall b | 0 <= b < 8
      ensures BandwidthGroupOk(t, b) <==>
              || Sum(Within(t.up, b)) % 256 == 0
              || if exists i :: 0 <= i < |t.up| && t.up[i].bwgid == b && t.up[i].strict.LinkStrict?
                 then t.pgPercent[b] == 0 else Sum(Within(t.up, b)) % 256 == 100
    {
      GroupRuleMeans(t, b);
    }
    hide Sum, GroupSum, Within, BandwidthGroupOk;
  }

  /** The rules accept one direction exactly if its bandwidth is given out and split up. */
  lemma RulesMean(t: Traffic)
    requires |t.pgPercent| == GROUPS
    ensures TrafficOk(t) <==> GivenOut(t) && SplitUp(t)
  {
    TotalsMean(t);
    SplitMeans(t);
    hide GivenOut, TotalOk, SplitUp, PrioritiesOk, BandwidthGroupsOk;
  }

  lemma GroupRuleMeans(t: Traffic, b: nat)
    requires |t.pgPercent| == 8 && b < 8
    ensures BandwidthGroupOk(t, b) <==>
            || Sum(Within(t.up, b)) % 256 == 0
            || if exists i :: 0 <= i < |t.up| && t.up[i].bwgid == b && t.up[i].strict.LinkStrict?
               then t.pgPercent[b] == 0 else Sum(Within(t.up, b)) % 256 == 100
  {
    GroupSumIs(t.up, b, |t.up|);
    assert Within(t.up, b)[..|t.up|] == Within(t.up, b);
    hide Sum, GroupSum, Within;
  }

  // ---------- What an accepted configuration looks like ----------

  /** One hundred percent, or nothing for a link strict priority. */
  predicate AllOrNone(up: seq<Priority>) {
    forall i :: 0 <= i < |up| ==> up[i].percent == if up[i].strict.LinkStrict? then 0 else 100
  }

  lemma {:induction false} OneMember(up: seq<Priority>, b: nat, n: nat)
    requires n <= |up| && b < |up| && forall i :: 0 <= i < |up| ==> up[i].bwgid == i
    ensures Sum(Within(up, b)[..n]) == if b < n then up[b].percent else 0
    decreases n
  {
    if n > 0 {
      OneMember(up, b, n - 1);
      assert Within(up, b)[..n][..n - 1] == Within(up, b)[..n - 1];
    }
  }

  /** With every priority alone in its bandwidth group, splitting up leaves no choice. */
  lemma AloneSplits(t: Traffic)
    requires |t.pgPercent| == 8 && |t.up| == 8 && forall i :: 0 <= i < 8 ==> t.up[i].bwgid == i
    ensures SplitUp(t) <==> AllOrNone(t.up)
  {
    forall b | 0 <= b < 8 ensures Sum(Within(t.up, b)) == t.up[b].percent {
      OneMember(t.up, b, 8);
      assert Within(t.up, b)[..8] == Within(t.up, b);
    }
    hide Sum, Within;
    if SplitUp(t) {
      forall i | 0 <= i < 8 ensures t.up[i].percent == if t.up[i].strict.LinkStrict? then 0 else 100 {
        assert t.up[i].bwgid == i;
      }
    } else if AllOrNone(t.up) {
      forall b | 0 <= b < 8 ensures t.up[b].bwgid == b && t.up[b].percent in {0, 100} {
      }
    }
  }

  /** dcb_check_config accepts exactly if the groups can be repaired and then both directions are given out
      and split up. */
  lemma CheckAcceptsIff(pg: PgData, pfc: Option<seq<bool>>)
    requires pg.Valid() && Mapped(pg.tx.up)
    ensures var r := FixUp(pg, pfc);
            Judge(r).Success? <==>
              r.Some? && GivenOut(r.value.tx) && SplitUp(r.value.tx) && GivenOut(r.value.rx) && SplitUp(r.value.rx)
  {
    var r := FixUp(pg, pfc);
    hide FixUp, TrafficOk, GivenOut, SplitUp;
    if r.Some? {
      RulesMean(r.value.tx);
      RulesMean(r.value.rx);
    }
  }

  /** On the transmit side an accepted priority has all of its bandwidth group or, link strict, nothing. */
  lemma AcceptedTransmit(pg: PgData, pfc: Option<seq<bool>>)
    requires pg.Valid() && Mapped(pg.tx.up) && Judge(FixUp(pg, pfc)).Success?
    ensures var r := FixUp(pg, pfc).value; AllOrNone(r.tx.up) && forall i :: 0 <= i < PRIORITIES ==> r.tx.up[i].bwgid == i
  {
    CheckAcceptsIff(pg, pfc);
    var r := FixUp(pg, pfc).value;
    hide GivenOut, SplitUp, AllOrNone;
    AloneSplits(r.tx);
  }

  /** When every group has a class of its own nothing is repaired but the bandwidth groups: the
      configuration is accepted exactly if both directions are given out as they stand and every priority
      has all or, link strict, nothing. A client that supplies anything else is refused. */
  lemma FittingAcceptsIff(pg: PgData, pfc: Option<seq<bool>>)
    requires pg.Valid() && Mapped(pg.tx.up) && forall i :: 0 <= i < PRIORITIES ==> pg.tx.up[i].pgid < pg.numTcs
    ensures Judge(FixUp(pg, pfc)).Success? <==>
            GivenOut(pg.tx) && AllOrNone(pg.tx.up) && GivenOut(pg.rx) && AllOrNone(pg.rx.up)
  {
    CheckAcceptsIff(pg, pfc);
    var r := FixUp(pg, pfc).value;
    AloneSplits(r.tx);
    AloneSplits(r.rx);
    SameGivenOut(pg.tx, r.tx);
    SameGivenOut(pg.rx, r.rx);
    hide GivenOut, SplitUp;
  }

  /** Giving out depends on the groups, their percentages and who is link strict. */
  lemma SameGivenOut(s: Traffic, t: Traffic)
    requires s.pgPercent == t.pgPercent && |s.up| == |t.up|
    requires forall i :: 0 <= i < |s.up| ==> s.up[i].pgid == t.up[i].pgid && s.up[i].strict.LinkStrict? == t.up[i].strict.LinkStrict?
    ensures GivenOut(s) <==> GivenOut(t)
  {
    forall g | 0 <= g < |s.pgPercent| ensures Shared(s)[g] == Shared(t)[g] {
    }
    assert Shared(s) == Shared(t);
    hide Shared, Sum;
  }

  /** One hundred percent of bandwidth group 0 split among its eight members: refused, because the repair
      first puts every priority alone in a bandwidth group of its own. */
  lemma SplitIsRefused(pfc: Option<seq<bool>>)
    ensures var up := seq(8, i requires 0 <= i < 8 => Priority(0, 0, if i < 4 then 13 else 12, NoStrict));
            var t := Traffic([100, 0, 0, 0, 0, 0, 0, 0], up);
            Judge(FixUp(PgData(t, t, 8), pfc)).BadParams?
  {
    var up := seq(8, i requires 0 <= i < 8 => Priority(0, 0, if i < 4 then 13 else 12, NoStrict));
    var t := Traffic([100, 0, 0, 0, 0, 0, 0, 0], up);
    FittingAcceptsIff(PgData(t, t, 8), pfc);
    assert t.up[0].percent == 13;
    hide GivenOut;
  }

  // ---------- An all-zero configuration ----------

  /** Eight groups without bandwidth and nobody link strict: refused. */
  lemma NothingGivenOut(pfc: Option<seq<bool>>)
    ensures var t := Traffic([0, 0, 0, 0, 0, 0, 0, 0], seq(8, i requires 0 <= i < 8 => Priority(i, i, 100, NoStrict)));
            Judge(FixUp(PgData(t, t, 8), pfc)).BadParams?
  {
    var t := Traffic([0, 0, 0, 0, 0, 0, 0, 0], seq(8, i requires 0 <= i < 8 => Priority(i, i, 100, NoStrict)));
    FittingAcceptsIff(PgData(t, t, 8), pfc);
    ZeroSum(Shared(t));
    hide Sum, Shared;
    assert t.up[0].strict.NoStrict?;
  }
}
