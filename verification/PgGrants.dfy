/** What a client that asks for priority groups gets, field by field of its request: set_pg_config from the
    message to the attributes handed on.
 */
module PgGrants {
  import opened Words
  import opened PgTypes
  import opened PgFixUp
  import opened RuleCheck
  import opened PgRequest
  import opened PgRules

  // ---------- What the request asks for ----------

  /** A character that names the link strict group: f in either case, or low four bits 15. */
  predicate NamesStrict(c: u8) {
    c == 102 || c == 70 || c % 16 == 15
  }

  /** The group that priority `i` is put in if its group field is not supplied. */
  function Otherwise(q: Request, p: Priority, i: nat): int
    requires q.Valid() && i < PRIORITIES
  {
    match q.upToTc[i]
    case Value(v) => v % 8
    case _ => p.pgid
  }

  /** Priority `i`, not link strict, is to be in group `g`. */
  predicate AsksFor(q: Request, up: seq<Priority>, i: nat, g: int)
    requires q.Valid() && |up| == PRIORITIES && i < PRIORITIES
  {
    match q.pgid[i]
    case Value(v) => !NamesStrict(v) && v % 16 == g
    case _ => !up[i].strict.LinkStrict? && Otherwise(q, up[i], i) == g
  }

  predicate Wanted(q: Request, up: seq<Priority>, g: int)
    requires q.Valid() && |up| == PRIORITIES
  {
    exists i :: 0 <= i < PRIORITIES && AsksFor(q, up, i, g)
  }

  /** Priority `i` is to be link strict: its field says so; or no field was supplied, and it is stored in
      group 15, or is stored link strict and nobody wants the group it is in. */
  predicate ToBeStrict(q: Request, up: seq<Priority>, i: nat)
    requires q.Valid() && |up| == PRIORITIES && i < PRIORITIES
  {
    match q.pgid[i]
    case Value(v) => NamesStrict(v)
    case _ =>
      var g := Otherwise(q, up[i], i);
      g == 15 || (up[i].strict.LinkStrict? && !Wanted(q, up, g))
  }

  /** The lowest group that nobody wants. */
  predicate LowestFree(q: Request, up: seq<Priority>, g: int)
    requires q.Valid() && |up| == PRIORITIES
  {
    0 <= g && !Wanted(q, up, g) && forall h :: 0 <= h < g ==> Wanted(q, up, h)
  }

  /** The group strict bit is the field's lowest bit, or the stored one. */
  predicate GroupStrictAsked(q: Request, p: Priority, i: nat)
    requires q.Valid() && i < PRIORITIES
  {
    match q.groupStrict[i]
    case Value(v) => v % 2 == 1
    case _ => p.strict.GroupStrict? || p.strict.InvalidStrict?
  }

  /** Group, percentage and strictness of priority `i` of one direction as decoded, `side` being what was
      stored and `up` what was stored for transmission. */
  predicate AsAsked(q: Request, up: seq<Priority>, side: seq<Priority>, now: Priority, i: nat)
    requires q.Valid() && |up| == |side| == PRIORITIES && i < PRIORITIES
  {
    && (if ToBeStrict(q, up, i) then LowestFree(q, up, now.pgid) && now.strict.LinkStrict?
        else
          && now.pgid == (match q.pgid[i] case Value(v) => v % 16 case _ => Otherwise(q, side[i], i))
          && now.strict == if GroupStrictAsked(q, side[i], i) then GroupStrict else NoStrict)
    && now.percent == (match q.upPercent[i] case Value(v) => v case _ => side[i].percent)
    && now.bwgid == side[i].bwgid
  }

  /** Group percentages as asked: those supplied, the others as stored. */
  predicate PercentsAsAsked(q: Request, stored: seq<u8>, now: seq<u8>)
    requires q.Valid() && |stored| == GROUPS
  {
    |now| == GROUPS && forall g :: 0 <= g < GROUPS ==>
      now[g] == match q.pgPercent[g] case Value(v) => v case _ => stored[g]
  }

  lemma ClaimedIsWanted(q: Request, up: seq<Priority>, g: nat)
    requires q.Valid() && |up| == PRIORITIES && Stored(up) && g < GROUPS
    ensures Claimed(q, up, g) <==> Wanted(q, up, g)
  {
    forall i | 0 <= i < PRIORITIES ensures Claim(q, up[i], i) == g <==> AsksFor(q, up, i, g) {
    }
    hide Claim, AsksFor;
  }

  lemma MadeStrictAsAsked(q: Request, up: seq<Priority>, i: nat)
    requires q.Valid() && |up| == PRIORITIES && Stored(up) && i < PRIORITIES
    ensures MadeStrict(q, up, i) <==> ToBeStrict(q, up, i)
  {
    var g := ReadPgid(q, up[i], i);
    if g < GROUPS {
      ClaimedIsWanted(q, up, g);
      if q.pgid[i].Value? || !up[i].strict.LinkStrict? {
        assert Claim(q, up[i], i) == g;
      }
    }
    hide Claimed, Wanted;
  }

  lemma FreeAsAsked(q: Request, up: seq<Priority>, i: nat)
    requires q.Valid() && |up| == PRIORITIES && Stored(up) && i < PRIORITIES && MadeStrict(q, up, i)
    ensures Free(q, up) < GROUPS && LowestFree(q, up, Free(q, up))
  {
    StrictClaimsFifteen(q, up, i);
    SomeGroupIsFree(q, up, i);
    forall g | 0 <= g < GROUPS ensures Claimed(q, up, g) <==> Wanted(q, up, g) {
      ClaimedIsWanted(q, up, g);
    }
    hide Claimed, Wanted, Claim, MadeStrict;
  }

  /** Whatever the request, decoding does for each priority and direction what was asked, and so for the
      groups' percentages. */
  lemma DecodedAsAsked(q: Request, pg: PgData, i: nat)
    requires q.Valid() && pg.Valid() && Stored(pg.tx.up) && i < PRIORITIES && Accepts(pg, q)
    ensures AsAsked(q, pg.tx.up, pg.tx.up, Decode(q, pg).tx.up[i], i)
    ensures AsAsked(q, pg.tx.up, pg.rx.up, Decode(q, pg).rx.up[i], i)
    ensures PercentsAsAsked(q, pg.tx.pgPercent, Decode(q, pg).tx.pgPercent)
    ensures PercentsAsAsked(q, pg.rx.pgPercent, Decode(q, pg).rx.pgPercent)
  {
    MadeStrictAsAsked(q, pg.tx.up, i);
    if MadeStrict(q, pg.tx.up, i) {
      FreeAsAsked(q, pg.tx.up, i);
    } else {
      StrictClaimsFifteen(q, pg.tx.up, i);
    }
    hide MadeStrict, ToBeStrict, LowestFree, Claimed, Free;
  }

  // ---------- Groups that fit ----------

  /** Every group that will be in use has a class of its own number. */
  predicate GroupsFit(q: Request, pg: PgData)
    requires q.Valid() && pg.Valid()
  {
    forall i :: 0 <= i < PRIORITIES ==>
      if ToBeStrict(q, pg.tx.up, i) then exists g :: 0 <= g < pg.numTcs && LowestFree(q, pg.tx.up, g)
      else (match q.pgid[i] case Value(v) => v % 16 case _ => Otherwise(q, pg.tx.up[i], i)) < pg.numTcs
  }

  lemma FitsAsAsked(q: Request, pg: PgData)
    requires q.Valid() && pg.Valid() && Stored(pg.tx.up) && Accepts(pg, q)
    ensures GroupsFit(q, pg) <==> forall i :: 0 <= i < PRIORITIES ==> Decode(q, pg).tx.up[i].pgid < pg.numTcs
  {
    forall i | 0 <= i < PRIORITIES
      ensures Decode(q, pg).tx.up[i].pgid < pg.numTcs <==>
        if ToBeStrict(q, pg.tx.up, i) then exists g :: 0 <= g < pg.numTcs && LowestFree(q, pg.tx.up, g)
        else (match q.pgid[i] case Value(v) => v % 16 case _ => Otherwise(q, pg.tx.up[i], i)) < pg.numTcs
    {
      DecodedAsAsked(q, pg, i);
      hide Decode, ToBeStrict, Wanted;
    }
    hide Decode, ToBeStrict, LowestFree;
  }

  // ---------- What is handed on ----------

  /** What a priority is left with within its bandwidth group. */
  function Share(q: Request, up: seq<Priority>, i: nat): int
    requires q.Valid() && |up| == PRIORITIES && i < PRIORITIES
  {
    if ToBeStrict(q, up, i) then 0 else 100
  }

  /** The daemon has to work out the percentages: the client supplied none, and some stored one is neither
      all nor, link strict, nothing. */
  predicate Rebalances(q: Request, pg: PgData)
    requires q.Valid() && pg.Valid()
  {
    && (forall i :: 0 <= i < PRIORITIES ==> q.upPercent[i].NotSupplied?)
    && exists i :: 0 <= i < PRIORITIES &&
         (pg.tx.up[i].percent != Share(q, pg.tx.up, i) || pg.rx.up[i].percent != Share(q, pg.tx.up, i))
  }

  /** Priority `i` of one direction as handed on: alone in its bandwidth group with all of it or nothing,
      otherwise as asked, except that rebalancing clears the group strict bit. */
  predicate Given(q: Request, pg: PgData, side: seq<Priority>, now: Priority, i: nat)
    requires q.Valid() && pg.Valid() && |side| == PRIORITIES && i < PRIORITIES
  {
    && now.bwgid == i && now.percent == Share(q, pg.tx.up, i)
    && (q.upPercent[i].Value? ==> now.percent == q.upPercent[i].v)
    && (if ToBeStrict(q, pg.tx.up, i) then LowestFree(q, pg.tx.up, now.pgid) && now.strict.LinkStrict?
        else
          && now.pgid == (match q.pgid[i] case Value(v) => v % 16 case _ => Otherwise(q, side[i], i))
          && now.strict == if GroupStrictAsked(q, side[i], i) && !Rebalances(q, pg) then GroupStrict else NoStrict)
  }

  /** The client gets what it asked for. */
  predicate TakesEffect(q: Request, pg: PgData, r: PgData)
    requires q.Valid() && pg.Valid() && r.Valid()
  {
    && PercentsAsAsked(q, pg.tx.pgPercent, r.tx.pgPercent) && PercentsAsAsked(q, pg.rx.pgPercent, r.rx.pgPercent)
    && forall i :: 0 <= i < PRIORITIES ==>
         Given(q, pg, pg.tx.up, r.tx.up[i], i) && Given(q, pg, pg.rx.up, r.rx.up[i], i)
  }

  /** Fitting attributes that the rules accept are handed on with priorities alone in their bandwidth groups. */
  lemma HandedOn(d: PgData)
    requires d.Valid() && Mapped(d.tx.up) && forall i :: 0 <= i < PRIORITIES ==> d.tx.up[i].pgid < d.numTcs
    requires forall i :: 0 <= i < PRIORITIES ==> d.tx.up[i].strict.LinkStrict? == d.rx.up[i].strict.LinkStrict?
    ensures Judge(FixUp(d, None)).Success? ==>
              AllOrNone(d.tx.up) && AllOrNone(d.rx.up) && Outcome(d) == d.(tx := d.tx.(up := OneToOne(d.tx.up)), rx := d.rx.(up := OneToOne(d.rx.up)))
    ensures Judge(FixUp(d, None)).BadParams? <==> !Judge(FixUp(d, None)).Success?
    ensures !Judge(FixUp(d, None)).Success? && Settle(d, true).Success? ==> !AllOrNone(d.tx.up) || !AllOrNone(d.rx.up)
    ensures !Judge(FixUp(d, None)).Success? && Settle(d, true).Success? ==>
              Outcome(d) == d.(tx := d.tx.(up := OneToOne(Evened(d.tx.up))), rx := d.rx.(up := OneToOne(Evened(d.rx.up))))
  {
    FittingAcceptsIff(d, None);
    var f := FixUp(d, None).value;
    assert f == d.(tx := d.tx.(up := OneToOne(d.tx.up)), rx := d.rx.(up := OneToOne(d.rx.up)));
    if !Judge(FixUp(d, None)).Success? {
      StillMapped(d);
      RebalancedIsEvened(f.tx.up, f.tx.up);
      RebalancedIsEvened(f.tx.up, f.rx.up);
      var e := Rebalance(f);
      FittingAcceptsIff(e, None);
      SameGivenOut(d.tx, e.tx);
      SameGivenOut(d.rx, e.rx);
      assert OneToOne(Evened(f.tx.up)) == OneToOne(Evened(d.tx.up)) && OneToOne(Evened(f.rx.up)) == OneToOne(Evened(d.rx.up));
    }
  }

  /** Priorities of one after rebalancing. */
  function Evened(up: seq<Priority>): (r: seq<Priority>)
    requires |up| == PRIORITIES
    ensures |r| == PRIORITIES
  {
    seq(PRIORITIES, i requires 0 <= i < PRIORITIES =>
      if up[i].strict.LinkStrict? then up[i].(percent := 0) else up[i].(percent := 100, strict := NoStrict))
  }

  lemma RebalancedIsEvened(shape: seq<Priority>, up: seq<Priority>)
    requires |shape| == |up| == PRIORITIES && Alone(shape)
    requires forall i :: 0 <= i < PRIORITIES ==> shape[i].strict.LinkStrict? == up[i].strict.LinkStrict?
    ensures Rebalanced(shape, up) == Evened(up)
  {
    forall i | 0 <= i < PRIORITIES ensures Rebalanced(shape, up)[i] == Evened(up)[i] {
      RebalancedAlone(shape, up, i);
      assert HasStrict(shape, i) <==> shape[i].strict.LinkStrict?;
    }
  }

  lemma StrictAgree(q: Request, pg: PgData, i: nat)
    requires q.Valid() && pg.Valid() && Stored(pg.tx.up) && i < PRIORITIES
    ensures Decode(q, pg).tx.up[i].strict.LinkStrict? <==> ToBeStrict(q, pg.tx.up, i)
    ensures Decode(q, pg).rx.up[i].strict.LinkStrict? <==> ToBeStrict(q, pg.tx.up, i)
  {
    MadeStrictAsAsked(q, pg.tx.up, i);
    hide MadeStrict, ToBeStrict, Free;
  }

  /** The percentage supplied for priority `i`, or else both stored ones, is all or, link strict, nothing. */
  predicate PercentFits(q: Request, pg: PgData, i: nat)
    requires q.Valid() && pg.Valid() && i < PRIORITIES
  {
    match q.upPercent[i]
    case Value(v) => v == Share(q, pg.tx.up, i)
    case _ => pg.tx.up[i].percent == pg.rx.up[i].percent == Share(q, pg.tx.up, i)
  }

  lemma DecodedPercentFits(q: Request, pg: PgData, i: nat)
    requires q.Valid() && pg.Valid() && Stored(pg.tx.up) && Accepts(pg, q) && i < PRIORITIES
    ensures PercentFits(q, pg, i) <==>
            && Decode(q, pg).tx.up[i].percent == (if Decode(q, pg).tx.up[i].strict.LinkStrict? then 0 else 100)
            && Decode(q, pg).rx.up[i].percent == (if Decode(q, pg).rx.up[i].strict.LinkStrict? then 0 else 100)
  {
    DecodedAsAsked(q, pg, i);
    StrictAgree(q, pg, i);
    hide Decode, ToBeStrict, LowestFree, Accepts;
  }

  lemma DecodedAllOrNone(q: Request, pg: PgData)
    requires q.Valid() && pg.Valid() && Stored(pg.tx.up) && Accepts(pg, q)
    ensures AllOrNone(Decode(q, pg).tx.up) && AllOrNone(Decode(q, pg).rx.up) <==>
            forall i :: 0 <= i < PRIORITIES ==> PercentFits(q, pg, i)
  {
    forall i | 0 <= i < PRIORITIES
      ensures PercentFits(q, pg, i) <==>
              && Decode(q, pg).tx.up[i].percent == (if Decode(q, pg).tx.up[i].strict.LinkStrict? then 0 else 100)
              && Decode(q, pg).rx.up[i].percent == (if Decode(q, pg).rx.up[i].strict.LinkStrict? then 0 else 100)
    {
      DecodedPercentFits(q, pg, i);
    }
    hide Decode, PercentFits, Accepts;
  }

  /** A request that is malformed, or names a class the device does not have, is refused. */
  lemma MalformedIsRefused(q: Request, pg: PgData)
    requires q.Valid() && pg.Valid() && Stored(pg.tx.up)
    ensures (exists g :: 0 <= g < GROUPS && q.pgPercent[g].Malformed?) ==> SetPg(q, pg).BadParams?
    ensures (exists i :: 0 <= i < PRIORITIES && q.upPercent[i].Malformed?) ==> SetPg(q, pg).BadParams?
    ensures (exists i :: 0 <= i < PRIORITIES && q.upToTc[i].Value? && q.upToTc[i].v % 8 >= pg.numTcs) ==> SetPg(q, pg).BadParams?
  {
  }

  /** A well-formed request for groups that fit passes exactly if both directions are then given out and, when
      the client supplied some percentage, all percentages are all or, link strict, nothing. */
  lemma FittingPassesIff(q: Request, pg: PgData)
    requires q.Valid() && pg.Valid() && Stored(pg.tx.up) && Accepts(pg, q) && GroupsFit(q, pg)
    ensures SetPg(q, pg).Success? <==>
            && GivenOut(Decode(q, pg).tx) && GivenOut(Decode(q, pg).rx)
            && ((exists i :: 0 <= i < PRIORITIES && q.upPercent[i].Value?) ==>
                  forall i :: 0 <= i < PRIORITIES ==> PercentFits(q, pg, i))
  {
    DecodedIsMapped(q, pg);
    FitsAsAsked(q, pg);
    DecodedAllOrNone(q, pg);
    if PercentsSupplied(q) {
      FittingAcceptsIff(Decode(q, pg), None);
      hide Decode, GivenOut, AllOrNone, PercentFits, GroupsFit;
    } else {
      PassesIff(q, pg);
      FittingTotals(Decode(q, pg));
      hide Decode, GivenOut, PercentFits, GroupsFit;
    }
  }

  /** Repairing attributes whose groups fit leaves the totals alone. */
  lemma FittingTotals(d: PgData)
    requires d.Valid() && Mapped(d.tx.up) && forall i :: 0 <= i < PRIORITIES ==> d.tx.up[i].pgid < d.numTcs
    ensures FixUp(d, None).Some? && (GivenOut(FixUp(d, None).value.tx) <==> GivenOut(d.tx))
    ensures GivenOut(FixUp(d, None).value.rx) <==> GivenOut(d.rx)
  {
    var f := FixUp(d, None).value;
    assert f == d.(tx := d.tx.(up := OneToOne(d.tx.up)), rx := d.rx.(up := OneToOne(d.rx.up)));
    SameGivenOut(d.tx, f.tx);
    SameGivenOut(d.rx, f.rx);
  }

  lemma HandedOnAsAsked(q: Request, pg: PgData, d: PgData, i: nat)
    requires q.Valid() && pg.Valid() && d.Valid() && i < PRIORITIES
    requires AsAsked(q, pg.tx.up, pg.tx.up, d.tx.up[i], i) && AsAsked(q, pg.tx.up, pg.rx.up, d.rx.up[i], i)
    ensures Rebalances(q, pg) ==>
              && Given(q, pg, pg.tx.up, OneToOne(Evened(d.tx.up))[i], i)
              && Given(q, pg, pg.rx.up, OneToOne(Evened(d.rx.up))[i], i)
    ensures !Rebalances(q, pg) && d.tx.up[i].percent == d.rx.up[i].percent == Share(q, pg.tx.up, i) ==>
              && Given(q, pg, pg.tx.up, OneToOne(d.tx.up)[i], i)
              && Given(q, pg, pg.rx.up, OneToOne(d.rx.up)[i], i)
  {
    hide LowestFree, ToBeStrict, Otherwise;
    assert Rebalances(q, pg) ==> q.upPercent[i].NotSupplied?;
    hide Rebalances;
  }

  lemma RebalancesIff(q: Request, pg: PgData)
    requires q.Valid() && pg.Valid() && Stored(pg.tx.up) && Accepts(pg, q)
    ensures Rebalances(q, pg) <==>
              !PercentsSupplied(q) && !(AllOrNone(Decode(q, pg).tx.up) && AllOrNone(Decode(q, pg).rx.up))
  {
    DecodedAllOrNone(q, pg);
    hide Decode, AllOrNone, Share;
    if !PercentsSupplied(q) {
      forall i | 0 <= i < PRIORITIES
        ensures PercentFits(q, pg, i) <==> pg.tx.up[i].percent == pg.rx.up[i].percent == Share(q, pg.tx.up, i)
      {
      }
    }
  }

  /** The attributes handed on are the decoded ones, rebalanced first if they have to be, each priority alone in
      its bandwidth group. */
  lemma GrantedAs(q: Request, pg: PgData)
    requires q.Valid() && pg.Valid() && Stored(pg.tx.up) && SetPg(q, pg).Success? && GroupsFit(q, pg)
    ensures var d := Decode(q, pg);
            if Rebalances(q, pg) then
              PassedOn(q, pg) == d.(tx := d.tx.(up := OneToOne(Evened(d.tx.up))), rx := d.rx.(up := OneToOne(Evened(d.rx.up))))
            else
              && PassedOn(q, pg) == d.(tx := d.tx.(up := OneToOne(d.tx.up)), rx := d.rx.(up := OneToOne(d.rx.up)))
              && AllOrNone(d.tx.up) && AllOrNone(d.rx.up)
  {
    DecodedIsMapped(q, pg);
    AcceptedFirst(q, pg);
    FitsAsAsked(q, pg);
    RebalancesIff(q, pg);
    forall i | 0 <= i < PRIORITIES
      ensures Decode(q, pg).tx.up[i].strict.LinkStrict? == Decode(q, pg).rx.up[i].strict.LinkStrict?
    {
      StrictAgree(q, pg, i);
    }
    HandedOn(Decode(q, pg));
    hide Decode, FixUp, Judge, GroupsFit, OneToOne, Evened, Rebalances, AllOrNone, Accepts, PercentsSupplied, Outcome;
  }

  /** What passes is what was asked: for a request whose groups fit, every group percentage supplied is in
      the attributes handed on, in both directions, and every other one is as stored; every priority is in the
      group asked for and alone in its bandwidth group with the percentage supplied; and it has the group
      strict bit asked for unless the percentages had to be rebalanced, which clears it. */
  lemma RequestTakesEffect(q: Request, pg: PgData)
    requires q.Valid() && pg.Valid() && Stored(pg.tx.up) && SetPg(q, pg).Success? && GroupsFit(q, pg)
    ensures TakesEffect(q, pg, PassedOn(q, pg))
  {
    GrantedAs(q, pg);
    var d := Decode(q, pg);
    hide SetPg, GroupsFit, Rebalances, Decode, PassedOn, OneToOne, Evened, Given, AsAsked, PercentsAsAsked;
    forall i | 0 <= i < PRIORITIES
      ensures Given(q, pg, pg.tx.up, PassedOn(q, pg).tx.up[i], i) && Given(q, pg, pg.rx.up, PassedOn(q, pg).rx.up[i], i)
    {
      AcceptedFirst(q, pg);
      DecodedAsAsked(q, pg, i);
      StrictAgree(q, pg, i);
      HandedOnAsAsked(q, pg, d, i);
    }
    AcceptedFirst(q, pg);
    DecodedAsAsked(q, pg, 0);
  }

  lemma AcceptedFirst(q: Request, pg: PgData)
    requires q.Valid() && pg.Valid() && Stored(pg.tx.up) && SetPg(q, pg).Success?
    ensures Accepts(pg, q)
  {
  }
}
