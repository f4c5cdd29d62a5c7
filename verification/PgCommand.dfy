/** set_pg_config (lldp_dcbx_cmds.c) in its own steps: successive passes over the request that update
    a port's attribute tables, then check, rebalance and check again.
 */
module PgCommand {
  import opened Words
  import opened PgTypes
  import opened PgFixUp
  import opened RuleCheck
  import opened PgRequest
  import opened PgAttribs
  import opened PgRules
  import opened PgGrants

  // ---------- One priority through the passes ----------

  function ClassRead(q: Request, p: Priority, i: nat): Priority
    requires q.Valid() && i < PRIORITIES
  {
    if q.upToTc[i].Value? then p.(pgid := q.upToTc[i].v % 8) else p
  }

  function GroupRead(q: Request, p: Priority, i: nat): Priority
    requires q.Valid() && i < PRIORITIES
  {
    if q.pgid[i].Value? then p.(pgid := Pgid(q.pgid[i].v)) else p
  }

  function BitsRead(q: Request, p: Priority, i: nat): Priority
    requires q.Valid() && i < PRIORITIES
  {
    p.(percent := Or(q.upPercent[i], p.percent), strict := WithGroupBit(p.strict, q.groupStrict[i]))
  }

  function Placed(p: Priority, moved: bool, free: u8): Priority {
    if moved then p.(pgid := free, strict := LinkStrict) else p.(strict := WithoutLinkBit(p.strict))
  }

  lemma PassesDecode(q: Request, up: seq<Priority>, side: seq<Priority>, i: nat)
    requires q.Valid() && |up| == |side| == PRIORITIES && i < PRIORITIES
    ensures DecodedPriority(q, up, side, i) ==
            Placed(BitsRead(q, GroupRead(q, ClassRead(q, side[i], i), i), i), MadeStrict(q, up, i), Free(q, up))
  {
  }

  // ---------- The passes ----------

  method ReadClasses(a: Attribs, q: Request) returns (ok: bool)
    requires a.Valid() && q.Valid()
    modifies a.txUp, a.rxUp
    ensures ok <==> forall i :: 0 <= i < PRIORITIES && q.upToTc[i].Value? ==> q.upToTc[i].v % 8 < a.numTcs
    ensures ok ==> forall i :: 0 <= i < PRIORITIES ==>
              a.txUp[i] == ClassRead(q, old(a.txUp[i]), i) && a.rxUp[i] == ClassRead(q, old(a.rxUp[i]), i)
  {
    for i := 0 to PRIORITIES
      invariant forall j :: 0 <= j < i && q.upToTc[j].Value? ==> q.upToTc[j].v % 8 < a.numTcs
      invariant forall j :: 0 <= j < i ==>
                  a.txUp[j] == ClassRead(q, old(a.txUp[j]), j) && a.rxUp[j] == ClassRead(q, old(a.rxUp[j]), j)
      invariant forall j :: i <= j < PRIORITIES ==> a.txUp[j] == old(a.txUp[j]) && a.rxUp[j] == old(a.rxUp[j])
    {
      if q.upToTc[i].Value? {
        var c := q.upToTc[i].v % 8;
        if c >= a.numTcs {
          return false;
        }
        a.txUp[i] := a.txUp[i].(pgid := c);
        a.rxUp[i] := a.rxUp[i].(pgid := c);
      }
    }
    ok := true;
  }

  method ReadPercents(a: Attribs, q: Request) returns (ok: bool)
    requires a.Valid() && q.Valid()
    modifies a.txPct, a.rxPct
    ensures ok <==> forall i :: 0 <= i < GROUPS ==> !q.pgPercent[i].Malformed?
    ensures ok ==> a.txPct[..] == DecodedPercent(q, old(a.txPct[..])) && a.rxPct[..] == DecodedPercent(q, old(a.rxPct[..]))
  {
    for i := 0 to GROUPS
      invariant forall j :: 0 <= j < i ==> !q.pgPercent[j].Malformed?
      invariant forall j :: 0 <= j < i ==>
                  a.txPct[j] == Or(q.pgPercent[j], old(a.txPct[j])) && a.rxPct[j] == Or(q.pgPercent[j], old(a.rxPct[j]))
      invariant forall j :: i <= j < GROUPS ==> a.txPct[j] == old(a.txPct[j]) && a.rxPct[j] == old(a.rxPct[j])
    {
      if q.pgPercent[i].Malformed? {
        return false;
      }
      if q.pgPercent[i].Value? {
        a.txPct[i] := q.pgPercent[i].v;
        a.rxPct[i] := q.pgPercent[i].v;
      }
    }
    ok := true;
  }

  /** The group that priority `p`, its class read, claims. */
  function ClaimOf(q: Request, p: Priority, i: nat): u8
    requires q.Valid() && i < PRIORITIES
  {
    if q.pgid[i].Value? then Pgid(q.pgid[i].v)
    else if p.strict.LinkStrict? then LINK_STRICT_PGID else p.pgid
  }

  method ReadGroups(a: Attribs, q: Request) returns (used: array<bool>)
    requires a.Valid() && q.Valid()
    modifies a.txUp, a.rxUp
    ensures fresh(used) && used.Length == GROUPS
    ensures forall g :: 0 <= g < GROUPS ==>
              used[g] == exists i :: 0 <= i < PRIORITIES && ClaimOf(q, old(a.txUp[i]), i) == g
    ensures forall i :: 0 <= i < PRIORITIES ==>
              a.txUp[i] == GroupRead(q, old(a.txUp[i]), i) && a.rxUp[i] == GroupRead(q, old(a.rxUp[i]), i)
  {
    used := new bool[GROUPS](_ => false);
    ghost var t := a.txUp[..];
    for i := 0 to PRIORITIES
      invariant forall g :: 0 <= g < GROUPS ==> used[g] == exists j :: 0 <= j < i && ClaimOf(q, t[j], j) == g
      invariant forall j :: 0 <= j < i ==> a.txUp[j] == GroupRead(q, t[j], j) && a.rxUp[j] == GroupRead(q, old(a.rxUp[j]), j)
      invariant forall j :: i <= j < PRIORITIES ==> a.txUp[j] == t[j] && a.rxUp[j] == old(a.rxUp[j])
    {
      var g: u8;
      if q.pgid[i].Value? {
        g := Pgid(q.pgid[i].v);
        a.txUp[i] := a.txUp[i].(pgid := g);
        a.rxUp[i] := a.rxUp[i].(pgid := g);
      } else if a.txUp[i].strict.LinkStrict? {
        g := LINK_STRICT_PGID;
      } else {
        g := a.txUp[i].pgid;
      }
      assert g == ClaimOf(q, t[i], i);
      if g < GROUPS {
        used[g] := true;
      }
    }
  }

  /** Percentages within groups; `changed` when the client supplied any. */
  method ReadUpPercents(a: Attribs, q: Request) returns (ok: bool, changed: bool)
    requires a.Valid() && q.Valid()
    modifies a.txUp, a.rxUp
    ensures ok <==> forall i :: 0 <= i < PRIORITIES ==> !q.upPercent[i].Malformed?
    ensures ok ==> changed == PercentsSupplied(q)
    ensures ok ==> forall i :: 0 <= i < PRIORITIES ==>
              && a.txUp[i] == old(a.txUp[i]).(percent := Or(q.upPercent[i], old(a.txUp[i]).percent))
              && a.rxUp[i] == old(a.rxUp[i]).(percent := Or(q.upPercent[i], old(a.rxUp[i]).percent))
  {
    changed := false;
    for i := 0 to PRIORITIES
      invariant forall j :: 0 <= j < i ==> !q.upPercent[j].Malformed?
      invariant changed == exists j :: 0 <= j < i && !q.upPercent[j].NotSupplied?
      invariant forall j :: 0 <= j < i ==>
                  && a.txUp[j] == old(a.txUp[j]).(percent := Or(q.upPercent[j], old(a.txUp[j]).percent))
                  && a.rxUp[j] == old(a.rxUp[j]).(percent := Or(q.upPercent[j], old(a.rxUp[j]).percent))
      invariant forall j :: i <= j < PRIORITIES ==> a.txUp[j] == old(a.txUp[j]) && a.rxUp[j] == old(a.rxUp[j])
    {
      if !q.upPercent[i].NotSupplied? {
        changed := true;
        if q.upPercent[i].Malformed? {
          return false, changed;
        }
        a.txUp[i] := a.txUp[i].(percent := q.upPercent[i].v);
        a.rxUp[i] := a.rxUp[i].(percent := q.upPercent[i].v);
      }
    }
    ok := true;
  }

  /** Only the group strict bit is the client's to set or clear. */
  method ReadStrictBits(a: Attribs, q: Request)
    requires a.Valid() && q.Valid()
    modifies a.txUp, a.rxUp
    ensures forall i :: 0 <= i < PRIORITIES ==>
              && a.txUp[i] == old(a.txUp[i]).(strict := WithGroupBit(old(a.txUp[i]).strict, q.groupStrict[i]))
              && a.rxUp[i] == old(a.rxUp[i]).(strict := WithGroupBit(old(a.rxUp[i]).strict, q.groupStrict[i]))
  {
    for i := 0 to PRIORITIES
      invariant forall j :: 0 <= j < i ==>
                  && a.txUp[j] == old(a.txUp[j]).(strict := WithGroupBit(old(a.txUp[j]).strict, q.groupStrict[j]))
                  && a.rxUp[j] == old(a.rxUp[j]).(strict := WithGroupBit(old(a.rxUp[j]).strict, q.groupStrict[j]))
      invariant forall j :: i <= j < PRIORITIES ==> a.txUp[j] == old(a.txUp[j]) && a.rxUp[j] == old(a.rxUp[j])
    {
      if q.groupStrict[i].Value? {
        var on := q.groupStrict[i].v % 2 == 1;
        a.txUp[i] := a.txUp[i].(strict := Bits(on, LinkBit(a.txUp[i].strict)));
        a.rxUp[i] := a.rxUp[i].(strict := Bits(on, LinkBit(a.rxUp[i].strict)));
      }
    }
  }

  method FirstUnused(used: array<bool>) returns (free: nat)
    requires used.Length == GROUPS
    ensures free <= GROUPS && (forall g :: 0 <= g < free ==> used[g]) && (free < GROUPS ==> !used[free])
  {
    free := 0;
    while free < GROUPS && used[free]
      invariant free <= GROUPS && forall g :: 0 <= g < free ==> used[g]
    {
      free := free + 1;
    }
  }

  /** Whether the last pass makes a priority link strict. */
  ghost predicate Moves(used: array<bool>, p: Priority)
    requires used.Length == GROUPS
    reads used
  {
    p.pgid == LINK_STRICT_PGID || (p.pgid < GROUPS && !used[p.pgid] && LinkBit(p.strict))
  }

  /** Put the link strict priorities in the free group. */
  method Renumber(a: Attribs, used: array<bool>, free: u8)
    requires a.Valid() && used.Length == GROUPS
    requires forall i :: 0 <= i < PRIORITIES ==> a.txUp[i].pgid < GROUPS || a.txUp[i].pgid == LINK_STRICT_PGID
    modifies a.txUp, a.rxUp
    ensures forall i :: 0 <= i < PRIORITIES ==>
              && a.txUp[i] == Placed(old(a.txUp[i]), old(Moves(used, a.txUp[i])), free)
              && a.rxUp[i] == Placed(old(a.rxUp[i]), old(Moves(used, a.txUp[i])), free)
  {
    for i := 0 to PRIORITIES
      invariant forall j :: 0 <= j < i ==>
                  && a.txUp[j] == Placed(old(a.txUp[j]), old(Moves(used, a.txUp[j])), free)
                  && a.rxUp[j] == Placed(old(a.rxUp[j]), old(Moves(used, a.txUp[j])), free)
      invariant forall j :: i <= j < PRIORITIES ==> a.txUp[j] == old(a.txUp[j]) && a.rxUp[j] == old(a.rxUp[j])
    {
      var p := a.txUp[i];
      if p.pgid == LINK_STRICT_PGID || (!used[p.pgid] && LinkBit(p.strict)) {
        a.txUp[i] := p.(pgid := free, strict := LinkStrict);
        a.rxUp[i] := a.rxUp[i].(pgid := free, strict := LinkStrict);
      } else {
        a.txUp[i] := p.(strict := WithoutLinkBit(p.strict));
        a.rxUp[i] := a.rxUp[i].(strict := WithoutLinkBit(a.rxUp[i].strict));
      }
    }
  }

  // ---------- The command ----------

  /** A priority on its way through the passes before renumbering. */
  function Read(q: Request, p: Priority, i: nat): Priority
    requires q.Valid() && i < PRIORITIES
  {
    BitsRead(q, GroupRead(q, ClassRead(q, p, i), i), i)
  }

  ghost predicate AllRead(q: Request, was: seq<Priority>, now: seq<Priority>)
    requires q.Valid()
  {
    |was| == |now| == PRIORITIES && forall i :: 0 <= i < PRIORITIES ==> now[i] == Read(q, was[i], i)
  }

  ghost predicate MarksClaims(used: array<bool>, q: Request, up: seq<Priority>)
    requires q.Valid() && |up| == PRIORITIES
    reads used
  {
    used.Length == GROUPS && forall g :: 0 <= g < GROUPS ==> used[g] == Claimed(q, up, g)
  }

  /** All passes but the last. */
  method ReadAll(a: Attribs, q: Request) returns (ok: bool, changed: bool, used: array<bool>)
    requires a.Valid() && q.Valid()
    modifies a.txUp, a.rxUp, a.txPct, a.rxPct
    ensures ok == Accepts(old(a.View()), q)
    ensures ok ==> changed == PercentsSupplied(q) && fresh(used) && MarksClaims(used, q, old(a.txUp[..]))
    ensures ok ==> AllRead(q, old(a.txUp[..]), a.txUp[..]) && AllRead(q, old(a.rxUp[..]), a.rxUp[..])
    ensures ok ==> a.txPct[..] == DecodedPercent(q, old(a.txPct[..])) && a.rxPct[..] == DecodedPercent(q, old(a.rxPct[..]))
  {
    changed := false;
    used := new bool[0];
    ghost var t := a.txUp[..];
    ok := ReadClasses(a, q);
    if !ok {
      return;
    }
    ok := ReadPercents(a, q);
    if !ok {
      return;
    }
    ghost var c := a.txUp[..];
    used := ReadGroups(a, q);
    ClaimsAgree(q, t, c, used);
    ok, changed := ReadUpPercents(a, q);
    if !ok {
      return;
    }
    ReadStrictBits(a, q);
  }

  lemma ClaimsAgree(q: Request, t: seq<Priority>, c: seq<Priority>, used: array<bool>)
    requires q.Valid() && |t| == |c| == PRIORITIES && used.Length == GROUPS
    requires forall i :: 0 <= i < PRIORITIES ==> c[i] == ClassRead(q, t[i], i)
    requires forall g :: 0 <= g < GROUPS ==> used[g] == exists i :: 0 <= i < PRIORITIES && ClaimOf(q, c[i], i) == g
    ensures MarksClaims(used, q, t)
  {
    forall i | 0 <= i < PRIORITIES ensures ClaimOf(q, c[i], i) == Claim(q, t[i], i) {
    }
  }

  /** Decode a whole request. */
  method DecodeRequest(a: Attribs, q: Request) returns (ok: bool, changed: bool)
    requires a.Valid() && q.Valid() && Stored(a.txUp[..])
    modifies a.txUp, a.rxUp, a.txPct, a.rxPct
    ensures ok == Accepts(old(a.View()), q)
    ensures ok ==> changed == PercentsSupplied(q) && a.View() == Decode(q, old(a.View()))
  {
    ghost var t, r := a.txUp[..], a.rxUp[..];
    var used: array<bool>;
    ok, changed, used := ReadAll(a, q);
    if ok {
      var free := FirstUnused(used);
      assert free == Free(q, t);
      ghost var t1, r1 := a.txUp[..], a.rxUp[..];
      forall i | 0 <= i < PRIORITIES
        ensures t1[i].pgid < GROUPS || t1[i].pgid == LINK_STRICT_PGID
        ensures Moves(used, t1[i]) == MadeStrict(q, t, i)
      {
        assert t1[i] == Read(q, t[i], i) && t1[i].pgid == ReadPgid(q, t[i], i);
      }
      Renumber(a, used, free);
      hide Free, MadeStrict, Read, Placed;
      AllPlaced(q, t, t, t1, a.txUp[..]);
      AllPlaced(q, t, r, r1, a.rxUp[..]);
    }
  }

  lemma AllPlaced(q: Request, up: seq<Priority>, side: seq<Priority>, read: seq<Priority>, now: seq<Priority>)
    requires q.Valid() && |up| == |side| == |now| == PRIORITIES && AllRead(q, side, read)
    requires forall i :: 0 <= i < PRIORITIES ==> now[i] == Placed(read[i], MadeStrict(q, up, i), Free(q, up))
    ensures now == DecodedUp(q, up, side)
  {
    forall i | 0 <= i < PRIORITIES ensures now[i] == DecodedPriority(q, up, side, i) {
      PassesDecode(q, up, side, i);
    }
  }

  /** Check, and once more after rebalancing if that is allowed. */
  method CheckTwice(a: Attribs, rebalance: bool) returns (status: Status, overrun: bool)
    requires a.Valid() && Mapped(a.txUp[..])
    modifies a.txUp, a.rxUp, a.txPct, a.rxPct
    ensures overrun <==> !LeftoverHasHome(old(a.txUp[..]), old(a.txPct[..]), a.numTcs, None)
    ensures !overrun ==> status == Settle(old(a.View()), rebalance)
    ensures !overrun && status.Success? ==> a.View() == Outcome(old(a.View()))
    ensures !overrun && status.Success? ==>
              GivenOut(Traffic(a.txPct[..], a.txUp[..])) && GivenOut(Traffic(a.rxPct[..], a.rxUp[..]))
  {
    ghost var pg := a.View();
    hide GivenOut, SplitUp;
    status, overrun := a.Check(None);
    if !overrun && status.BadParams? && rebalance {
      StillMapped(pg);
      a.Rebalance();
      status, overrun := a.Check(None);
    }
  }

  /** set_pg_config up to the point where the attributes are handed on (lldp_dcbx_cmds.c:1070). Only a
      message without payload, which has the stored attributes checked, can run into the overrun. */
  method SetPgConfig(a: Attribs, m: Message) returns (status: Status, overrun: bool)
    requires a.Valid() && Serviceable(m, a.View())
    modifies a.txUp, a.rxUp, a.txPct, a.rxPct
    ensures overrun <==> m.NoPayload? && !LeftoverHasHome(old(a.txUp[..]), old(a.txPct[..]), a.numTcs, None)
    ensures !overrun ==> status == Respond(m, old(a.View()))
    ensures !overrun && status.Success? ==> a.View() == Granted(m, old(a.View()))
    ensures !overrun && status.Success? && m.Payload? && GroupsFit(m.q, old(a.View())) ==>
              TakesEffect(m.q, old(a.View()), a.View())
    ensures !overrun && status.Success? && !m.WrongLength? ==>
              GivenOut(Traffic(a.txPct[..], a.txUp[..])) && GivenOut(Traffic(a.rxPct[..], a.rxUp[..]))
  {
    hide GivenOut, TakesEffect, GroupsFit;
    ghost var pg := a.View();
    if m.WrongLength? {
      return BadParams, false;
    }
    var changed := false;
    if m.Payload? {
      var ok;
      ok, changed := DecodeRequest(a, m.q);
      if !ok {
        return BadParams, false;
      }
      DecodedIsMapped(m.q, pg);
      DecodedLeftoverHasHome(m.q, pg);
    }
    status, overrun := CheckTwice(a, !changed);
    if m.Payload? && status.Success? && GroupsFit(m.q, pg) {
      RequestTakesEffect(m.q, pg);
    }
  }
}
