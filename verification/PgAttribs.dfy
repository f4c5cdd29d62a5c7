/** dcb_fixup_pg, dcb_check_config and rebalance_uppcts (dcb_rule_chk.c) as they work in place on a
    port's attribute tables.
 */
module PgAttribs {
  import opened Words
  import opened PgTypes
  import opened PriorityGroups
  import opened PgFixUp
  import opened RuleCheck
  import opened PgRules

  // ---------- Steps of dcb_fixup_pg ----------

  /** Number of group ids the priorities reach up to. */
  method CountGroups(up: array<Priority>) returns (n: int)
    requires up.Length == PRIORITIES
    ensures forall t: nat :: n <= t <==> Fits(up[..], t)
  {
    n := 0;
    for i := 0 to PRIORITIES
      invariant 0 <= n && forall j :: 0 <= j < i ==> up[j].pgid <= n
      invariant n == 0 || exists j :: 0 <= j < i && up[j].pgid == n
    {
      if up[i].pgid > n {
        n := up[i].pgid;
      }
    }
    assert up[0].pgid >= 0;
    n := n + 1;
    assert up[..][0] == up[0];
  }

  ghost predicate IsMatrix(m: array2<bool>, up: seq<Priority>)
    reads m
  {
    && m.Length0 == GROUPS && m.Length1 == PRIORITIES == |up|
    && forall g, j :: 0 <= g < GROUPS && 0 <= j < PRIORITIES ==> m[g, j] == (up[j].pgid == g)
  }

  /** A row per group, a column per priority. */
  method BuildMatrix(up: array<Priority>) returns (m: array2<bool>)
    requires up.Length == PRIORITIES && Mapped(up[..])
    ensures fresh(m) && IsMatrix(m, up[..])
  {
    m := new bool[GROUPS, PRIORITIES]((g, j) => false);
    for i := 0 to PRIORITIES
      invariant forall g, j :: 0 <= g < GROUPS && 0 <= j < PRIORITIES ==> m[g, j] == (j < i && up[j].pgid == g)
    {
      assert up[i] == up[..][i];
      m[up[i].pgid, i] := true;
    }
  }

  /** The first entry of a row decides the group's type. */
  method RowKind(m: array2<bool>, up: array<Priority>, pfc: Option<seq<bool>>, g: nat) returns (r: Group)
    requires IsMatrix(m, up[..]) && g < GROUPS
    ensures r == Groups(up[..], pfc)[g]
  {
    var j := 0;
    while j < PRIORITIES && !m[g, j]
      invariant j <= PRIORITIES
      invariant GroupFrom(up[..], pfc, g, 0) == GroupFrom(up[..], pfc, g, j)
    {
      j := j + 1;
    }
    if j == PRIORITIES {
      r := Unused;
    } else {
      r := Of(KindOf(up[j], FlowControlOn(pfc, j)));
    }
  }

  method CountTypes(m: array2<bool>, up: array<Priority>, pfc: Option<seq<bool>>) returns (be: nat, flow: nat, strict: nat)
    requires IsMatrix(m, up[..])
    ensures var gs := Groups(up[..], pfc);
            be == Count(gs, BestEffort) && flow == Count(gs, FlowControlled) && strict == Count(gs, Strict)
  {
    be, flow, strict := 0, 0, 0;
    ghost var gs := Groups(up[..], pfc);
    for i := 0 to GROUPS
      invariant be == Rank(gs, BestEffort, i) && flow == Rank(gs, FlowControlled, i) && strict == Rank(gs, Strict, i)
    {
      var g := RowKind(m, up, pfc, i);
      if g.Of? {
        match g.kind {
          case Strict => strict := strict + 1;
          case FlowControlled => flow := flow + 1;
          case BestEffort => be := be + 1;
        }
      }
    }
  }

  /** Classes for each type. */
  method Shrink(ghost gs: seq<Group>, numTcs: nat, be: nat, flow: nat, strict: nat) returns (q: Quota)
    requires Types(gs) <= numTcs
    requires be == Count(gs, BestEffort) && flow == Count(gs, FlowControlled) && strict == Count(gs, Strict)
    ensures q == Quotas(gs, numTcs)
  {
    var s, p, b := strict, flow, be;
    if s > numTcs - Any(be) - Any(flow) {
      s := numTcs - Any(be) - Any(flow);
    }
    if p > numTcs - s - Any(be) {
      p := numTcs - s - Any(be);
    }
    if b > numTcs - s - p {
      b := numTcs - s - p;
    }
    q := Quota(b, p, s);
  }

  /** Position `n` of a counter that starts again after `m`. */
  function Turn(n: nat, m: nat): nat {
    if m == 0 then 0 else n % m
  }

  /** The counters `at`, one per type, after the groups before `g`. */
  ghost predicate Turns(gs: seq<Group>, q: Quota, at: Quota, g: nat)
    requires g <= |gs|
  {
    forall k :: at.For(k) == Turn(Rank(gs, k, g), q.For(k))
  }

  function Restart(n: nat, m: nat): nat {
    if n == m then 0 else n
  }

  /** Take the next class of a type and start counters again that have reached their quota. */
  method NextClass(q: Quota, at: Quota, k: Kind) returns (c: nat, next: Quota)
    ensures c == q.Base(k) + at.For(k)
    ensures forall j :: next.For(j) == Restart(at.For(j) + if j == k then 1 else 0, q.For(j))
  {
    var be, flow, strict := at.be, at.pfc, at.strict;
    match k {
      case Strict =>
        c := q.be + q.pfc + strict;
        strict := strict + 1;
      case FlowControlled =>
        c := q.be + flow;
        flow := flow + 1;
      case BestEffort =>
        c := be;
        be := be + 1;
    }
    next := Quota(Restart(be, q.be), Restart(flow, q.pfc), Restart(strict, q.strict));
  }

  lemma TurnStep(n: nat, m: nat)
    requires m > 0
    ensures Restart(Turn(n, m) + 1, m) == Turn(n + 1, m)
    ensures Restart(Turn(n, m), m) == Turn(n, m)
  {
    ModStep(n, m);
  }

  lemma TurnsStep(gs: seq<Group>, numTcs: nat, at: Quota, next: Quota, g: nat)
    requires Types(gs) <= numTcs && g < |gs| && gs[g].Of? && Turns(gs, Quotas(gs, numTcs), at, g)
    requires forall j :: next.For(j) == Restart(at.For(j) + if j == gs[g].kind then 1 else 0, Quotas(gs, numTcs).For(j))
    ensures Turns(gs, Quotas(gs, numTcs), next, g + 1)
  {
    var q := Quotas(gs, numTcs);
    RankBelowCount(gs, gs[g].kind, g);
    assert q.For(gs[g].kind) > 0;
    forall k ensures next.For(k) == Turn(Rank(gs, k, g + 1), q.For(k)) {
      if q.For(k) > 0 {
        TurnStep(Rank(gs, k, g), q.For(k));
      }
    }
  }

  /** Class of a group, minus one for a group not in use. */
  function ClassOr(gs: seq<Group>, numTcs: nat, g: nat): int
    requires Types(gs) <= numTcs && g < |gs|
  {
    if gs[g].Of? then ClassOf(gs, numTcs, g) else -1
  }

  /** Class of each priority, minus one where the rows before `g` have not reached it. */
  ghost predicate IsResult(result: array2<bool>, gs: seq<Group>, numTcs: nat, up: seq<Priority>, g: nat)
    requires Types(gs) <= numTcs && |gs| == GROUPS
    reads result
  {
    && result.Length0 == GROUPS && result.Length1 == PRIORITIES == |up|
    && forall c, j :: 0 <= c < GROUPS && 0 <= j < PRIORITIES ==>
         result[c, j] == (up[j].pgid < g && up[j].pgid < GROUPS && ClassOr(gs, numTcs, up[j].pgid) == c)
  }

  /** Move one row of the matrix to class `c`. */
  method MoveRow(m: array2<bool>, result: array2<bool>, g: nat, c: nat)
    requires m != result && m.Length0 == result.Length0 == GROUPS && m.Length1 == result.Length1 == PRIORITIES
    requires g < GROUPS && c < GROUPS
    modifies result
    ensures forall d, j :: 0 <= d < GROUPS && 0 <= j < PRIORITIES ==>
              result[d, j] == (old(result[d, j]) || (d == c && m[g, j]))
  {
    for i := 0 to PRIORITIES
      invariant forall d, j :: 0 <= d < GROUPS && 0 <= j < PRIORITIES ==>
                  result[d, j] == (old(result[d, j]) || (d == c && j < i && m[g, j]))
    {
      if m[g, i] {
        result[c, i] := true;
      }
    }
  }

  ghost predicate AreShares(tcbw: array<int>, gs: seq<Group>, numTcs: nat, pct: seq<u8>, g: nat)
    requires Types(gs) <= numTcs && g <= |gs| == |pct|
    reads tcbw
  {
    tcbw.Length == GROUPS && forall c :: 0 <= c < GROUPS ==> tcbw[c] == ShareOf(gs, numTcs, pct, c, g)
  }

  /** The class of the next group in use, and the counters after it. */
  method TakeTurn(ghost gs: seq<Group>, ghost numTcs: nat, q: Quota, at: Quota, k: Kind, ghost g: nat)
    returns (c: nat, next: Quota)
    requires Types(gs) <= numTcs && g < |gs| && gs[g] == Of(k) && q == Quotas(gs, numTcs) && Turns(gs, q, at, g)
    ensures c == ClassOf(gs, numTcs, g) && Turns(gs, q, next, g + 1)
  {
    c, next := NextClass(q, at, k);
    RankBelowCount(gs, k, g);
    TurnsStep(gs, numTcs, at, next, g);
  }

  method AddShare(tcbw: array<int>, ghost gs: seq<Group>, ghost numTcs: nat, pct: seq<u8>, g: nat, c: nat)
    requires Types(gs) <= numTcs && g < |gs| == |pct| && gs[g].Of? && c == ClassOf(gs, numTcs, g) < GROUPS
    requires AreShares(tcbw, gs, numTcs, pct, g)
    modifies tcbw
    ensures AreShares(tcbw, gs, numTcs, pct, g + 1)
  {
    hide Types, ClassOf;
    tcbw[c] := tcbw[c] + pct[g];
  }

  method MoveGroup(m: array2<bool>, result: array2<bool>, ghost gs: seq<Group>, ghost numTcs: nat,
                   ghost up: seq<Priority>, g: nat, c: nat)
    requires m != result && IsMatrix(m, up) && Types(gs) <= numTcs && |gs| == GROUPS && g < GROUPS && c < GROUPS
    requires gs[g].Of? && c == ClassOf(gs, numTcs, g) && IsResult(result, gs, numTcs, up, g)
    modifies result
    ensures IsResult(result, gs, numTcs, up, g + 1)
  {
    hide Types, ClassOf;
    MoveRow(m, result, g, c);
  }

  lemma UnusedStep(up: seq<Priority>, pfc: Option<seq<bool>>, result: array2<bool>, tcbw: array<int>,
                   numTcs: nat, pct: seq<u8>, q: Quota, at: Quota, g: nat)
    requires |pct| == GROUPS && g < GROUPS && Types(Groups(up, pfc)) <= numTcs && Groups(up, pfc)[g].Unused?
    requires Turns(Groups(up, pfc), q, at, g) && AreShares(tcbw, Groups(up, pfc), numTcs, pct, g)
    requires IsResult(result, Groups(up, pfc), numTcs, up, g)
    ensures Turns(Groups(up, pfc), q, at, g + 1) && AreShares(tcbw, Groups(up, pfc), numTcs, pct, g + 1)
    ensures IsResult(result, Groups(up, pfc), numTcs, up, g + 1)
  {
    hide Types, Turn;
    forall k ensures Rank(Groups(up, pfc), k, g + 1) == Rank(Groups(up, pfc), k, g) {}
  }

  method EmptyTables(ghost gs: seq<Group>, ghost numTcs: nat, ghost up: seq<Priority>, ghost pct: seq<u8>)
    returns (result: array2<bool>, tcbw: array<int>)
    requires Types(gs) <= numTcs && |gs| == |pct| == GROUPS && |up| == PRIORITIES
    ensures fresh(result) && fresh(tcbw) && IsResult(result, gs, numTcs, up, 0) && AreShares(tcbw, gs, numTcs, pct, 0)
  {
    hide Types, ClassOr;
    result := new bool[GROUPS, PRIORITIES]((g, j) => false);
    tcbw := new int[GROUPS](_ => 0);
  }

  /** Collapse the rows onto classes and add up each class's bandwidth. */
  method Remap(m: array2<bool>, up: array<Priority>, pct: seq<u8>, pfc: Option<seq<bool>>, ghost numTcs: nat, q: Quota)
    returns (result: array2<bool>, tcbw: array<int>, total: int)
    requires IsMatrix(m, up[..]) && |pct| == GROUPS && numTcs <= GROUPS
    requires Types(Groups(up[..], pfc)) <= numTcs && q == Quotas(Groups(up[..], pfc), numTcs)
    ensures fresh(result) && fresh(tcbw)
    ensures IsResult(result, Groups(up[..], pfc), numTcs, up[..], GROUPS)
    ensures AreShares(tcbw, Groups(up[..], pfc), numTcs, pct, GROUPS)
    ensures total == TotalOf(Groups(up[..], pfc), pct, GROUPS)
  {
    var at := Quota(0, 0, 0);
    ghost var gs, u := Groups(up[..], pfc), up[..];
    assert Turns(gs, q, at, 0);
    hide Types, ClassOf, Quotas, Turns, IsResult, AreShares, IsMatrix, Groups;
    result, tcbw := EmptyTables(gs, numTcs, u, pct);
    total := 0;
    for i := 0 to GROUPS
      invariant IsMatrix(m, u)
      invariant Turns(gs, q, at, i) && total == TotalOf(gs, pct, i)
      invariant IsResult(result, gs, numTcs, u, i) && AreShares(tcbw, gs, numTcs, pct, i)
    {
      var g := RowKind(m, up, pfc, i);
      if g.Of? {
        var c;
        c, at := TakeTurn(gs, numTcs, q, at, g.kind, i);
        AddShare(tcbw, gs, numTcs, pct, i, c);
        total := total + pct[i];
        MoveGroup(m, result, gs, numTcs, u, i, c);
      } else {
        UnusedStep(u, pfc, result, tcbw, numTcs, pct, q, at, i);
      }
    }
  }

  /** What the used groups leave over goes to one class. */
  method AddLeftover(tcbw: array<int>, total: int, numTcs: nat, strict: nat, ghost gs: seq<Group>, ghost pct: seq<u8>)
    requires Types(gs) <= numTcs <= GROUPS && |gs| == |pct| == GROUPS && strict == Quotas(gs, numTcs).strict
    requires total == TotalOf(gs, pct, GROUPS) && (total == BW_PERCENT || LeftoverClass(gs, numTcs) >= 0)
    requires AreShares(tcbw, gs, numTcs, pct, GROUPS)
    modifies tcbw
    ensures forall c :: 0 <= c < GROUPS ==> tcbw[c] == ClassBandwidth(gs, numTcs, pct, c)
  {
    if total != BW_PERCENT {
      var c := numTcs - strict - 1;
      tcbw[c] := tcbw[c] + (BW_PERCENT - total);
    }
  }

  /** Both directions get the classes' bandwidth, cut to a byte. */
  method Distribute(tcbw: array<int>, txPct: array<u8>, rxPct: array<u8>)
    requires tcbw.Length == txPct.Length == rxPct.Length == GROUPS
    modifies txPct, rxPct
    ensures forall c :: 0 <= c < GROUPS ==> txPct[c] == rxPct[c] == ToByte(old(tcbw[c]))
  {
    ghost var was := tcbw[..];
    for i := 0 to GROUPS
      invariant tcbw[..] == was
      invariant forall c :: 0 <= c < i ==> txPct[c] == rxPct[c] == ToByte(was[c])
    {
      txPct[i] := ToByte(tcbw[i]);
      rxPct[i] := ToByte(tcbw[i]);
    }
  }

  /** Where the result matrix puts each priority. */
  ghost predicate Places(result: array2<bool>, cls: seq<u8>)
    reads result
  {
    && result.Length0 == GROUPS && result.Length1 == PRIORITIES == |cls|
    && (forall j :: 0 <= j < PRIORITIES ==> cls[j] < GROUPS)
    && forall c, j :: 0 <= c < GROUPS && 0 <= j < PRIORITIES ==> result[c, j] == (cls[j] == c)
  }

  ghost predicate Renumbered(now: seq<Priority>, was: seq<Priority>, cls: seq<u8>, c: nat, i: nat)
    requires |now| == |was| == |cls|
  {
    forall j :: 0 <= j < |now| ==>
      now[j] == if cls[j] < c || (cls[j] == c && j < i) then was[j].(pgid := cls[j]) else was[j]
  }

  /** Push the new group ids onto the priorities of one class. */
  method PushRow(result: array2<bool>, tx: array<Priority>, rx: array<Priority>, ghost cls: seq<u8>, c: nat,
                 ghost t: seq<Priority>, ghost r: seq<Priority>)
    requires Places(result, cls) && c < GROUPS && tx != rx && tx.Length == rx.Length == |t| == |r| == PRIORITIES
    requires Renumbered(tx[..], t, cls, c, 0) && Renumbered(rx[..], r, cls, c, 0)
    modifies tx, rx
    ensures Renumbered(tx[..], t, cls, c + 1, 0) && Renumbered(rx[..], r, cls, c + 1, 0)
  {
    for j := 0 to PRIORITIES
      invariant Renumbered(tx[..], t, cls, c, j) && Renumbered(rx[..], r, cls, c, j)
    {
      if result[c, j] {
        rx[j] := rx[j].(pgid := c);
        tx[j] := tx[j].(pgid := c);
      }
    }
  }

  method Push(result: array2<bool>, tx: array<Priority>, rx: array<Priority>, ghost cls: seq<u8>)
    requires Places(result, cls) && tx != rx && tx.Length == rx.Length == PRIORITIES
    modifies tx, rx
    ensures forall j :: 0 <= j < PRIORITIES ==>
              tx[j] == old(tx[j]).(pgid := cls[j]) && rx[j] == old(rx[j]).(pgid := cls[j])
  {
    ghost var t, r := tx[..], rx[..];
    for c := 0 to GROUPS
      invariant Renumbered(tx[..], t, cls, c, 0) && Renumbered(rx[..], r, cls, c, 0)
    {
      PushRow(result, tx, rx, cls, c, t, r);
    }
  }

  /** Priority groups and bandwidth groups correspond one to one on the transmit side. */
  method Regroup(tx: array<Priority>, rx: array<Priority>)
    requires tx != rx && tx.Length == rx.Length == PRIORITIES
    modifies tx, rx
    ensures forall j :: 0 <= j < PRIORITIES ==>
              && tx[j] == old(tx[j]).(bwgid := j, percent := NewPercent(old(tx[j])))
              && rx[j] == old(rx[j]).(percent := NewPercent(old(tx[j])))
  {
    for i := 0 to PRIORITIES
      invariant forall j :: i <= j < PRIORITIES ==> tx[j] == old(tx[j]) && rx[j] == old(rx[j])
      invariant forall j :: 0 <= j < i ==>
                  && tx[j] == old(tx[j]).(bwgid := j, percent := NewPercent(old(tx[j])))
                  && rx[j] == old(rx[j]).(percent := NewPercent(old(tx[j])))
    {
      tx[i] := tx[i].(bwgid := i);
      if tx[i].strict.LinkStrict? {
        tx[i] := tx[i].(percent := 0);
        rx[i] := rx[i].(percent := 0);
      } else {
        tx[i] := tx[i].(percent := 100);
        rx[i] := rx[i].(percent := 100);
      }
    }
  }

  method MapOneToOne(tx: array<Priority>, rx: array<Priority>)
    requires tx != rx && tx.Length == rx.Length == PRIORITIES
    modifies tx, rx
    ensures tx[..] == OneToOne(old(tx[..])) && rx[..] == OneToOne(old(rx[..]))
  {
    for i := 0 to PRIORITIES
      invariant forall j :: 0 <= j < PRIORITIES ==> tx[j] == if j < i then old(tx[j]).(bwgid := j) else old(tx[j])
      invariant forall j :: 0 <= j < PRIORITIES ==> rx[j] == if j < i then old(rx[j]).(bwgid := j) else old(rx[j])
    {
      tx[i] := tx[i].(bwgid := i);
      rx[i] := rx[i].(bwgid := i);
    }
  }

  // ---------- Steps of dcb_check_config ----------

  lemma {:induction false} SecondGroupStays(up: seq<Priority>, m: nat, n: nat)
    requires m <= n <= |up| && StrictGroup(up, m).None?
    ensures StrictGroup(up, n).None?
    decreases n
  {
    if m < n {
      SecondGroupStays(up, m, n - 1);
    }
  }

  /** Add up the groups' bandwidth in a byte, watching for a second link strict group. */
  method AddGroups(pct: array<u8>, up: array<Priority>) returns (ok: bool, bw: u8, strictGroup: u8)
    requires pct.Length == GROUPS && up.Length == PRIORITIES
    ensures ok ==> StrictGroup(up[..], PRIORITIES) == Some(strictGroup) && bw == ToByte(Sum(pct[..]))
    ensures !ok ==> StrictGroup(up[..], PRIORITIES).None?
  {
    bw, strictGroup, ok := 0, LINK_STRICT_PGID, true;
    ghost var u, s := up[..], pct[..];
    for i := 0 to GROUPS
      invariant bw == ToByte(Sum(s[..i])) && StrictGroup(u, i) == Some(strictGroup)
    {
      assert s[..i + 1][..i] == s[..i];
      bw := ToByte(bw + pct[i]);
      if up[i].strict.LinkStrict? {
        if strictGroup == LINK_STRICT_PGID {
          strictGroup := up[i].pgid;
        } else if up[i].pgid != strictGroup {
          SecondGroupStays(u, i + 1, PRIORITIES);
          return false, bw, strictGroup;
        }
      }
    }
    assert s[..GROUPS] == s;
  }

  lemma ByteLess(total: int, less: int)
    ensures ToByte(ToByte(total) - less) == ToByte(total - less)
    ensures ToByte(total - 0) == ToByte(total)
  {
  }

  method CheckTotal(pct: array<u8>, up: array<Priority>) returns (ok: bool)
    requires pct.Length == GROUPS && up.Length == PRIORITIES
    ensures ok <==> GivenOut(Traffic(pct[..], up[..]))
  {
    var one, bw, strictGroup := AddGroups(pct, up);
    TotalsMean(Traffic(pct[..], up[..]));
    hide GivenOut;
    if !one {
      return false;
    }
    if strictGroup < GROUPS {
      var total: int := bw;
      ByteLess(Sum(pct[..]), pct[strictGroup]);
      bw := ToByte(total - pct[strictGroup]);
    }
    hide ToByte;
    assert bw == TotalLess(pct[..], strictGroup);
    if bw != BW_PERCENT {
      for i := 0 to GROUPS
        invariant i > 0 ==> bw == 0
        invariant forall j :: 0 <= j < i ==> up[j].strict.LinkStrict?
      {
        if bw != 0 || !up[i].strict.LinkStrict? {
          assert up[..][i] == up[i];
          return false;
        }
      }
    }
    ok := true;
  }

  /** Whether one of the first `n` priorities is link strict and in bandwidth group `b`. */
  predicate StrictAmong(up: seq<Priority>, b: int, n: nat)
    requires n <= |up|
  {
    n > 0 && (StrictAmong(up, b, n - 1) || (up[n - 1].bwgid == b && up[n - 1].strict.LinkStrict?))
  }

  lemma {:induction false} StrictAmongAll(up: seq<Priority>, b: int, n: nat)
    requires n <= |up|
    ensures StrictAmong(up, b, n) <==> exists i :: 0 <= i < n && up[i].bwgid == b && up[i].strict.LinkStrict?
    decreases n
  {
    if n > 0 {
      StrictAmongAll(up, b, n - 1);
    }
  }

  /** Bandwidth-group sums, kept in a byte. */
  ghost predicate AreSums(sum: array<u8>, up: seq<Priority>, n: nat)
    requires n <= |up|
    reads sum
  {
    sum.Length == GROUPS && forall b :: 0 <= b < GROUPS ==> sum[b] == ToByte(GroupSum(up, b, n))
  }

  ghost predicate AreStrict(strict: array<bool>, up: seq<Priority>, n: nat)
    requires n <= |up|
    reads strict
  {
    strict.Length == GROUPS && forall b :: 0 <= b < GROUPS ==> strict[b] == StrictAmong(up, b, n)
  }

  lemma ByteMore(total: int, more: int)
    ensures ToByte(ToByte(total) + more) == ToByte(total + more)
  {
  }

  method AddPercent(sum: array<u8>, p: Priority, ghost up: seq<Priority>, ghost n: nat)
    requires n < |up| && up[n] == p && p.bwgid < GROUPS && AreSums(sum, up, n)
    modifies sum
    ensures AreSums(sum, up, n + 1)
  {
    ByteMore(GroupSum(up, p.bwgid, n), p.percent);
    hide ToByte;
    sum[p.bwgid] := ToByte(sum[p.bwgid] + p.percent);
  }

  method NoteStrict(strict: array<bool>, p: Priority, ghost up: seq<Priority>, ghost n: nat)
    requires n < |up| && up[n] == p && p.bwgid < GROUPS && AreStrict(strict, up, n)
    modifies strict
    ensures AreStrict(strict, up, n + 1)
  {
    if p.strict.LinkStrict? {
      strict[p.bwgid] := true;
    }
  }

  method CheckPriorities(pct: array<u8>, up: array<Priority>) returns (ok: bool)
    requires pct.Length == GROUPS && up.Length == PRIORITIES
    ensures ok <==> SplitUp(Traffic(pct[..], up[..]))
  {
    var sum := new u8[GROUPS](_ => 0);
    var strict := new bool[GROUPS](_ => false);
    ghost var u := up[..];
    SplitMeans(Traffic(pct[..], u));
    hide SplitUp;
    for i := 0 to PRIORITIES
      invariant fresh(sum) && fresh(strict) && up[..] == u
      invariant forall j :: 0 <= j < i ==> PriorityOk(u[j])
      invariant AreSums(sum, u, i) && AreStrict(strict, u, i)
    {
      var p := up[i];
      if p.bwgid >= GROUPS || (p.strict.LinkStrict? && p.percent != 0) || (!p.strict.LinkStrict? && p.percent == 0) {
        assert u[i] == p && !PriorityOk(p);
        return false;
      }
      NoteStrict(strict, p, u, i);
      AddPercent(sum, p, u, i);
    }
    ok := CheckSums(sum, strict, pct, u);
  }

  method CheckSums(sum: array<u8>, strict: array<bool>, pct: array<u8>, ghost up: seq<Priority>) returns (ok: bool)
    requires |up| == PRIORITIES && pct.Length == GROUPS && AreSums(sum, up, PRIORITIES) && AreStrict(strict, up, PRIORITIES)
    ensures ok <==> BandwidthGroupsOk(Traffic(pct[..], up))
  {
    ghost var t := Traffic(pct[..], up);
    for b := 0 to GROUPS
      invariant forall c :: 0 <= c < b ==> BandwidthGroupOk(t, c)
    {
      StrictAmongAll(up, b, PRIORITIES);
      if strict[b] {
        if sum[b] != 0 && pct[b] != 0 {
          assert !BandwidthGroupOk(t, b);
          return false;
        }
      } else if sum[b] != BW_PERCENT && sum[b] != 0 {
        assert !BandwidthGroupOk(t, b);
        return false;
      }
      assert BandwidthGroupOk(t, b);
    }
    ok := true;
  }

  // ---------- Steps of rebalance_uppcts ----------

  /** How many of a group of `n` take one percent more (dcb_rule_chk.c:501). */
  const BW_FIXUP: seq<nat> := [0, 0, 1, 0, 0, 4, 2, 4]

  lemma FixupIsRemainder(n: nat)
    requires 0 < n <= PRIORITIES
    ensures BW_FIXUP[n - 1] == 100 % n
  {
    if n == 1 {} else if n == 2 {} else if n == 3 {} else if n == 4 {} else if n == 5 {} else if n == 6 {} else if n == 7 {}
  }

  /** `list` holds the members of group `b` among the first `n` priorities, in order. */
  ghost predicate Lists(list: seq<nat>, up: seq<Priority>, b: int, n: nat)
    requires n <= |up|
  {
    && |list| == Members(up, b, n)
    && (forall k :: 0 <= k < |list| ==> list[k] < n && up[list[k]].bwgid == b && Members(up, b, list[k]) == k)
    && (forall i :: 0 <= i < n && up[i].bwgid == b ==> i in list)
  }

  /** Both directions once every group below `b` has been rebalanced. */
  ghost predicate RebalancedBelow(now: seq<Priority>, was: seq<Priority>, shape: seq<Priority>, b: nat)
    requires |now| == |was| == |shape|
  {
    forall i :: 0 <= i < |now| ==> now[i] == if shape[i].bwgid < b then Rebalanced(shape, was)[i] else was[i]
  }

  /** Priority `i` of a group, link strict members having been zeroed. */
  function Zeroed(was: Priority, member: bool): Priority {
    if member then was.(percent := 0) else was
  }

  /** Find the members of group `b` and take all bandwidth from the link strict ones. */
  method Collect(tx: array<Priority>, rx: array<Priority>, b: nat) returns (list: seq<nat>, strict: bool)
    requires tx != rx && tx.Length == rx.Length == PRIORITIES
    modifies tx, rx
    ensures Lists(list, old(tx[..]), b, PRIORITIES) && strict == HasStrict(old(tx[..]), b)
    ensures forall i :: 0 <= i < PRIORITIES ==>
              var member := old(tx[i].bwgid == b && tx[i].strict.LinkStrict?);
              tx[i] == Zeroed(old(tx[i]), member) && rx[i] == Zeroed(old(rx[i]), member)
  {
    list, strict := [], false;
    ghost var t := tx[..];
    for i := 0 to PRIORITIES
      invariant Lists(list, t, b, i)
      invariant strict == StrictAmong(t, b, i)
      invariant forall j :: 0 <= j < PRIORITIES ==>
                  var member := j < i && t[j].bwgid == b && t[j].strict.LinkStrict?;
                  tx[j] == Zeroed(t[j], member) && rx[j] == Zeroed(old(rx[j]), member)
    {
      if tx[i].bwgid == b {
        list := list + [i];
        if tx[i].strict.LinkStrict? {
          strict := true;
          tx[i] := tx[i].(percent := 0);
          rx[i] := rx[i].(percent := 0);
        }
      }
    }
    StrictAmongAll(t, b, PRIORITIES);
  }

  function Dealt(was: Priority, n: nat, k: nat): Priority
    requires n > 0
  {
    was.(percent := Part(n, k), strict := NoStrict)
  }

  /** Deal out one hundred percent in turn. */
  method Deal(tx: array<Priority>, rx: array<Priority>, list: seq<nat>)
    requires tx != rx && tx.Length == rx.Length == PRIORITIES && 0 < |list| <= PRIORITIES
    requires forall k :: 0 <= k < |list| ==> list[k] < PRIORITIES
    requires forall k, l :: 0 <= k < l < |list| ==> list[k] != list[l]
    modifies tx, rx
    ensures forall k :: 0 <= k < |list| ==>
              && tx[list[k]] == Dealt(old(tx[list[k]]), |list|, k)
              && rx[list[k]] == Dealt(old(rx[list[k]]), |list|, k)
    ensures forall i :: 0 <= i < PRIORITIES && i !in list ==> tx[i] == old(tx[i]) && rx[i] == old(rx[i])
  {
    FixupIsRemainder(|list|);
    var adjust := BW_FIXUP[|list| - 1];
    hide Part;
    for m := 0 to |list|
      invariant adjust == (if m < 100 % |list| then 100 % |list| - m else 0)
      invariant forall k :: 0 <= k < m ==>
                  && tx[list[k]] == Dealt(old(tx[list[k]]), |list|, k)
                  && rx[list[k]] == Dealt(old(rx[list[k]]), |list|, k)
      invariant forall k :: m <= k < |list| ==> tx[list[k]] == old(tx[list[k]]) && rx[list[k]] == old(rx[list[k]])
      invariant forall i :: 0 <= i < PRIORITIES && i !in list ==> tx[i] == old(tx[i]) && rx[i] == old(rx[i])
    {
      var value := 100 / |list|;
      if adjust > 0 {
        value := value + 1;
        adjust := adjust - 1;
      }
      IsPart(|list|, m, value);
      tx[list[m]] := tx[list[m]].(percent := value, strict := NoStrict);
      rx[list[m]] := rx[list[m]].(percent := value, strict := NoStrict);
    }
  }

  lemma IsPart(n: nat, k: nat, value: int)
    requires n > 0 && value == 100 / n + if k < 100 % n then 1 else 0
    ensures value == Part(n, k)
  {
  }

  /** One direction after group `b` of `shape` has been rebalanced. */
  ghost predicate GroupBalanced(now: seq<Priority>, was: seq<Priority>, shape: seq<Priority>, b: nat)
    requires |now| == |was| == |shape|
  {
    forall i :: 0 <= i < |now| ==> now[i] == if shape[i].bwgid == b then Rebalanced(shape, was)[i] else was[i]
  }

  lemma DealtIsRebalanced(shape: seq<Priority>, was: seq<Priority>, list: seq<nat>, b: nat, i: nat)
    requires |shape| == |was| && i < |shape| && shape[i].bwgid == b < GROUPS && !HasStrict(shape, b)
    requires Lists(list, shape, b, |shape|)
    ensures i in list && list[Members(shape, b, i)] == i
    ensures Rebalanced(shape, was)[i] == Dealt(was[i], |list|, Members(shape, b, i))
  {
    var k :| 0 <= k < |list| && list[k] == i;
  }

  /** Rebalance bandwidth group `b`. */
  method BalanceGroup(tx: array<Priority>, rx: array<Priority>, b: nat)
    requires tx != rx && tx.Length == rx.Length == PRIORITIES && b < GROUPS
    modifies tx, rx
    ensures GroupBalanced(tx[..], old(tx[..]), old(tx[..]), b) && GroupBalanced(rx[..], old(rx[..]), old(tx[..]), b)
  {
    ghost var u, v := tx[..], rx[..];
    var list, strict := Collect(tx, rx, b);
    if !strict {
      assert tx[..] == u && rx[..] == v;
      if |list| > 0 {
        Deal(tx, rx, list);
      }
      hide Rebalanced, Members;
      forall i | 0 <= i < PRIORITIES && u[i].bwgid == b
        ensures tx[i] == Rebalanced(u, u)[i] && rx[i] == Rebalanced(u, v)[i]
      {
        DealtIsRebalanced(u, u, list, b, i);
        DealtIsRebalanced(u, v, list, b, i);
      }
    } else {
      forall i | 0 <= i < PRIORITIES && u[i].bwgid == b
        ensures tx[i] == Rebalanced(u, u)[i] && rx[i] == Rebalanced(u, v)[i]
      {
        RebalanceAndStrict(u, u, i);
        RebalanceAndStrict(u, v, i);
      }
    }
  }

  lemma BalanceStep(t: seq<Priority>, u: seq<Priority>, was: seq<Priority>, before: seq<Priority>, now: seq<Priority>, b: nat)
    requires |t| == |u| == |was| == |before| == |now| && RebalancedBelow(u, t, t, b)
    requires RebalancedBelow(before, was, t, b) && GroupBalanced(now, before, u, b)
    ensures RebalancedBelow(now, was, t, b + 1)
  {
    ListedAlike(t, u, b);
    forall i | 0 <= i < |t| && t[i].bwgid == b ensures Rebalanced(u, before)[i] == Rebalanced(t, was)[i] {
      SameMembers(t, u, b, i);
    }
  }

  /** Rebalancing lower groups changes neither who is in group `b` nor whether it takes part. */
  lemma ListedAlike(t: seq<Priority>, u: seq<Priority>, b: nat)
    requires |t| == |u| && RebalancedBelow(u, t, t, b)
    ensures forall i :: 0 <= i < |t| ==> u[i].bwgid == t[i].bwgid
    ensures forall i :: 0 <= i < |t| && t[i].bwgid == b ==> u[i] == t[i]
    ensures HasStrict(u, b) <==> HasStrict(t, b)
    ensures Members(u, b, |t|) == Members(t, b, |t|)
  {
    SameMembers(t, u, b, |t|);
    if HasStrict(t, b) {
      var i :| 0 <= i < |t| && t[i].bwgid == b && t[i].strict.LinkStrict?;
      assert u[i].bwgid == b && u[i].strict.LinkStrict?;
    }
  }

  /** A port's priority-group attributes, `pg_attribs`. */
  class Attribs {
    const numTcs: u8
    const txUp: array<Priority>
    const rxUp: array<Priority>
    const txPct: array<u8>
    const rxPct: array<u8>

    ghost predicate Valid() {
      && txUp != rxUp && txPct != rxPct
      && txUp.Length == rxUp.Length == PRIORITIES && txPct.Length == rxPct.Length == GROUPS
    }

    ghost function View(): (r: PgData)
      requires Valid()
      reads txUp, rxUp, txPct, rxPct
      ensures r.Valid()
    {
      PgData(Traffic(txPct[..], txUp[..]), Traffic(rxPct[..], rxUp[..]), numTcs)
    }

    constructor (pg: PgData)
      requires pg.Valid()
      ensures Valid() && View() == pg && fresh(txUp) && fresh(rxUp) && fresh(txPct) && fresh(rxPct)
    {
      numTcs := pg.numTcs;
      var t := new Priority[PRIORITIES](i requires 0 <= i < PRIORITIES => pg.tx.up[i]);
      var r := new Priority[PRIORITIES](i requires 0 <= i < PRIORITIES => pg.rx.up[i]);
      var p := new u8[GROUPS](i requires 0 <= i < GROUPS => pg.tx.pgPercent[i]);
      var q := new u8[GROUPS](i requires 0 <= i < GROUPS => pg.rx.pgPercent[i]);
      txUp, rxUp, txPct, rxPct := t, r, p, q;
    }

    /** Push the classes of the result matrix and the classes' bandwidth onto the attributes. */
    method StoreClasses(result: array2<bool>, tcbw: array<int>, ghost gs: seq<Group>)
      requires Valid() && |gs| == GROUPS && Types(gs) <= numTcs <= GROUPS && tcbw.Length == GROUPS
      requires forall i :: 0 <= i < PRIORITIES ==> txUp[..][i].pgid < GROUPS && gs[txUp[..][i].pgid].Of?
      requires IsResult(result, gs, numTcs, txUp[..], GROUPS)
      requires forall c :: 0 <= c < GROUPS ==> tcbw[c] == ClassBandwidth(gs, numTcs, txPct[..], c)
      modifies txUp, rxUp, txPct, rxPct
      ensures txPct[..] == rxPct[..] == Bandwidth(gs, numTcs, old(txPct[..]))
      ensures txUp[..] == CollapsedTx(gs, numTcs, old(txUp[..]))
      ensures rxUp[..] == CollapsedRx(gs, numTcs, old(txUp[..]), old(rxUp[..]))
    {
      ghost var up := txUp[..];
      ghost var cls := seq(PRIORITIES, j requires 0 <= j < PRIORITIES => NewPgid(gs, numTcs, up[j]));
      assert Places(result, cls);
      hide Types, ClassOf, ClassBandwidth, IsResult;
      Push(result, txUp, rxUp, cls);
      Regroup(txUp, rxUp);
      Distribute(tcbw, txPct, rxPct);
    }

    /** Collapse the groups, `numTcs` being too few for them. `overrun` is the write before the bandwidth
        table; nothing of the attributes has been changed by then. */
    method Collapse(m: array2<bool>, pfc: Option<seq<bool>>, q: Quota) returns (overrun: bool)
      requires Valid() && IsMatrix(m, txUp[..]) && Mapped(txUp[..]) && numTcs <= GROUPS
      requires Types(Groups(txUp[..], pfc)) <= numTcs && q == Quotas(Groups(txUp[..], pfc), numTcs)
      modifies txUp, rxUp, txPct, rxPct
      ensures overrun <==> old(TotalOf(Groups(txUp[..], pfc), txPct[..], GROUPS) != BW_PERCENT && LeftoverClass(Groups(txUp[..], pfc), numTcs) < 0)
      ensures View() == if overrun then old(View()) else PgFixUp.Collapse(old(View()), pfc)
    {
      ghost var gs := Groups(txUp[..], pfc);
      var result, tcbw, total := Remap(m, txUp, txPct[..], pfc, numTcs, q);
      overrun := total != BW_PERCENT && numTcs - q.strict - 1 < 0;
      if overrun {
        return;
      }
      hide Types, ClassOf, Quotas, IsMatrix, IsResult, Groups;
      AddLeftover(tcbw, total, numTcs, q.strict, gs, txPct[..]);
      StoreClasses(result, tcbw, gs);
    }

    /** dcb_fixup_pg. */
    method FixUp(pfc: Option<seq<bool>>) returns (ok: bool, overrun: bool)
      requires Valid() && Mapped(txUp[..])
      modifies txUp, rxUp, txPct, rxPct
      ensures overrun <==> !LeftoverHasHome(old(txUp[..]), old(txPct[..]), numTcs, pfc)
      ensures !overrun ==> ok == PgFixUp.FixUp(old(View()), pfc).Some?
      ensures View() == if ok && !overrun then PgFixUp.FixUp(old(View()), pfc).value else old(View())
    {
      var n := CountGroups(txUp);
      if n <= numTcs {
        MapOneToOne(txUp, rxUp);
        return true, false;
      }
      SomeGroupIsHigh(txUp[..], numTcs);
      var m := BuildMatrix(txUp);
      var be, flow, strict := CountTypes(m, txUp, pfc);
      if numTcs < Any(be) + Any(strict) + Any(flow) {
        return false, false;
      }
      var q := Shrink(Groups(txUp[..], pfc), numTcs, be, flow, strict);
      overrun := Collapse(m, pfc, q);
      ok := true;
    }

    /** dcb_check_config: repair the groups, then hold both directions to the rules. Attributes that could be
        repaired are accepted exactly if both directions are given out and split up. */
    method Check(pfc: Option<seq<bool>>) returns (status: Status, overrun: bool)
      requires Valid() && Mapped(txUp[..])
      modifies txUp, rxUp, txPct, rxPct
      ensures overrun <==> !LeftoverHasHome(old(txUp[..]), old(txPct[..]), numTcs, pfc)
      ensures !overrun ==> status == Judge(PgFixUp.FixUp(old(View()), pfc))
      ensures View() == if overrun || status.Failed? then old(View()) else PgFixUp.FixUp(old(View()), pfc).value
      ensures !overrun && !status.Failed? ==>
                (status.Success? <==>
                   && GivenOut(Traffic(txPct[..], txUp[..])) && SplitUp(Traffic(txPct[..], txUp[..]))
                   && GivenOut(Traffic(rxPct[..], rxUp[..])) && SplitUp(Traffic(rxPct[..], rxUp[..])))
    {
      hide GivenOut, SplitUp, TrafficOk;
      var fixed;
      fixed, overrun := FixUp(pfc);
      if overrun || !fixed {
        return Failed, overrun;
      }
      var ok := CheckTotal(txPct, txUp);
      if ok {
        ok := CheckTotal(rxPct, rxUp);
      }
      if ok {
        ok := CheckPriorities(txPct, txUp);
      }
      if ok {
        ok := CheckPriorities(rxPct, rxUp);
      }
      status := if ok then Success else BadParams;
      RulesMean(Traffic(txPct[..], txUp[..]));
      RulesMean(Traffic(rxPct[..], rxUp[..]));
    }

    /** rebalance_uppcts. */
    method Rebalance()
      requires Valid()
      modifies txUp, rxUp
      ensures View() == RuleCheck.Rebalance(old(View()))
    {
      ghost var t, r := txUp[..], rxUp[..];
      for b := 0 to GROUPS
        invariant RebalancedBelow(txUp[..], t, t, b) && RebalancedBelow(rxUp[..], r, t, b)
      {
        ghost var u, v := txUp[..], rxUp[..];
        BalanceGroup(txUp, rxUp, b);
        BalanceStep(t, u, t, u, txUp[..], b);
        BalanceStep(t, u, r, v, rxUp[..], b);
      }
      AllBelow(txUp[..], t, t);
      AllBelow(rxUp[..], r, t);
    }
  }

  /** Bandwidth groups that do not exist are left alone. */
  lemma AllBelow(now: seq<Priority>, was: seq<Priority>, shape: seq<Priority>)
    requires |now| == |was| == |shape| && RebalancedBelow(now, was, shape, GROUPS)
    ensures now == Rebalanced(shape, was)
  {
    forall i | 0 <= i < |now| ensures now[i] == Rebalanced(shape, was)[i] {
    }
  }
}
