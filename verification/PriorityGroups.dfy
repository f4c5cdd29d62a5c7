/** How dcb_fixup_pg (dcb_rule_chk.c) collapses priority groups onto the traffic classes a device
    has, and what the collapse guarantees: classes exist, types never mix, groups are spread evenly.
 */
module PriorityGroups {
  import opened Words
  import opened PgTypes

  /** Traffic types, in the order their classes are laid out. */
  datatype Kind = BestEffort | FlowControlled | Strict

  datatype Group = Unused | Of(kind: Kind)

  /** Classes given to each kind. */
  datatype Quota = Quota(be: nat, pfc: nat, strict: nat)
  {
    function For(k: Kind): nat {
      match k case BestEffort => be case FlowControlled => pfc case Strict => strict
    }

    function Base(k: Kind): nat {
      match k case BestEffort => 0 case FlowControlled => be case Strict => be + pfc
    }
  }

  // ---------- Groups in use ----------

  /** Flow control settings; absent settings switch nothing on. */
  predicate FlowControlOn(pfc: Option<seq<bool>>, j: nat) {
    pfc.Some? && j < |pfc.value| && pfc.value[j]
  }

  function KindOf(p: Priority, on: bool): Kind {
    if p.strict.LinkStrict? then Strict else if on then FlowControlled else BestEffort
  }

  /** A group's type is that of its lowest priority; `j` is where the search has got to. */
  function GroupFrom(up: seq<Priority>, pfc: Option<seq<bool>>, g: nat, j: nat): (r: Group)
    requires j <= |up|
    ensures r.Of? <==> exists i :: j <= i < |up| && up[i].pgid == g
    decreases |up| - j
  {
    if j == |up| then Unused
    else if up[j].pgid == g then Of(KindOf(up[j], FlowControlOn(pfc, j)))
    else GroupFrom(up, pfc, g, j + 1)
  }

  function Groups(up: seq<Priority>, pfc: Option<seq<bool>>): (gs: seq<Group>)
    ensures |gs| == GROUPS
    ensures forall i :: 0 <= i < |up| && up[i].pgid < GROUPS ==> gs[up[i].pgid].Of?
  {
    seq(GROUPS, g requires 0 <= g => GroupFrom(up, pfc, g, 0))
  }

  // ---------- From groups to classes ----------

  /** Groups of kind `k` before group `g`. */
  function Rank(gs: seq<Group>, k: Kind, g: nat): nat
    requires g <= |gs|
  {
    if g == 0 then 0 else Rank(gs, k, g - 1) + if gs[g - 1] == Of(k) then 1 else 0
  }

  function Count(gs: seq<Group>, k: Kind): nat {
    Rank(gs, k, |gs|)
  }

  function Used(gs: seq<Group>): nat {
    Count(gs, BestEffort) + Count(gs, FlowControlled) + Count(gs, Strict)
  }

  function Any(n: nat): nat {
    if n > 0 then 1 else 0
  }

  /** Traffic types in use. */
  function Types(gs: seq<Group>): nat {
    Any(Count(gs, BestEffort)) + Any(Count(gs, FlowControlled)) + Any(Count(gs, Strict))
  }

  /** Link strict is served first, then flow controlled, then best effort, each leaving one class
      for every type still to come. */
  function Quotas(gs: seq<Group>, numTcs: nat): (q: Quota)
    requires Types(gs) <= numTcs
    ensures q.be + q.pfc + q.strict == Min(numTcs, Used(gs))
    ensures forall k :: q.For(k) <= Count(gs, k) && (Count(gs, k) > 0 ==> q.For(k) > 0)
  {
    var be, pfc, strict := Count(gs, BestEffort), Count(gs, FlowControlled), Count(gs, Strict);
    var s := Min(strict, numTcs - Any(be) - Any(pfc));
    var p := Min(pfc, numTcs - s - Any(be));
    Quota(Min(be, numTcs - s - p), p, s)
  }

  /** Groups of a kind take its classes in turn. */
  function ClassOf(gs: seq<Group>, numTcs: nat, g: nat): (c: nat)
    requires Types(gs) <= numTcs && g < |gs| && gs[g].Of?
    ensures c < numTcs
    ensures Quotas(gs, numTcs).Base(gs[g].kind) <= c
    ensures c < Quotas(gs, numTcs).Base(gs[g].kind) + Quotas(gs, numTcs).For(gs[g].kind)
  {
    RankBelowCount(gs, gs[g].kind, g);
    var q := Quotas(gs, numTcs);
    q.Base(gs[g].kind) + Rank(gs, gs[g].kind, g) % q.For(gs[g].kind)
  }

  lemma {:induction false} RankMonotone(gs: seq<Group>, k: Kind, g: nat, h: nat)
    requires g <= h <= |gs|
    ensures Rank(gs, k, g) <= Rank(gs, k, h)
    decreases h
  {
    if g < h {
      RankMonotone(gs, k, g, h - 1);
    }
  }

  lemma RankBelowCount(gs: seq<Group>, k: Kind, g: nat)
    requires g < |gs| && gs[g] == Of(k)
    ensures Rank(gs, k, g) < Count(gs, k)
  {
    RankMonotone(gs, k, g + 1, |gs|);
  }

  /** Groups of different types never share a class. */
  lemma TypesStayApart(gs: seq<Group>, numTcs: nat, g: nat, h: nat)
    requires Types(gs) <= numTcs && g < |gs| && h < |gs| && gs[g].Of? && gs[h].Of?
    requires ClassOf(gs, numTcs, g) == ClassOf(gs, numTcs, h)
    ensures gs[g].kind == gs[h].kind
  {
  }

  // ---------- Even spread ----------

  /** How many groups before `g` went to class `c`. */
  function Load(gs: seq<Group>, numTcs: nat, c: nat, g: nat): nat
    requires Types(gs) <= numTcs && g <= |gs|
  {
    if g == 0 then 0
    else Load(gs, numTcs, c, g - 1) + if gs[g - 1].Of? && ClassOf(gs, numTcs, g - 1) == c then 1 else 0
  }

  lemma MultipleGrows(d: int, m: nat)
    ensures d >= 1 ==> d * m >= m
    ensures d <= -1 ==> d * m <= -1 * m
  {
    if d >= 1 {
      assert (d - 1) * m >= 0;
    } else if d <= -1 {
      assert (-1 - d) * m >= 0;
    }
  }

  lemma DivMod(x: nat, m: nat, q: nat, r: nat)
    requires m > 0 && r < m && x == q * m + r
    ensures x / m == q && x % m == r
  {
    var p, s := x / m, x % m;
    assert x == p * m + s;
    assert (p - q) * m == p * m - q * m;
    MultipleGrows(p - q, m);
  }

  lemma ModStep(n: nat, m: nat)
    requires m > 0
    ensures (n + 1) % m == if n % m + 1 == m then 0 else n % m + 1
    ensures (n + 1) / m == n / m + if n % m + 1 == m then 1 else 0
  {
    var q, r := n / m, n % m;
    assert n == q * m + r;
    if r + 1 == m {
      assert (q + 1) * m == q * m + m;
      DivMod(n + 1, m, q + 1, 0);
    } else {
      DivMod(n + 1, m, q, r + 1);
    }
  }

  /** A class takes every m-th group of its kind. */
  lemma {:induction false} LoadIsShare(gs: seq<Group>, numTcs: nat, k: Kind, m: nat, j: nat, g: nat)
    requires Types(gs) <= numTcs && g <= |gs| && j < m == Quotas(gs, numTcs).For(k)
    ensures Load(gs, numTcs, Quotas(gs, numTcs).Base(k) + j, g)
         == Rank(gs, k, g) / m + if j < Rank(gs, k, g) % m then 1 else 0
    decreases g
  {
    if g == 0 {
      DivMod(0, m, 0, 0);
    } else {
      LoadIsShare(gs, numTcs, k, m, j, g - 1);
      ModStep(Rank(gs, k, g - 1), m);
      ClassAt(gs, numTcs, k, m, j, g - 1);
    }
  }

  lemma ClassAt(gs: seq<Group>, numTcs: nat, k: Kind, m: nat, j: nat, g: nat)
    requires Types(gs) <= numTcs && g < |gs| && j < m == Quotas(gs, numTcs).For(k)
    ensures gs[g].Of? && ClassOf(gs, numTcs, g) == Quotas(gs, numTcs).Base(k) + j
       <==> gs[g] == Of(k) && Rank(gs, k, g) % m == j
  {
    if gs[g].Of? {
      var q := Quotas(gs, numTcs);
      RankBelowCount(gs, gs[g].kind, g);
      OwnSlot(q, k, gs[g].kind, j, Rank(gs, gs[g].kind, g));
      hide Rank, Types, Quotas;
    }
  }

  /** The kinds' classes do not overlap. */
  lemma OwnSlot(q: Quota, k: Kind, l: Kind, j: nat, rank: nat)
    requires j < q.For(k) && 0 < q.For(l)
    ensures q.Base(l) + rank % q.For(l) == q.Base(k) + j <==> l == k && rank % q.For(l) == j
  {
  }

  /** Per type, the numbers of groups on any two of its classes differ by at most one, and no class
      of the type is left empty. */
  lemma EvenSpread(gs: seq<Group>, numTcs: nat, k: Kind, i: nat, j: nat)
    requires Types(gs) <= numTcs && i < Quotas(gs, numTcs).For(k) && j < Quotas(gs, numTcs).For(k)
    ensures Load(gs, numTcs, Quotas(gs, numTcs).Base(k) + i, |gs|)
         <= Load(gs, numTcs, Quotas(gs, numTcs).Base(k) + j, |gs|) + 1
    ensures Load(gs, numTcs, Quotas(gs, numTcs).Base(k) + i, |gs|) > 0
  {
    var m := Quotas(gs, numTcs).For(k);
    LoadIsShare(gs, numTcs, k, m, i, |gs|);
    LoadIsShare(gs, numTcs, k, m, j, |gs|);
    AtLeastOne(Count(gs, k), m);
  }

  lemma AtLeastOne(n: nat, m: nat)
    requires 0 < m <= n
    ensures n / m >= 1
  {
    assert n == (n / m) * m + n % m;
    MultipleGrows(n / m, m);
  }

  lemma {:induction false} LoadWitness(gs: seq<Group>, numTcs: nat, c: nat, g: nat) returns (h: nat)
    requires Types(gs) <= numTcs && g <= |gs| && Load(gs, numTcs, c, g) > 0
    ensures h < g && gs[h].Of? && ClassOf(gs, numTcs, h) == c
    decreases g
  {
    if gs[g - 1].Of? && ClassOf(gs, numTcs, g - 1) == c {
      h := g - 1;
    } else {
      h := LoadWitness(gs, numTcs, c, g - 1);
    }
  }

  // ---------- Where left-over bandwidth goes ----------

  /** dcb_rule_chk.c:230. Minus one when every class is link strict. */
  function LeftoverClass(gs: seq<Group>, numTcs: nat): int
    requires Types(gs) <= numTcs
  {
    numTcs - Quotas(gs, numTcs).strict - 1
  }

  /** `c` is the highest class that carries a group that is not link strict. */
  predicate IsTopNonStrict(gs: seq<Group>, numTcs: nat, c: int)
    requires Types(gs) <= numTcs
  {
    && (exists g :: 0 <= g < |gs| && gs[g].Of? && !gs[g].kind.Strict? && ClassOf(gs, numTcs, g) == c)
    && (forall g :: 0 <= g < |gs| && gs[g].Of? && !gs[g].kind.Strict? ==> ClassOf(gs, numTcs, g) <= c)
  }

  lemma TopNonStrict(gs: seq<Group>, numTcs: nat)
    requires Types(gs) <= numTcs && Count(gs, BestEffort) + Count(gs, FlowControlled) > 0
    ensures IsTopNonStrict(gs, numTcs, Quotas(gs, numTcs).be + Quotas(gs, numTcs).pfc - 1)
  {
    var q := Quotas(gs, numTcs);
    var k := if Count(gs, FlowControlled) > 0 then FlowControlled else BestEffort;
    assert q.For(k) > 0;
    EvenSpread(gs, numTcs, k, q.For(k) - 1, 0);
    var g := LoadWitness(gs, numTcs, q.be + q.pfc - 1, |gs|);
  }

  /** The comment at dcb_rule_chk.c:224 promises left-over bandwidth to the highest class that is
      not strict. It goes there exactly when there are at least as many groups as classes. */
  lemma LeftoverPlacement(gs: seq<Group>, numTcs: nat)
    requires Types(gs) <= numTcs && Count(gs, BestEffort) + Count(gs, FlowControlled) > 0
    ensures IsTopNonStrict(gs, numTcs, LeftoverClass(gs, numTcs)) <==> Used(gs) >= numTcs
  {
    TopNonStrict(gs, numTcs);
  }
}
