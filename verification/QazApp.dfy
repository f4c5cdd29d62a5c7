/** The application priority table of IEEE 802.1Qaz DCBX (lldp_8021qaz.c): local and advertised
    entries, mirrored into the kernel.
 */
module QazApp {

  /** Selector, protocol and priority identify an entry. */
  datatype Key = Key(selector: nat, protocol: nat, priority: nat)

  /** What the next flush owes the kernel. */
  datatype Hw = ToSet | ToDelete | Done

  datatype App = App(peer: bool, hw: Hw)

  /** The daemon's entries and the kernel's. */
  datatype Table = Table(apps: map<Key, App>, kernel: set<Key>)

  // ---------- Operations ----------

  /** ieee8021qaz_mod_app. */
  function Mod(t: Table, k: Key, peer: bool, delete: bool): Table {
    if k in t.apps then
      if delete then t.(apps := t.apps[k := t.apps[k].(hw := ToDelete)]) else t
    else if delete then t
    else t.(apps := t.apps[k := App(peer, ToSet)])
  }

  function Withdrawn(a: App): App {
    if a.peer then a.(hw := ToDelete) else a
  }

  /** ieee8021qaz_app_reset. */
  function Reset(t: Table): Table {
    t.(apps := map k | k in t.apps :: Withdrawn(t.apps[k]))
  }

  /** One advertised entry. */
  function Advertise(t: Table, k: Key): Table {
    if k in t.apps then t.(apps := t.apps[k := t.apps[k].(hw := ToSet)]) else Mod(t, k, true, false)
  }

  function AdvertiseAll(t: Table, ks: seq<Key>): Table
    decreases |ks|
  {
    if ks == [] then t else Advertise(AdvertiseAll(t, ks[..|ks| - 1]), ks[|ks| - 1])
  }

  /** process_ieee8021qaz_app_tlv. */
  function PeerTlv(t: Table, ks: seq<Key>): Table {
    AdvertiseAll(Reset(t), ks)
  }

  /** __ieee8021qaz_app_sethw. */
  function Flush(t: Table): Table {
    Table(map k | k in t.apps && t.apps[k].hw != ToDelete :: t.apps[k].(hw := Done),
          t.kernel + (set k | k in t.apps && t.apps[k].hw == ToSet) - (set k | k in t.apps && t.apps[k].hw == ToDelete))
  }

  datatype Op =
    | Add(key: Key)
    | Delete(key: Key)
    | Tlv(keys: seq<Key>)
    | Silence
    | Write

  function Apply(t: Table, op: Op): Table {
    match op
    case Add(k) => Mod(t, k, false, false)
    case Delete(k) => Mod(t, k, false, true)
    case Tlv(ks) => PeerTlv(t, ks)
    case Silence => Reset(t)
    case Write => Flush(t)
  }

  function Run(t: Table, ops: seq<Op>): Table
    decreases |ops|
  {
    if ops == [] then t else Apply(Run(t, ops[..|ops| - 1]), ops[|ops| - 1])
  }

  // ---------- The kernel follows the table ----------

  /** The kernel holds nothing the daemon does not know of, and all that the daemon believes done. */
  ghost predicate Mirrors(t: Table) {
    && (forall k :: k in t.kernel ==> k in t.apps)
    && (forall k :: k in t.apps && t.apps[k].hw == Done ==> k in t.kernel)
  }

  lemma {:induction false} AdvertisedEntries(t: Table, ks: seq<Key>, k: Key)
    ensures AdvertiseAll(t, ks).kernel == t.kernel
    ensures k in AdvertiseAll(t, ks).apps <==> k in t.apps || k in ks
    ensures k in ks ==> AdvertiseAll(t, ks).apps[k] == App(if k in t.apps then t.apps[k].peer else true, ToSet)
    ensures k !in ks && k in t.apps ==> AdvertiseAll(t, ks).apps[k] == t.apps[k]
    decreases |ks|
  {
    if ks != [] {
      var n := |ks| - 1;
      assert ks == ks[..n] + [ks[n]];
      AdvertisedEntries(t, ks[..n], k);
    }
  }

  lemma ApplyMirrors(t: Table, op: Op)
    requires Mirrors(t)
    ensures Mirrors(Apply(t, op))
  {
    if op.Tlv? {
      forall k ensures
          var r := PeerTlv(t, op.keys);
          && r.kernel == t.kernel && (k in t.apps ==> k in r.apps)
          && (k in r.apps && r.apps[k].hw == Done ==> k in t.apps && t.apps[k].hw == Done)
      {
        AdvertisedEntries(Reset(t), op.keys, k);
      }
    }
  }

  lemma {:induction false} RunMirrors(ops: seq<Op>)
    ensures Mirrors(Run(Table(map[], {}), ops))
    decreases |ops|
  {
    if ops != [] {
      RunMirrors(ops[..|ops| - 1]);
      ApplyMirrors(Run(Table(map[], {}), ops[..|ops| - 1]), ops[|ops| - 1]);
    }
  }

  /** Whatever came before, a flush leaves the kernel with exactly the daemon's entries. */
  lemma KernelEqualsTable(ops: seq<Op>)
    ensures var t := Flush(Run(Table(map[], {}), ops)); t.kernel == t.apps.Keys
  {
    RunMirrors(ops);
  }

  // ---------- What peers can do ----------

  ghost predicate IsLocal(t: Table, k: Key) {
    k in t.apps && !t.apps[k].peer && t.apps[k].hw != ToDelete
  }

  /** After any history, a flush that follows a peer's TLV leaves, in the daemon and in the kernel,
      exactly the local entries not pending deletion and the advertised ones. */
  lemma TlvLeavesLocalAndAdvertised(ops: seq<Op>, ks: seq<Key>, k: Key)
    ensures var before := Run(Table(map[], {}), ops);
            var after := Flush(PeerTlv(before, ks));
            && (k in after.apps <==> IsLocal(before, k) || k in ks)
            && (k in after.kernel <==> IsLocal(before, k) || k in ks)
  {
    var before := Run(Table(map[], {}), ops);
    AdvertisedEntries(Reset(before), ks, k);
    KernelEqualsTable(ops + [Tlv(ks)]);
    assert (ops + [Tlv(ks)])[..|ops|] == ops;
    assert Run(Table(map[], {}), ops + [Tlv(ks)]) == PeerTlv(before, ks);
  }

  predicate ByPeer(op: Op) {
    op.Tlv? || op.Silence? || op.Write?
  }

  /** Peer activity and flushes alone never remove a local entry. */
  lemma {:induction false} PeersKeepLocal(t: Table, ops: seq<Op>, k: Key)
    requires IsLocal(t, k) && forall i :: 0 <= i < |ops| ==> ByPeer(ops[i])
    ensures IsLocal(Run(t, ops), k)
    decreases |ops|
  {
    if ops != [] {
      PeersKeepLocal(t, ops[..|ops| - 1], k);
      var s, op := Run(t, ops[..|ops| - 1]), ops[|ops| - 1];
      if op.Tlv? {
        AdvertisedEntries(Reset(s), op.keys, k);
      }
    }
  }

  /** Adding an entry locally is meant to make it last whatever peers do. It does exactly when the
      table has no entry of that identity that is pending deletion or came from a peer. */
  lemma AddLastsIff(ops: seq<Op>, k: Key)
    ensures var t := Run(Table(map[], {}), ops);
            k in Flush(Reset(Mod(t, k, false, false))).kernel <==> (k in t.apps ==> IsLocal(t, k))
  {
    RunMirrors(ops);
  }

  /** Adding an entry takes effect at the next flush exactly when none is pending deletion. */
  lemma AddTakesEffectIff(ops: seq<Op>, k: Key)
    ensures var t := Run(Table(map[], {}), ops);
            k in Flush(Mod(t, k, false, false)).kernel <==> !(k in t.apps && t.apps[k].hw == ToDelete)
  {
    RunMirrors(ops);
  }

  /** A deleted entry, flushed or not, is gone from the daemon and the kernel after the next flush. */
  lemma DeletedIsGone(ops: seq<Op>, k: Key)
    ensures var t := Flush(Apply(Run(Table(map[], {}), ops), Delete(k)));
            k !in t.apps && k !in t.kernel
  {
    RunMirrors(ops);
    ApplyMirrors(Run(Table(map[], {}), ops), Delete(k));
  }

  /** Adding or deleting one entry is no other entry's business, and until the next flush not the kernel's. */
  lemma OthersUntouched(t: Table, k: Key, c: Key)
    requires c != k
    ensures forall r :: r in [Apply(t, Add(k)), Apply(t, Delete(k))] ==>
              && r.kernel == t.kernel && (c in r.apps <==> c in t.apps) && (c in t.apps ==> r.apps[c] == t.apps[c])
  {
  }

  /** The peer's silence takes away exactly what is the peer's or was deleted. */
  lemma SilenceLeavesLocal(ops: seq<Op>, k: Key)
    ensures var before := Run(Table(map[], {}), ops);
            var after := Flush(Apply(before, Silence));
            (k in after.apps <==> IsLocal(before, k)) && (k in after.kernel <==> IsLocal(before, k))
  {
    RunMirrors(ops);
  }

  lemma RunSnoc(ops: seq<Op>, last: Op)
    ensures Run(Table(map[], {}), ops + [last]) == Apply(Run(Table(map[], {}), ops), last)
    ensures Run(Table(map[], {}), []) == Table(map[], {})
  {
    assert (ops + [last])[..|ops|] == ops;
  }

  /** Adding an entry that the peer advertises does not make it local: the peer's silence takes it away. */
  lemma AddBesidePeerIsLost()
    ensures var k := Key(1, 0x8906, 3);
            k !in Run(Table(map[], {}), [Tlv([k]), Add(k), Silence, Write]).kernel
  {
    var k := Key(1, 0x8906, 3);
    RunSnoc([], Tlv([k]));
    RunSnoc([Tlv([k])], Add(k));
    RunSnoc([Tlv([k]), Add(k)], Silence);
    RunSnoc([Tlv([k]), Add(k), Silence], Write);
    assert [] + [Tlv([k])] == [Tlv([k])] && [Tlv([k])] + [Add(k)] == [Tlv([k]), Add(k)];
    assert [Tlv([k]), Add(k)] + [Silence] == [Tlv([k]), Add(k), Silence];
    assert [Tlv([k]), Add(k), Silence] + [Write] == [Tlv([k]), Add(k), Silence, Write];
    AdvertisedEntries(Reset(Table(map[], {})), [k], k);
    hide Run;
  }

  /** Deleting and adding again before the next flush loses the entry. */
  lemma ReAddIsLost()
    ensures var k := Key(1, 0x8906, 3);
            k !in Run(Table(map[], {}), [Add(k), Write, Delete(k), Add(k), Write]).kernel
  {
    var k := Key(1, 0x8906, 3);
    var ops := [Add(k), Write, Delete(k), Add(k), Write];
    var t0 := Table(map[], {});
    assert ops[..4] == [Add(k), Write, Delete(k), Add(k)] && ops[..4][..3] == [Add(k), Write, Delete(k)];
    assert ops[..4][..3][..2] == [Add(k), Write] && ops[..4][..3][..2][..1] == [Add(k)];
    assert Run(t0, [Add(k)]) == Apply(Run(t0, [Add(k)][..0]), Add(k));
    assert Run(t0, [Add(k), Write]) == Flush(Run(t0, [Add(k)]));
    assert Run(t0, [Add(k), Write, Delete(k)]) == Mod(Run(t0, [Add(k), Write]), k, false, true);
    assert Run(t0, ops[..4]) == Mod(Run(t0, [Add(k), Write, Delete(k)]), k, false, false);
    assert Run(t0, ops) == Flush(Run(t0, ops[..4]));
  }
}
