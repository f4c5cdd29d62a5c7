/** The application table as lldp_8021qaz.c keeps it: a list searched front to back and edited in
    place, next to the kernel's own table.
 */
module QazAppList {
  import opened Words
  import opened QazApp

  datatype Entry = Entry(key: Key, app: App)

  ghost predicate UniqueKeys(es: seq<Entry>) {
    forall i, j :: 0 <= i < j < |es| ==> es[i].key != es[j].key
  }

  /** The list holds exactly the entries of the table, each once. */
  ghost predicate Represents(es: seq<Entry>, apps: map<Key, App>) {
    && UniqueKeys(es)
    && (forall i :: 0 <= i < |es| ==> es[i].key in apps && apps[es[i].key] == es[i].app)
    && (forall k :: k in apps ==> exists i :: 0 <= i < |es| && es[i].key == k)
  }

  lemma UpdateRepresents(es: seq<Entry>, apps: map<Key, App>, i: nat, a: App)
    requires Represents(es, apps) && i < |es|
    ensures Represents(es[i := Entry(es[i].key, a)], apps[es[i].key := a])
  {
    var r := es[i := Entry(es[i].key, a)];
    forall k | k in apps ensures exists j :: 0 <= j < |r| && r[j].key == k {
      var j :| 0 <= j < |es| && es[j].key == k;
      assert r[j].key == k;
    }
  }

  lemma InsertRepresents(es: seq<Entry>, apps: map<Key, App>, k: Key, a: App)
    requires Represents(es, apps) && k !in apps
    ensures Represents([Entry(k, a)] + es, apps[k := a])
  {
    var r, to := [Entry(k, a)] + es, apps[k := a];
    forall c | c in to ensures exists j :: 0 <= j < |r| && r[j].key == c {
      if c == k {
        assert r[0].key == c;
      } else {
        var j :| 0 <= j < |es| && es[j].key == c;
        assert r[j + 1].key == c;
      }
    }
  }

  lemma RemovedAt(es: seq<Entry>, i: nat, j: nat)
    requires i < |es| && j + 1 < |es|
    ensures (es[..i] + es[i + 1..])[j] == if j < i then es[j] else es[j + 1]
  {
  }

  /** Removing an entry leaves the others, unique, and its key nowhere. */
  lemma RemoveKeepsUnique(es: seq<Entry>, i: nat, r: seq<Entry>)
    requires UniqueKeys(es) && i < |es| && r == es[..i] + es[i + 1..]
    ensures UniqueKeys(r) && forall j :: 0 <= j < |r| ==> r[j] in es && r[j].key != es[i].key
  {
    forall j | 0 <= j < |r| ensures r[j] in es && r[j].key != es[i].key {
      RemovedAt(es, i, j);
    }
    forall j, k | 0 <= j < k < |r| ensures r[j].key != r[k].key {
      RemovedAt(es, i, j);
      RemovedAt(es, i, k);
    }
  }

  lemma RemoveKeepsOthers(es: seq<Entry>, i: nat, r: seq<Entry>, j: nat)
    requires UniqueKeys(es) && i < |es| && r == es[..i] + es[i + 1..] && j < |es| && es[j].key != es[i].key
    ensures exists k :: 0 <= k < |r| && r[k].key == es[j].key
  {
    var k := if j < i then j else j - 1;
    RemovedAt(es, i, k);
    assert r[k].key == es[j].key;
  }

  lemma RemoveRepresents(es: seq<Entry>, apps: map<Key, App>, i: nat)
    requires Represents(es, apps) && i < |es|
    ensures Represents(es[..i] + es[i + 1..], map k | k in apps && k != es[i].key :: apps[k])
  {
    var r, to := es[..i] + es[i + 1..], map k | k in apps && k != es[i].key :: apps[k];
    RemoveKeepsUnique(es, i, r);
    hide UniqueKeys;
    forall k | k in to ensures exists j :: 0 <= j < |r| && r[j].key == k {
      var j :| 0 <= j < |es| && es[j].key == k;
      RemoveKeepsOthers(es, i, r, j);
    }
  }

  /** Changing every entry by the same rule changes the table by that rule. */
  lemma MapRepresents(es: seq<Entry>, apps: map<Key, App>, now: seq<Entry>, to: map<Key, App>)
    requires Represents(es, apps) && |now| == |es| && to.Keys == apps.Keys
    requires forall i :: 0 <= i < |es| ==> es[i].key in to && now[i] == Entry(es[i].key, to[es[i].key])
    ensures Represents(now, to)
  {
    forall k | k in to ensures exists i :: 0 <= i < |now| && now[i].key == k {
      var i :| 0 <= i < |es| && es[i].key == k;
      assert now[i].key == k;
    }
  }

  /** Entries whose deletion the front of the list has already seen through are gone. */
  ghost function Swept(apps: map<Key, App>, gone: set<Key>): map<Key, App> {
    map k | k in apps && k !in gone :: apps[k]
  }

  // ---------- Entries on the wire ----------

  /** Three bytes: priority and selector, protocol (Annex D.2.12 of IEEE 802.1Q). */
  function EncodeKey(k: Key): seq<u8>
    requires k.selector < 8 && k.priority < 8 && k.protocol < 0x10000
  {
    [k.priority * 32 + k.selector, k.protocol / 256, k.protocol % 256]
  }

  function EncodeKeys(ks: seq<Key>): (r: seq<u8>)
    requires forall i :: 0 <= i < |ks| ==> ks[i].selector < 8 && ks[i].priority < 8 && ks[i].protocol < 0x10000
    ensures |r| == 3 * |ks|
    decreases |ks|
  {
    if ks == [] then [] else EncodeKeys(ks[..|ks| - 1]) + EncodeKey(ks[|ks| - 1])
  }

  /** The entry that starts at `offset`. */
  function KeyAt(info: seq<u8>, offset: nat): Key
    requires offset + 2 < |info|
  {
    Key(info[offset] % 8, Word(info[offset + 1], info[offset + 2]), info[offset] / 32)
  }

  /** The first `n` entries of a TLV body. */
  function KeysOf(body: seq<u8>, n: nat): seq<Key>
    requires 3 * n <= |body|
  {
    if n == 0 then [] else KeysOf(body, n - 1) + [KeyAt(body, 3 * (n - 1))]
  }

  lemma {:induction false} KeysOfPrefix(a: seq<u8>, b: seq<u8>, n: nat)
    requires 3 * n <= |a|
    ensures KeysOf(a + b, n) == KeysOf(a, n)
    decreases n
  {
    if n > 0 {
      KeysOfPrefix(a, b, n - 1);
    }
  }

  /** The first byte has the priority in its highest three bits and the selector in its lowest three, two bits
      between them reserved; the protocol follows in network order. */
  lemma KeyFormat(info: seq<u8>, offset: nat, reserved: nat, k: Key)
    requires offset + 2 < |info| && reserved < 4 && k.selector < 8 && k.priority < 8
    requires info[offset] == 32 * k.priority + 8 * reserved + k.selector
    requires info[offset + 1] as int * 256 + info[offset + 2] as int == k.protocol
    ensures KeyAt(info, offset) == k
    ensures reserved == 0 && k.protocol < 0x10000 ==> EncodeKey(k) == info[offset..offset + 3]
  {
  }

  lemma KeyBack(k: Key)
    requires k.selector < 8 && k.priority < 8 && k.protocol < 0x10000
    ensures KeyAt(EncodeKey(k), 0) == k
  {
  }

  /** What is written is what is read. */
  lemma {:induction false} KeysRoundTrip(ks: seq<Key>)
    requires forall i :: 0 <= i < |ks| ==> ks[i].selector < 8 && ks[i].priority < 8 && ks[i].protocol < 0x10000
    ensures KeysOf(EncodeKeys(ks), |ks|) == ks
    decreases |ks|
  {
    if ks != [] {
      var n := |ks| - 1;
      KeysRoundTrip(ks[..n]);
      KeysOfPrefix(EncodeKeys(ks[..n]), EncodeKey(ks[n]), n);
      var all := EncodeKeys(ks);
      assert all[3 * n] == EncodeKey(ks[n])[0] && all[3 * n + 1] == EncodeKey(ks[n])[1] && all[3 * n + 2] == EncodeKey(ks[n])[2];
      KeyBack(ks[n]);
      assert KeyAt(all, 3 * n) == KeyAt(EncodeKey(ks[n]), 0);
      assert ks == ks[..n] + [ks[n]];
    }
  }

  const TLV_HEADER := 5

  // ---------- The list ----------

  class AppList {
    var entries: seq<Entry>
    var kernel: set<Key>
    /** The table the list stands for. */
    ghost var table: map<Key, App>

    ghost predicate Valid()
      reads this
    {
      Represents(entries, table)
    }

    ghost function View(): Table
      reads this
    {
      Table(table, kernel)
    }

    constructor ()
      ensures Valid() && View() == Table(map[], {})
    {
      entries, kernel, table := [], {}, map[];
    }

    /** Position of an entry, the length if there is none. */
    method Find(k: Key) returns (i: nat)
      requires Valid()
      ensures i <= |entries| && (i < |entries| <==> k in table)
      ensures i < |entries| ==> entries[i].key == k && entries[i].app == table[k]
    {
      i := 0;
      while i < |entries| && entries[i].key != k
        invariant i <= |entries| && forall j :: 0 <= j < i ==> entries[j].key != k
      {
        i := i + 1;
      }
    }

    method ModApp(k: Key, peer: bool, delete: bool) returns (known: bool)
      requires Valid()
      modifies this`entries, this`table
      ensures Valid() && View() == Mod(old(View()), k, peer, delete)
      ensures known == (k in old(table) || delete)
    {
      var i := Find(k);
      if i < |entries| {
        if delete {
          var a := entries[i].app.(hw := ToDelete);
          UpdateRepresents(entries, table, i, a);
          entries := entries[i := Entry(k, a)];
          table := table[k := a];
        }
        return true;
      }
      if delete {
        return true;
      }
      InsertRepresents(entries, table, k, App(peer, ToSet));
      entries := [Entry(k, App(peer, ToSet))] + entries;
      table := table[k := App(peer, ToSet)];
      known := false;
    }

    method ResetPeer()
      requires Valid()
      modifies this`entries, this`table
      ensures Valid() && View() == Reset(old(View()))
    {
      ghost var to := Reset(View()).apps;
      var es := entries;
      for i := 0 to |es|
        invariant |es| == |entries|
        invariant forall j :: 0 <= j < |es| ==>
                    es[j] == if j < i then Entry(entries[j].key, Withdrawn(entries[j].app)) else entries[j]
      {
        if es[i].app.peer {
          es := es[i := Entry(es[i].key, es[i].app.(hw := ToDelete))];
        }
      }
      assert to.Keys == table.Keys;
      MapRepresents(entries, table, es, to);
      entries, table := es, to;
    }

    method AdvertiseOne(k: Key)
      requires Valid()
      modifies this`entries, this`table
      ensures Valid() && View() == Advertise(old(View()), k)
    {
      var i := Find(k);
      if i < |entries| {
        var a := entries[i].app.(hw := ToSet);
        UpdateRepresents(entries, table, i, a);
        entries := entries[i := Entry(k, a)];
        table := table[k := a];
      } else {
        var _ := ModApp(k, true, false);
      }
    }

    /** process_ieee8021qaz_app_tlv; the body of the TLV holds whole entries. */
    method ProcessTlv(info: seq<u8>)
      requires Valid() && |info| >= TLV_HEADER && (|info| - TLV_HEADER) % 3 == 0
      modifies this`entries, this`table
      ensures Valid() && View() == PeerTlv(old(View()), KeysOf(info[TLV_HEADER..], (|info| - TLV_HEADER) / 3))
    {
      hide Represents, Reset, Advertise;
      ghost var body, n := info[TLV_HEADER..], 0;
      ResetPeer();
      ghost var t := View();
      var offset := TLV_HEADER;
      while offset < |info|
        invariant offset == TLV_HEADER + 3 * n <= |info|
        invariant Valid() && View() == AdvertiseAll(t, KeysOf(body, n))
      {
        var k := Key(info[offset] % 8, Word(info[offset + 1], info[offset + 2]), info[offset] / 32);
        KeysStep(info, n);
        AdvertiseOne(k);
        offset := offset + 3;
        n := n + 1;
      }
    }

    /** __ieee8021qaz_app_sethw. */
    method SetHw()
      requires Valid()
      modifies this`entries, this`table, this`kernel
      ensures Valid() && View() == Flush(old(View()))
    {
      hide Represents;
      var es, toSet := SetPending(entries, table);
      var rest, gone := DeletePending(es, AfterSet(table));
      FlushParts(table, kernel, toSet, gone);
      entries, kernel, table := rest, kernel + toSet - gone, Swept(AfterSet(table), gone);
    }
  }

  // ---------- The passes of a flush ----------

  ghost function AfterSet(apps: map<Key, App>): map<Key, App> {
    map k | k in apps :: if apps[k].hw == ToSet then apps[k].(hw := Done) else apps[k]
  }

  /** First pass: tell the kernel what to set. */
  method SetPending(es: seq<Entry>, ghost apps: map<Key, App>) returns (r: seq<Entry>, keys: set<Key>)
    requires Represents(es, apps)
    ensures Represents(r, AfterSet(apps))
    ensures keys == set k | k in apps && apps[k].hw == ToSet
  {
    r, keys := es, {};
    for i := 0 to |es|
      invariant |r| == |es|
      invariant forall j :: 0 <= j < |es| ==>
                  r[j] == if j < i && es[j].app.hw == ToSet then Entry(es[j].key, es[j].app.(hw := Done)) else es[j]
      invariant keys == set j | 0 <= j < i && es[j].app.hw == ToSet :: es[j].key
    {
      if r[i].app.hw == ToSet {
        keys := keys + {r[i].key};
        r := r[i := Entry(r[i].key, r[i].app.(hw := Done))];
      }
    }
    ghost var to := AfterSet(apps);
    assert to.Keys == apps.Keys;
    MapRepresents(es, apps, r, to);
    SetKeys(es, apps);
  }

  /** Second pass: remove what is to be deleted. */
  method DeletePending(es: seq<Entry>, ghost apps: map<Key, App>) returns (r: seq<Entry>, gone: set<Key>)
    requires Represents(es, apps)
    ensures Represents(r, Swept(apps, gone))
    ensures gone == set k | k in apps && apps[k].hw == ToDelete
  {
    r, gone := es, {};
    assert Swept(apps, gone) == apps;
    hide Represents;
    var i := 0;
    while i < |r|
      invariant i <= |r| && Represents(r, Swept(apps, gone))
      invariant forall k :: k in gone ==> k in apps && apps[k].hw == ToDelete
      invariant forall j :: 0 <= j < i ==> r[j].app.hw != ToDelete
      decreases |r| - i
    {
      if r[i].app.hw == ToDelete {
        var k := r[i].key;
        SweepOne(r, apps, gone, i);
        gone := gone + {k};
        r := r[..i] + r[i + 1..];
      } else {
        i := i + 1;
      }
    }
    NoneLeft(r, apps, gone);
  }

  lemma NoneLeft(r: seq<Entry>, apps: map<Key, App>, gone: set<Key>)
    requires Represents(r, Swept(apps, gone)) && forall j :: 0 <= j < |r| ==> r[j].app.hw != ToDelete
    ensures forall k :: k in apps && apps[k].hw == ToDelete ==> k in gone
  {
    var rest := Swept(apps, gone);
    forall k | k in rest ensures rest[k].hw != ToDelete {
      var j :| 0 <= j < |r| && r[j].key == k;
    }
    assert forall k :: k in apps && k !in gone ==> k in rest && rest[k] == apps[k];
  }

  lemma FlushParts(apps: map<Key, App>, kernel: set<Key>, toSet: set<Key>, gone: set<Key>)
    requires toSet == set k | k in apps && apps[k].hw == ToSet
    requires gone == set k | k in AfterSet(apps) && AfterSet(apps)[k].hw == ToDelete
    ensures Table(Swept(AfterSet(apps), gone), kernel + toSet - gone) == Flush(Table(apps, kernel))
  {
    var f := Flush(Table(apps, kernel));
    assert gone == set k | k in apps && apps[k].hw == ToDelete;
    assert Swept(AfterSet(apps), gone) == f.apps;
    assert kernel + toSet - gone == f.kernel;
  }

  lemma SweepOne(r: seq<Entry>, apps: map<Key, App>, gone: set<Key>, i: nat)
    requires Represents(r, Swept(apps, gone)) && i < |r|
    ensures r[i].key in apps && apps[r[i].key] == r[i].app
    ensures Represents(r[..i] + r[i + 1..], Swept(apps, gone + {r[i].key}))
  {
    var rest, k := Swept(apps, gone), r[i].key;
    assert k in rest && rest[k] == r[i].app;
    RemoveRepresents(r, rest, i);
    assert (map c | c in rest && c != k :: rest[c]) == Swept(apps, gone + {k});
  }

  /** Reading one more entry of a TLV. */
  lemma KeysStep(info: seq<u8>, n: nat)
    requires TLV_HEADER + 3 * (n + 1) <= |info|
    ensures var body, offset := info[TLV_HEADER..], TLV_HEADER + 3 * n;
            && KeysOf(body, n + 1) != [] && KeysOf(body, n + 1)[..|KeysOf(body, n + 1)| - 1] == KeysOf(body, n)
            && KeysOf(body, n + 1)[|KeysOf(body, n + 1)| - 1]
               == Key(info[offset] % 8, Word(info[offset + 1], info[offset + 2]), info[offset] / 32)
  {
  }

  lemma SetKeys(es: seq<Entry>, apps: map<Key, App>)
    requires Represents(es, apps)
    ensures (set j | 0 <= j < |es| && es[j].app.hw == ToSet :: es[j].key) == (set k | k in apps && apps[k].hw == ToSet)
  {
    forall k | k in apps && apps[k].hw == ToSet ensures k in set j | 0 <= j < |es| && es[j].app.hw == ToSet :: es[j].key {
      var j :| 0 <= j < |es| && es[j].key == k;
    }
  }
}
