/** Enhanced transmission selection in IEEE 802.1Qaz DCBX (lldp_8021qaz.c): the priority map, the ETS
    TLVs of Annex D.2.9 and D.2.10 of IEEE 802.1Q, and what a willing port ends up programming.
 */
module QazEts {

  import opened Words

  const MAX_TCS := 8
  const OUI_SUB: seq<u8> := [0x00, 0x80, 0xc2]
  const ETSCFG: u8 := 9
  const ETSREC: u8 := 10

  // ---------- Priority maps: eight four-bit fields, priority 0 the most significant ----------

  /** A map shifted right by `k` fields. */
  function Shifted(m: nat, k: nat): nat {
    if k == 0 then m else Shifted(m / 16, k - 1)
  }

  /** get_prio_map. */
  function GetPrio(m: nat, prio: nat): nat {
    if prio > 7 then 0 else Shifted(m, 7 - prio) % 16
  }

  /** Field `k` from the right masked out and set to `tc`. */
  function WithField(m: nat, k: nat, tc: nat): nat {
    if k == 0 then m / 16 * 16 + tc else WithField(m / 16, k - 1, tc) * 16 + m % 16
  }

  /** set_prio_map. */
  function SetPrio(m: nat, prio: nat, tc: nat): nat
    requires prio < 8 && tc < 16
  {
    WithField(m, 7 - prio, tc)
  }

  lemma Joined(x: nat, r: nat)
    requires r < 16
    ensures (x * 16 + r) / 16 == x && (x * 16 + r) % 16 == r
  {
  }

  lemma {:induction false} FieldOf(m: nat, k: nat, l: nat, tc: nat)
    requires tc < 16
    ensures Shifted(WithField(m, k, tc), l) % 16 == if k == l then tc else Shifted(m, l) % 16
    decreases k
  {
    if k > 0 {
      Joined(WithField(m / 16, k - 1, tc), m % 16);
      FieldOf(m / 16, k - 1, if l > 0 then l - 1 else 0, tc);
    } else {
      Joined(m / 16, tc);
    }
  }

  /** Setting one priority's class changes that priority and no other. */
  lemma GetAfterSet(m: nat, p: nat, q: nat, tc: nat)
    requires p < 8 && q < 8 && tc < 16
    ensures GetPrio(SetPrio(m, p, tc), q) == if p == q then tc else GetPrio(m, q)
  {
    FieldOf(m, 7 - p, 7 - q, tc);
  }

  function Power16(n: nat): nat {
    if n == 0 then 1 else 16 * Power16(n - 1)
  }

  lemma {:induction false} FieldsDetermine(a: nat, b: nat, n: nat)
    requires a < Power16(n) && b < Power16(n)
    requires forall l :: 0 <= l < n ==> Shifted(a, l) % 16 == Shifted(b, l) % 16
    ensures a == b
    decreases n
  {
    if n > 0 {
      assert Shifted(a, 0) % 16 == Shifted(b, 0) % 16;
      forall l | 0 <= l < n - 1 ensures Shifted(a / 16, l) % 16 == Shifted(b / 16, l) % 16 {
        assert Shifted(a, l + 1) % 16 == Shifted(b, l + 1) % 16;
      }
      FieldsDetermine(a / 16, b / 16, n - 1);
    }
  }

  lemma {:induction false} FieldStaysSmall(m: nat, k: nat, tc: nat, n: nat)
    requires m < Power16(n) && k < n && tc < 16
    ensures WithField(m, k, tc) < Power16(n)
    decreases k
  {
    Below16(m, Power16(n - 1));
    if k > 0 {
      FieldStaysSmall(m / 16, k - 1, tc, n - 1);
    }
  }

  lemma Below16(m: nat, p: nat)
    requires m < 16 * p
    ensures m / 16 < p
  {
  }

  /** A map is its eight classes. */
  lemma ClassesDetermine(a: u32, b: u32)
    requires forall p :: 0 <= p < 8 ==> GetPrio(a, p) == GetPrio(b, p)
    ensures a == b
  {
    PowerOfEight();
    forall l | 0 <= l < 8 ensures Shifted(a, l) % 16 == Shifted(b, l) % 16 {
      assert GetPrio(a, 7 - l) == GetPrio(b, 7 - l);
    }
    FieldsDetermine(a, b, 8);
  }

  lemma PowerOfEight()
    ensures Power16(8) == 0x1_0000_0000
  {
    assert Power16(4) == 0x1_0000 by { assert Power16(2) == 0x100; }
    assert Power16(6) == 0x100_0000;
  }

  // ---------- TLVs ----------

  /** `etsrec_obj`. */
  datatype Ets = Ets(prioMap: u32, bw: seq<u8>, tsa: seq<u8>)
  {
    predicate Valid() {
      |bw| == |tsa| == MAX_TCS
    }
  }

  /** `etscfg_obj`. */
  datatype EtsCfg = EtsCfg(willing: bool, cbs: bool, maxTcs: u8, ets: Ets)

  /** Byte `i` of a map in network order. */
  function MapByte(m: u32, i: nat): u8
    requires i < 4
  {
    Shifted(m, 6 - 2 * i) % 256
  }

  /** The four bytes carry the classes of two priorities each, the lower priority first. */
  lemma MapByteFields(m: u32, i: nat)
    requires i < 4
    ensures MapByte(m, i) / 16 == GetPrio(m, 2 * i) && MapByte(m, i) % 16 == GetPrio(m, 2 * i + 1)
  {
    ShiftedNext(m, 6 - 2 * i);
    ByteHalves(Shifted(m, 6 - 2 * i));
  }

  lemma ByteHalves(x: nat)
    ensures (x % 256) / 16 == (x / 16) % 16 && (x % 256) % 16 == x % 16
  {
    var q, high, low := x / 256, (x % 256) / 16, (x % 256) % 16;
    assert x == (q * 16 + high) * 16 + low;
    Joined(q * 16 + high, low);
    Joined(q, high);
  }

  lemma {:induction false} ShiftedNext(m: nat, k: nat)
    ensures Shifted(m, k + 1) == Shifted(m, k) / 16
    decreases k
  {
    if k > 0 {
      ShiftedNext(m / 16, k - 1);
    }
  }

  function Wcrt(c: EtsCfg): u8 {
    (if c.willing then 128 else 0) + (if c.cbs then 64 else 0) + c.maxTcs % 8
  }

  function Payload(e: Ets): seq<u8> {
    [MapByte(e.prioMap, 0), MapByte(e.prioMap, 1), MapByte(e.prioMap, 2), MapByte(e.prioMap, 3)] + e.bw + e.tsa
  }

  /** The information string of an ETS TLV: identifier, a first byte, map, bandwidths, algorithms. */
  function Info(subtype: u8, first: u8, e: Ets): seq<u8> {
    OUI_SUB + [subtype, first] + Payload(e)
  }

  /** The layout on the wire: identifier and subtype, first byte, four bytes of two classes each with the lower
      priority's class in the higher bits, eight bandwidths, eight algorithms. */
  lemma Layout(subtype: u8, first: u8, e: Ets, i: nat)
    requires e.Valid() && i < 8
    ensures var b := Info(subtype, first, e);
            && |b| == 25 && b[..3] == [0x00, 0x80, 0xc2] && b[3] == subtype && b[4] == first
            && GetPrio(e.prioMap, i) == (if i % 2 == 0 then b[5 + i / 2] / 16 else b[5 + i / 2] % 16)
            && b[9 + i] == e.bw[i] && b[17 + i] == e.tsa[i]
  {
    MapByteFields(e.prioMap, i / 2);
    var b := Info(subtype, first, e);
    assert b[5 + i / 2] == MapByte(e.prioMap, i / 2);
  }

  const PAYLOAD := 5
  const INFO_SIZE := 25

  /** Read the map back, two priorities a byte. */
  method ReadMap(info: seq<u8>) returns (m: u32)
    requires |info| >= INFO_SIZE
    ensures forall p :: 0 <= p < 8 ==>
              GetPrio(m, p) == if p % 2 == 0 then info[PAYLOAD + p / 2] / 16 else info[PAYLOAD + p / 2] % 16
  {
    var acc: nat := 0;
    PowerOfEight();
    assert Power16(8) > 0;
    for i := 0 to 4
      invariant acc < Power16(8)
      invariant forall p :: 0 <= p < 2 * i ==>
                  GetPrio(acc, p) == if p % 2 == 0 then info[PAYLOAD + p / 2] / 16 else info[PAYLOAD + p / 2] % 16
    {
      var high, low := info[PAYLOAD + i] / 16, info[PAYLOAD + i] % 16;
      acc := SetTwo(acc, i, high, low);
    }
    m := acc;
  }

  method SetTwo(acc: nat, i: nat, high: nat, low: nat) returns (m: nat)
    requires i < 4 && high < 16 && low < 16 && acc < Power16(8)
    ensures m < Power16(8)
    ensures forall p :: 0 <= p < 8 ==>
              GetPrio(m, p) == if p == 2 * i then high else if p == 2 * i + 1 then low else GetPrio(acc, p)
  {
    var first := SetPrio(acc, 2 * i, high);
    m := SetPrio(first, 2 * i + 1, low);
    FieldStaysSmall(acc, 7 - 2 * i, high, 8);
    FieldStaysSmall(first, 6 - 2 * i, low, 8);
    hide GetPrio, SetPrio, Power16;
    forall p | 0 <= p < 8
      ensures GetPrio(m, p) == if p == 2 * i then high else if p == 2 * i + 1 then low else GetPrio(acc, p)
    {
      GetAfterSet(acc, 2 * i, p, high);
      GetAfterSet(first, 2 * i + 1, p, low);
    }
  }

  /** The payload of an ETS TLV, as both process functions read it. */
  method ReadPayload(info: seq<u8>) returns (e: Ets)
    requires |info| >= INFO_SIZE
    ensures e.Valid()
    ensures forall sent: Ets :: sent.Valid() && info[PAYLOAD..INFO_SIZE] == Payload(sent) ==> e == sent
  {
    var m := ReadMap(info);
    var bw: seq<u8>, tsa: seq<u8> := [], [];
    for i := 0 to MAX_TCS
      invariant bw == info[PAYLOAD + 4..PAYLOAD + 4 + i]
    {
      bw := bw + [info[PAYLOAD + 4 + i]];
    }
    for i := 0 to MAX_TCS
      invariant tsa == info[PAYLOAD + 12..PAYLOAD + 12 + i]
    {
      tsa := tsa + [info[PAYLOAD + 12 + i]];
    }
    e := Ets(m, bw, tsa);
    forall sent: Ets | sent.Valid() && info[PAYLOAD..INFO_SIZE] == Payload(sent) ensures e == sent {
      PayloadParts(info, sent);
      forall p | 0 <= p < 8 ensures GetPrio(m, p) == GetPrio(sent.prioMap, p) {
        MapByteFields(sent.prioMap, p / 2);
      }
      ClassesDetermine(m, sent.prioMap);
    }
  }

  lemma PayloadParts(info: seq<u8>, sent: Ets)
    requires |info| >= INFO_SIZE && sent.Valid() && info[PAYLOAD..INFO_SIZE] == Payload(sent)
    ensures forall i :: 0 <= i < 4 ==> info[PAYLOAD + i] == MapByte(sent.prioMap, i)
    ensures info[PAYLOAD + 4..PAYLOAD + 12] == sent.bw && info[PAYLOAD + 12..PAYLOAD + 20] == sent.tsa
  {
    var s := info[PAYLOAD..INFO_SIZE];
    forall i | 0 <= i < 4 ensures info[PAYLOAD + i] == MapByte(sent.prioMap, i) {
      assert info[PAYLOAD + i] == s[i];
    }
    assert s[4..12] == sent.bw && s[12..20] == sent.tsa;
    assert info[PAYLOAD + 4..PAYLOAD + 12] == s[4..12] && info[PAYLOAD + 12..PAYLOAD + 20] == s[12..20];
  }

  /** Fill in an ETS TLV byte by byte. */
  method WriteInfo(subtype: u8, first: u8, e: Ets) returns (info: seq<u8>)
    requires e.Valid()
    ensures info == Info(subtype, first, e) && |info| == INFO_SIZE
  {
    var bw: seq<u8>, tsa: seq<u8> := [], [];
    for i := 0 to MAX_TCS
      invariant bw == e.bw[..i] && tsa == e.tsa[..i]
    {
      bw := bw + [e.bw[i]];
      tsa := tsa + [e.tsa[i]];
    }
    assert bw == e.bw && tsa == e.tsa;
    var m := e.prioMap;
    info := OUI_SUB + [subtype, first] + ([MapByte(m, 0), MapByte(m, 1), MapByte(m, 2), MapByte(m, 3)] + bw + tsa);
  }

  /** The first byte of a configuration: willing in the highest bit, credit based shaper in the next, the class
      count in the lowest three. */
  lemma WcrtFormat(c: EtsCfg)
    ensures Wcrt(c) >= 128 <==> c.willing
    ensures Wcrt(c) % 128 >= 64 <==> c.cbs
    ensures Wcrt(c) % 64 == c.maxTcs % 8
  {
  }

  lemma WcrtBack(c: EtsCfg)
    ensures (Wcrt(c) / 128 == 1) == c.willing && ((Wcrt(c) / 64) % 2 == 1) == c.cbs && Wcrt(c) % 8 == c.maxTcs % 8
  {
  }

  // ---------- One port ----------

  /** What run_all_sm hands to the hardware, `ieee_ets`. */
  datatype Hardware = Hardware(txBw: seq<u8>, rxBw: seq<u8>, tsa: seq<u8>, prioTc: seq<nat>,
                               recoBw: seq<u8>, recoTsa: seq<u8>, recoPrioTc: seq<nat>)

  /** Hardware that runs exactly the map, bandwidths and algorithms of `e`. */
  ghost predicate Programs(h: Hardware, e: Ets) {
    && h.txBw == h.rxBw == h.recoBw == e.bw
    && h.tsa == h.recoTsa == e.tsa
    && |h.prioTc| == 8 && h.recoPrioTc == h.prioTc
    && forall p :: 0 <= p < 8 ==> h.prioTc[p] == GetPrio(e.prioMap, p)
  }

  /** Programming tells priority maps apart: two maps that program alike are one map. */
  lemma ProgramsDetermines(h: Hardware, a: Ets, b: Ets)
    requires Programs(h, a) && Programs(h, b)
    ensures a == b
  {
    ClassesDetermine(a.prioMap, b.prioMap);
  }

  method ToHardware(e: Ets) returns (h: Hardware)
    ensures Programs(h, e)
  {
    var classes: seq<nat> := [];
    for i := 0 to 8
      invariant |classes| == i && forall p :: 0 <= p < i ==> classes[p] == GetPrio(e.prioMap, p)
    {
      classes := classes + [GetPrio(e.prioMap, i)];
    }
    h := Hardware(e.bw, e.bw, e.tsa, classes, e.bw, e.tsa, classes);
  }

  /** `ets_attrib`: local configuration and recommendation, and what the neighbour sent. */
  class EtsPort {
    var cfgl: EtsCfg
    var recl: Ets
    var cfgr: Option<EtsCfg>
    var recr: Option<Ets>
    var follows: bool
    var hardware: Hardware

    ghost predicate Valid()
      reads this
    {
      && cfgl.ets.Valid() && recl.Valid() && (recr.Some? ==> recr.value.Valid())
      && (follows ==> recr.Some?)
    }

    constructor (cfg: EtsCfg, rec: Ets)
      requires cfg.ets.Valid() && rec.Valid()
      ensures Valid() && cfgl == cfg && recl == rec && recr.None? && cfgr.None? && !follows
    {
      cfgl, recl, cfgr, recr, follows := cfg, rec, None, None, false;
      hardware := Hardware([], [], [], [], [], [], []);
    }

    /** ets_sm and the ETS part of run_all_sm: what runs is the neighbour's recommendation if there is
        one and the port is willing, else the local configuration. */
    method RunMachine()
      requires Valid()
      modifies this`follows, this`hardware
      ensures Valid() && follows == (cfgl.willing && recr.Some?)
      ensures Programs(hardware, if cfgl.willing && recr.Some? then recr.value else cfgl.ets)
    {
      if cfgl.willing && recr.Some? {
        follows := true;
      } else if !cfgl.willing || recr.None? {
        follows := false;
      }
      if follows {
        hardware := ToHardware(recr.value);
      } else {
        hardware := ToHardware(cfgl.ets);
      }
    }

    /** bld_ieee8021qaz_etsrec_tlv. */
    method BuildRec() returns (info: seq<u8>)
      requires Valid()
      ensures info == Info(ETSREC, 0, recl) && |info| == INFO_SIZE
    {
      info := WriteInfo(ETSREC, 0, recl);
    }

    /** bld_ieee8021qaz_etscfg_tlv: flags are the port's own, the rest is what it runs. */
    method BuildCfg() returns (info: seq<u8>)
      requires Valid()
      ensures info == Info(ETSCFG, Wcrt(cfgl), if follows then recr.value else cfgl.ets) && |info| == INFO_SIZE
    {
      if !follows {
        info := WriteInfo(ETSCFG, Wcrt(cfgl), cfgl.ets);
      } else {
        info := WriteInfo(ETSCFG, Wcrt(cfgl), recr.value);
      }
    }

    /** process_ieee8021qaz_etsrec_tlv: it undoes BuildRec. */
    method ProcessRec(info: seq<u8>)
      requires Valid() && |info| >= INFO_SIZE
      modifies this`recr
      ensures Valid() && recr.Some?
      ensures forall sent: Ets :: sent.Valid() && info == Info(ETSREC, 0, sent) ==> recr.value == sent
    {
      var e := ReadPayload(info);
      recr := Some(e);
      forall sent: Ets | sent.Valid() && info == Info(ETSREC, 0, sent) ensures e == sent {
        assert info[PAYLOAD..INFO_SIZE] == Payload(sent);
      }
    }

    /** process_ieee8021qaz_etscfg_tlv: it undoes BuildCfg, the class count modulo eight. */
    method ProcessCfg(info: seq<u8>)
      requires Valid() && |info| >= INFO_SIZE
      modifies this`cfgr
      ensures Valid() && cfgr.Some?
      ensures forall sent: EtsCfg :: sent.ets.Valid() && info == Info(ETSCFG, Wcrt(sent), sent.ets) ==>
                cfgr.value == sent.(maxTcs := sent.maxTcs % 8)
    {
      var first := info[PAYLOAD - 1];
      var e := ReadPayload(info);
      var c := EtsCfg(first / 128 == 1, (first / 64) % 2 == 1, first % 8, e);
      cfgr := Some(c);
      hide Wcrt;
      forall sent: EtsCfg | sent.ets.Valid() && info == Info(ETSCFG, Wcrt(sent), sent.ets)
        ensures c == sent.(maxTcs := sent.maxTcs % 8)
      {
        assert info[PAYLOAD..INFO_SIZE] == Payload(sent.ets) && first == Wcrt(sent);
        WcrtBack(sent);
      }
    }
  }

  /** A recommendation sent to a willing port is what that port runs, whatever it ran before. */
  method RecommendationTakesEffect(sender: EtsPort, receiver: EtsPort)
    requires sender.Valid() && receiver.Valid() && receiver.cfgl.willing && sender != receiver
    modifies receiver
    ensures receiver.Valid() && receiver.follows && receiver.recr == Some(sender.recl)
    ensures Programs(receiver.hardware, sender.recl)
  {
    var info := sender.BuildRec();
    receiver.ProcessRec(info);
    receiver.RunMachine();
  }

  /** A configuration that is sent arrives, with what its sender runs, its class count modulo eight: a
      device with eight classes advertises zero. */
  method ConfigurationArrives(sender: EtsPort, receiver: EtsPort)
    requires sender.Valid() && receiver.Valid() && sender != receiver
    modifies receiver
    ensures receiver.Valid() && receiver.cfgr.Some?
    ensures receiver.cfgr.value.willing == sender.cfgl.willing && receiver.cfgr.value.cbs == sender.cfgl.cbs
    ensures receiver.cfgr.value.maxTcs == sender.cfgl.maxTcs <==> sender.cfgl.maxTcs < 8
    ensures receiver.cfgr.value.ets == if sender.follows then sender.recr.value else sender.cfgl.ets
  {
    var info := sender.BuildCfg();
    ghost var sent := sender.cfgl.(ets := if sender.follows then sender.recr.value else sender.cfgl.ets);
    assert info == Info(ETSCFG, Wcrt(sent), sent.ets);
    receiver.ProcessCfg(info);
  }
}
