/** Hand-over from IEEE 802.1Qaz to legacy DCBX on received LLDPDUs (lldp_dcbx.c, lldp_8021qaz.c and
    the dispatch loop of lldp/rx.c): both modules see each TLV of a frame in list order and decide at
    its end which of them is active.
 */
module Handover {
  import opened DcbxTypes

  /** TLVs as far as the two modules tell them apart. At the end of the LLDPDU the environment says
      whether stored legacy TLVs unpack and whether the configuration lets legacy DCBX start. */
  datatype Tlv =
    | ChassisId
    | Dcbx(version: Subtype)
    | DcbxUnknown
    | Qaz
    | QazUnknown
    | TooShort
    | Other
    | End(unpacks: bool, mayStart: bool)

  /** Order of the modules in the daemon's list, and the legacy version the port is configured for. */
  datatype Setup = Setup(legacyFirst: bool, configured: Subtype)

  /** The flags the modules keep; `seen` belongs to one frame. */
  datatype Flags = Flags(legacyActive: bool, rxed: bool, seen: set<Subtype>, ieeeActive: bool, qazdu: bool)

  datatype Outcome = Outcome(flags: Flags, error: bool)

  // ---------- The two modules ----------

  /** Legacy DCBX goes active at the end of a frame with legacy TLVs and no 802.1Qaz TLVs. */
  predicate Starts(f: Flags, mayStart: bool) {
    !f.legacyActive && !f.qazdu && f.rxed && mayStart
  }

  /** dcbx_rchange. */
  function Legacy(f: Flags, t: Tlv, configured: Subtype): Outcome {
    match t
    case ChassisId => Outcome(f.(rxed := false), false)
    case Dcbx(v) => if v in f.seen then Outcome(f, true) else Outcome(f.(rxed := true, seen := f.seen + {v}), false)
    case TooShort => Outcome(f, true)
    case End(unpacks, mayStart) =>
      Outcome(f.(legacyActive := f.legacyActive || Starts(f, mayStart)), configured in f.seen && !unpacks)
    case _ => Outcome(f, false)
  }

  /** ieee8021qaz_rchange. */
  function Ieee(f: Flags, t: Tlv): Outcome {
    match t
    case ChassisId => Outcome(f.(qazdu := false), false)
    case Qaz => Outcome(f.(qazdu := true), false)
    case TooShort => Outcome(f, true)
    case End(_, _) => Outcome(f.(ieeeActive := f.ieeeActive && (!f.rxed || f.qazdu)), false)
    case _ => Outcome(f, false)
  }

  /** An error from one module ends the frame before the next module sees the TLV. */
  function Dispatch(f: Flags, t: Tlv, s: Setup): Outcome {
    if s.legacyFirst then
      var r := Legacy(f, t, s.configured);
      if r.error then r else Ieee(r.flags, t)
    else
      var r := Ieee(f, t);
      if r.error then r else Legacy(r.flags, t, s.configured)
  }

  function Deliver(f: Flags, ts: seq<Tlv>, s: Setup): Flags
    decreases |ts|
  {
    if ts == [] then f
    else
      var r := Dispatch(f, ts[0], s);
      if r.error || ts[0].End? then r.flags else Deliver(r.flags, ts[1..], s)
  }

  /** A frame whose first TLV is not the chassis ID is dropped before any module sees it. The rest
      may break off anywhere. */
  function Frame(f: Flags, ts: seq<Tlv>, s: Setup): Flags {
    if ts == [] || !ts[0].ChassisId? then f else Deliver(f.(seen := {}), ts, s)
  }

  function Run(f: Flags, frames: seq<seq<Tlv>>, s: Setup): Flags
    decreases |frames|
  {
    if frames == [] then f else Frame(Run(f, frames[..|frames| - 1], s), frames[|frames| - 1], s)
  }

  // ---------- Never both ----------

  predicate Both(f: Flags) {
    f.legacyActive && f.ieeeActive
  }

  /** Neither module misses the end of a frame: the legacy module comes second, or it can unpack
      what it stored. */
  predicate BothSeeEnd(ts: seq<Tlv>, s: Setup) {
    !s.legacyFirst || forall i :: 0 <= i < |ts| && ts[i].End? ==> ts[i].unpacks
  }

  lemma {:induction false} DeliverNeverBoth(f: Flags, ts: seq<Tlv>, s: Setup)
    requires !Both(f) && BothSeeEnd(ts, s)
    ensures !Both(Deliver(f, ts, s))
    decreases |ts|
  {
    if ts != [] {
      var r := Dispatch(f, ts[0], s);
      if !r.error && !ts[0].End? {
        assert BothSeeEnd(ts[1..], s);
        DeliverNeverBoth(r.flags, ts[1..], s);
      }
    }
  }

  /** In no run of frames whose ends both modules see are both versions ever active. */
  lemma {:induction false} NeverBothActive(f: Flags, frames: seq<seq<Tlv>>, s: Setup)
    requires !Both(f) && forall i :: 0 <= i < |frames| ==> BothSeeEnd(frames[i], s)
    ensures !Both(Run(f, frames, s))
    decreases |frames|
  {
    if frames != [] {
      NeverBothActive(f, frames[..|frames| - 1], s);
      var g, ts := Run(f, frames[..|frames| - 1], s), frames[|frames| - 1];
      if ts != [] && ts[0].ChassisId? {
        DeliverNeverBoth(g.(seen := {}), ts, s);
      }
    }
  }

  /** The exact exception: both end up active exactly when the legacy module comes first, starts at
      the end of the frame, and then cannot unpack what it stored, so that 802.1Qaz, active until
      then, never learns of the end. */
  lemma BothAfterEndIff(f: Flags, t: Tlv, s: Setup)
    requires !Both(f) && t.End?
    ensures Both(Dispatch(f, t, s).flags) <==>
            s.legacyFirst && f.ieeeActive && Starts(f, t.mayStart) && s.configured in f.seen && !t.unpacks
  {
  }

  /** One frame that leaves both versions active. */
  lemma BothCanBeActive()
    ensures var f := Flags(false, false, {}, true, false);
            Both(Frame(f, [ChassisId, Dcbx(Cee), End(false, true)], Setup(true, Cee)))
  {
    var f, s := Flags(false, false, {}, true, false), Setup(true, Cee);
    var ts := [ChassisId, Dcbx(Cee), End(false, true)];
    assert ts[1..] == [Dcbx(Cee), End(false, true)] && ts[1..][1..] == [End(false, true)];
    var f1 := Dispatch(f, ts[0], s).flags;
    var f2 := Dispatch(f1, Dcbx(Cee), s).flags;
    assert f2.rxed && !f2.qazdu && f2.seen == {Cee};
    assert Deliver(f2, [End(false, true)], s) == Dispatch(f2, End(false, true), s).flags;
    assert Deliver(f1, ts[1..], s) == Deliver(f2, ts[1..][1..], s);
  }

  // ---------- One way only ----------

  lemma {:induction false} DeliverOneWay(f: Flags, ts: seq<Tlv>, s: Setup)
    ensures f.legacyActive ==> Deliver(f, ts, s).legacyActive
    ensures !f.ieeeActive ==> !Deliver(f, ts, s).ieeeActive
    decreases |ts|
  {
    if ts != [] {
      var r := Dispatch(f, ts[0], s);
      if !r.error && !ts[0].End? {
        DeliverOneWay(r.flags, ts[1..], s);
      }
    }
  }

  /** No received frames undo the switch. */
  lemma {:induction false} SwitchNeverUndone(f: Flags, frames: seq<seq<Tlv>>, s: Setup)
    ensures f.legacyActive ==> Run(f, frames, s).legacyActive
    ensures !f.ieeeActive ==> !Run(f, frames, s).ieeeActive
    decreases |frames|
  {
    if frames != [] {
      SwitchNeverUndone(f, frames[..|frames| - 1], s);
      var g, ts := Run(f, frames[..|frames| - 1], s), frames[|frames| - 1];
      DeliverOneWay(g.(seen := {}), ts, s);
    }
  }

  // ---------- When the switch happens ----------

  /** TLVs that neither end the frame nor break it off. */
  predicate Plain(ts: seq<Tlv>) {
    && (forall i :: 0 <= i < |ts| ==> !ts[i].ChassisId? && !ts[i].TooShort? && !ts[i].End?)
    && (forall i, j :: 0 <= i < j < |ts| && ts[i].Dcbx? && ts[j].Dcbx? ==> ts[i].version != ts[j].version)
  }

  predicate HasLegacy(ts: seq<Tlv>) {
    exists i :: 0 <= i < |ts| && ts[i].Dcbx?
  }

  /** What one TLV in the middle of a frame leaves behind, whichever module sees it first. */
  function Marked(f: Flags, t: Tlv): Flags {
    f.(rxed := f.rxed || t.Dcbx?, qazdu := f.qazdu || t.Qaz?, seen := if t.Dcbx? then f.seen + {t.version} else f.seen)
  }

  function MarkedAll(f: Flags, ts: seq<Tlv>): Flags
    decreases |ts|
  {
    if ts == [] then f else MarkedAll(Marked(f, ts[0]), ts[1..])
  }

  lemma PlainDispatch(f: Flags, t: Tlv, s: Setup)
    requires !t.ChassisId? && !t.TooShort? && !t.End? && (t.Dcbx? ==> t.version !in f.seen)
    ensures Dispatch(f, t, s) == Outcome(Marked(f, t), false)
  {
  }

  /** Both modules reach the end of a frame that nothing breaks off. */
  lemma {:induction false} PlainReachesEnd(f: Flags, ts: seq<Tlv>, end: Tlv, s: Setup)
    requires Plain(ts) && end.End?
    requires forall i :: 0 <= i < |ts| && ts[i].Dcbx? ==> ts[i].version !in f.seen
    ensures Deliver(f, ts + [end], s) == Dispatch(MarkedAll(f, ts), end, s).flags
    decreases |ts|
  {
    var all := ts + [end];
    if ts == [] {
      assert all == [end];
    } else {
      assert all[0] == ts[0] && all[1..] == ts[1..] + [end];
      PlainDispatch(f, ts[0], s);
      hide Dispatch;
      PlainReachesEnd(Marked(f, ts[0]), ts[1..], end, s);
    }
  }

  lemma {:induction false} MarkedFlags(f: Flags, ts: seq<Tlv>)
    ensures MarkedAll(f, ts).legacyActive == f.legacyActive && MarkedAll(f, ts).ieeeActive == f.ieeeActive
    ensures MarkedAll(f, ts).rxed <==> f.rxed || HasLegacy(ts)
    ensures MarkedAll(f, ts).qazdu <==> f.qazdu || Qaz in ts
    ensures forall v :: v in MarkedAll(f, ts).seen <==> v in f.seen || Dcbx(v) in ts
    decreases |ts|
  {
    if ts != [] {
      MarkedFlags(Marked(f, ts[0]), ts[1..]);
      assert HasLegacy(ts) <==> ts[0].Dcbx? || HasLegacy(ts[1..]) by {
        if HasLegacy(ts[1..]) {
          var i :| 0 <= i < |ts[1..]| && ts[1..][i].Dcbx?;
          assert ts[i + 1].Dcbx?;
        }
      }
      assert ts == [ts[0]] + ts[1..];
    }
  }

  /** With 802.1Qaz active and legacy DCBX not, a whole frame makes the switch exactly when it brings
      legacy TLVs and no 802.1Qaz TLVs and the configuration allows it. */
  lemma SwitchesIff(f: Flags, ts: seq<Tlv>, end: Tlv, s: Setup)
    requires f.ieeeActive && !f.legacyActive && Plain(ts) && end.End? && (s.legacyFirst ==> end.unpacks)
    ensures var r := Frame(f, [ChassisId] + ts + [end], s);
            && (r.legacyActive <==> HasLegacy(ts) && Qaz !in ts && end.mayStart)
            && (r.ieeeActive <==> !HasLegacy(ts) || Qaz in ts)
  {
    var all := [ChassisId] + ts + [end];
    var f1 := f.(seen := {}, rxed := false, qazdu := false);
    assert all[0] == ChassisId && all[1..] == ts + [end];
    assert Frame(f, all, s) == Deliver(f1, ts + [end], s);
    hide Deliver, Frame;
    PlainReachesEnd(f1, ts, end, s);
    MarkedFlags(f1, ts);
  }

  /** The exact exception for a whole frame that nothing breaks off earlier. */
  lemma BothAfterFrameIff(f: Flags, ts: seq<Tlv>, end: Tlv, s: Setup)
    requires !Both(f) && Plain(ts) && end.End?
    ensures Both(Frame(f, [ChassisId] + ts + [end], s)) <==>
            && s.legacyFirst && f.ieeeActive && !f.legacyActive
            && Dcbx(s.configured) in ts && Qaz !in ts && end.mayStart && !end.unpacks
  {
    var all := [ChassisId] + ts + [end];
    var f1 := f.(seen := {}, rxed := false, qazdu := false);
    assert all[0] == ChassisId && all[1..] == ts + [end];
    assert Frame(f, all, s) == Deliver(f1, ts + [end], s);
    hide Deliver, Frame;
    PlainReachesEnd(f1, ts, end, s);
    MarkedFlags(f1, ts);
    BothAfterEndIff(MarkedAll(f1, ts), end, s);
    if Dcbx(s.configured) in ts {
      var i :| 0 <= i < |ts| && ts[i] == Dcbx(s.configured);
      assert HasLegacy(ts);
    }
  }

  // ---------- Frames that break off ----------

  /** A frame that breaks off before its end, at an organisational TLV that is too short or at a second legacy
      TLV of one version, switches nothing. */
  lemma BrokenFrameSwitchesNothing(f: Flags, ts: seq<Tlv>, bad: Tlv, rest: seq<Tlv>, s: Setup)
    requires Plain(ts) && (bad.TooShort? || (bad.Dcbx? && bad in ts))
    ensures var r := Frame(f, [ChassisId] + ts + [bad] + rest, s);
            r.legacyActive == f.legacyActive && r.ieeeActive == f.ieeeActive
  {
    var all := [ChassisId] + ts + [bad] + rest;
    var f1 := f.(seen := {}, rxed := false, qazdu := false);
    assert all[0] == ChassisId && all[1..] == ts + ([bad] + rest);
    assert Frame(f, all, s) == Deliver(f1, ts + ([bad] + rest), s);
    hide Deliver, Frame;
    PlainReaches(f1, ts, [bad] + rest, s);
    MarkedFlags(f1, ts);
    assert bad.Dcbx? ==> Dcbx(bad.version) in ts;
    BreaksOff(MarkedAll(f1, ts), bad, rest, s);
  }

  lemma BreaksOff(f: Flags, bad: Tlv, rest: seq<Tlv>, s: Setup)
    requires bad.TooShort? || (bad.Dcbx? && bad.version in f.seen)
    ensures var r := Deliver(f, [bad] + rest, s); r.legacyActive == f.legacyActive && r.ieeeActive == f.ieeeActive
  {
    assert ([bad] + rest)[0] == bad;
  }

  /** Nothing before it breaks a frame off. */
  lemma {:induction false} PlainReaches(f: Flags, ts: seq<Tlv>, rest: seq<Tlv>, s: Setup)
    requires Plain(ts) && forall i :: 0 <= i < |ts| && ts[i].Dcbx? ==> ts[i].version !in f.seen
    ensures Deliver(f, ts + rest, s) == Deliver(MarkedAll(f, ts), rest, s)
    decreases |ts|
  {
    if ts == [] {
      assert ts + rest == rest;
    } else {
      assert (ts + rest)[0] == ts[0] && (ts + rest)[1..] == ts[1..] + rest;
      PlainDispatch(f, ts[0], s);
      hide Dispatch;
      PlainReaches(Marked(f, ts[0]), ts[1..], rest, s);
    }
  }

  /** Frames without legacy TLVs, frames that do not begin with a chassis ID, and empty ones switch nothing. */
  lemma OtherFramesSwitchNothing(f: Flags, ts: seq<Tlv>, end: Tlv, s: Setup)
    requires Plain(ts) && end.End? && !HasLegacy(ts)
    ensures var r := Frame(f, [ChassisId] + ts + [end], s);
            r.legacyActive == f.legacyActive && r.ieeeActive == f.ieeeActive
    ensures Frame(f, ts + [end], s) == f
  {
    var all := [ChassisId] + ts + [end];
    var f1 := f.(seen := {}, rxed := false, qazdu := false);
    assert all[0] == ChassisId && all[1..] == ts + [end];
    assert Frame(f, all, s) == Deliver(f1, ts + [end], s);
    assert (ts + [end])[0] == if ts == [] then end else ts[0];
    assert Frame(f, ts + [end], s) == f;
    hide Deliver, Frame, Dispatch;
    PlainReachesEnd(f1, ts, end, s);
    MarkedFlags(f1, ts);
    EndWithoutLegacy(MarkedAll(f1, ts), end, s);
  }

  lemma EndWithoutLegacy(f: Flags, end: Tlv, s: Setup)
    requires !f.rxed && end.End?
    ensures var r := Dispatch(f, end, s).flags; r.legacyActive == f.legacyActive && r.ieeeActive == f.ieeeActive
  {
  }

  // ---------- The code ----------

  /** What the two modules and the receive loop keep for one port. */
  class Port {
    var legacyActive: bool
    var rxed: bool
    var seen: set<Subtype>
    var ieeeActive: bool
    var qazdu: bool
    const setup: Setup

    ghost function View(): Flags
      reads this
    {
      Flags(legacyActive, rxed, seen, ieeeActive, qazdu)
    }

    constructor (legacy: bool, ieee: bool, setup: Setup)
      ensures View() == Flags(legacy, false, {}, ieee, false) && this.setup == setup
    {
      legacyActive, rxed, seen, ieeeActive, qazdu := legacy, false, {}, ieee, false;
      this.setup := setup;
    }

    method DcbxRchange(t: Tlv) returns (error: bool)
      modifies this`legacyActive, this`rxed, this`seen
      ensures Outcome(View(), error) == Legacy(old(View()), t, setup.configured)
      ensures legacyActive != old(legacyActive) <==> t.End? && Starts(old(View()), t.mayStart)
      ensures old(legacyActive) ==> legacyActive
      ensures rxed && !old(rxed) <==> t.Dcbx? && !error && !old(rxed)
      ensures !rxed && old(rxed) <==> t.ChassisId? && old(rxed)
      ensures error && !t.End? ==> View() == old(View())
      ensures error <==>
                || t.TooShort? || (t.Dcbx? && t.version in old(seen))
                || (t.End? && setup.configured in seen && !t.unpacks)
    {
      error := false;
      if t.ChassisId? {
        rxed := false;
      } else if t.TooShort? {
        return true;
      } else if t.Dcbx? {
        if t.version in seen {
          return true;
        }
        seen := seen + {t.version};
        rxed := true;
      } else if t.End? {
        if !legacyActive && !qazdu && rxed && t.mayStart {
          legacyActive := true;
        }
        if setup.configured in seen && !t.unpacks {
          return true;
        }
      }
    }

    method QazRchange(t: Tlv) returns (error: bool)
      modifies this`ieeeActive, this`qazdu
      ensures Outcome(View(), error) == Ieee(old(View()), t)
      ensures ieeeActive != old(ieeeActive) <==> t.End? && old(ieeeActive) && rxed && !qazdu
      ensures ieeeActive ==> old(ieeeActive)
      ensures qazdu && !old(qazdu) <==> t.Qaz? && !old(qazdu)
      ensures error ==> View() == old(View())
      ensures error <==> t.TooShort?
    {
      error := false;
      if t.ChassisId? {
        qazdu := false;
      } else if t.TooShort? {
        return true;
      } else if t.Qaz? {
        qazdu := true;
      } else if t.End? {
        if ieeeActive && rxed && !qazdu {
          ieeeActive := false;
        }
      }
    }

    /** One TLV through the module list. */
    method OfferTlv(t: Tlv) returns (error: bool)
      modifies this
      ensures Outcome(View(), error) == Dispatch(old(View()), t, setup)
    {
      if setup.legacyFirst {
        error := DcbxRchange(t);
        if !error {
          error := QazRchange(t);
        }
      } else {
        error := QazRchange(t);
        if !error {
          error := DcbxRchange(t);
        }
      }
    }

    /** The receive loop over one frame. */
    method ProcessFrame(ts: seq<Tlv>)
      modifies this
      ensures View() == Frame(old(View()), ts, setup)
    {
      if ts == [] || !ts[0].ChassisId? {
        return;
      }
      seen := {};
      ghost var f := View();
      hide Dispatch;
      var i := 0;
      while i < |ts|
        invariant i <= |ts| && Deliver(f, ts, setup) == Deliver(View(), ts[i..], setup)
      {
        var error := OfferTlv(ts[i]);
        if error || ts[i].End? {
          return;
        }
        i := i + 1;
      }
    }
  }
}
