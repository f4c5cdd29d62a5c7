/** Packing TLVs (lldp_tlv.c) in the basic format of section 8.4 of IEEE 802.1AB-2009, and the
    in-place filter that answers a query for one kind of TLV (get_tlvs in lldp_mand_cmds.c).
 */
module Tlv {
  import opened Words

  /** `unpacked_tlv`; the length field is the number of bytes of information. */
  datatype Unpacked = Unpacked(kind: u8, info: seq<u8>)

  const HEADER := 2
  const ORGANISATIONAL := 127

  /** tlv_ok: only the end TLV may be empty. */
  predicate Ok(t: Unpacked) {
    |t.info| > 0 || t.kind == 0
  }

  /** What fits the seven and nine bits of the header. */
  predicate Fits(t: Unpacked) {
    t.kind < 128 && |t.info| < 512
  }

  /** The header word: the type is shifted out of sixteen bits, the length masked to nine. */
  function Header(t: Unpacked): nat {
    (t.kind % 128) * 512 + |t.info| % 512
  }

  function Bytes(t: Unpacked): (b: seq<u8>)
    ensures |b| == HEADER + |t.info|
  {
    [Header(t) / 256, Header(t) % 256] + t.info
  }

  /** pack_tlv. */
  function Pack(t: Unpacked): Option<seq<u8>> {
    if Ok(t) then Some(Bytes(t)) else None
  }

  /** unpack_tlv, on at least as many bytes as the header announces. */
  function Unpack(b: seq<u8>): Unpacked
    requires |b| >= HEADER && |b| >= HEADER + Word(b[0], b[1]) % 512
  {
    var tl := Word(b[0], b[1]);
    Unpacked((tl / 512) % 256, b[HEADER..HEADER + tl % 512])
  }

  /** Unpacking inverts packing exactly for TLVs whose type and length fit the header. */
  lemma RoundTrip(t: Unpacked)
    ensures |Bytes(t)| >= HEADER + Word(Bytes(t)[0], Bytes(t)[1]) % 512
    ensures Unpack(Bytes(t)) == t <==> Fits(t)
  {
    var b := Bytes(t);
    assert Word(b[0], b[1]) == Header(t);
    HeaderParts(t);
    if |t.info| < 512 {
      assert b[HEADER..HEADER + |t.info|] == t.info;
    }
  }

  lemma HeaderParts(t: Unpacked)
    ensures Header(t) / 512 == t.kind % 128 && Header(t) % 512 == |t.info| % 512
    ensures Header(t) < 0x10000
  {
  }

  /** On the wire a TLV that fits is seven bits of type, nine bits of length and the information. */
  lemma WireFormat(t: Unpacked)
    requires Fits(t)
    ensures var b := Bytes(t);
            && b[0] / 2 == t.kind && (b[0] as int % 2) * 256 + b[1] as int == |t.info| && b[2..] == t.info
  {
    HeaderParts(t);
    var h := Header(t);
    assert h == t.kind * 512 + |t.info|;
  }

  /** Only the end TLV may be empty; anything else that is empty is not packed. */
  lemma PacksIff(t: Unpacked)
    ensures Pack(t).Some? <==> t.kind == 0 || t.info != []
    ensures Pack(t).Some? ==> Pack(t).value == Bytes(t)
  {
  }

  // ---------- Appending ----------

  function PackAll(ts: seq<Unpacked>): seq<u8> {
    if ts == [] then [] else Bytes(ts[0]) + PackAll(ts[1..])
  }

  lemma {:induction false} PackAllAppend(a: seq<Unpacked>, b: seq<Unpacked>)
    ensures PackAll(a + b) == PackAll(a) + PackAll(b)
  {
    if a == [] {
      assert a + b == b;
    } else {
      assert (a + b)[0] == a[0] && (a + b)[1..] == a[1..] + b;
      PackAllAppend(a[1..], b);
    }
  }

  lemma PackAllSnoc(a: seq<Unpacked>, t: Unpacked)
    ensures PackAll(a + [t]) == PackAll(a) + Bytes(t)
  {
    PackAllAppend(a, [t]);
    assert [t][1..] == [];
    assert PackAll([t]) == Bytes(t);
  }

  /** `packed_tlv`: a buffer and how much of it is used. */
  class Packed {
    const block: array<u8>
    var size: nat

    ghost predicate Valid()
      reads this
    {
      size <= block.Length
    }

    ghost function Contents(): seq<u8>
      requires Valid()
      reads this, block
    {
      block[..size]
    }

    constructor (capacity: nat)
      ensures Valid() && Contents() == [] && block.Length == capacity && fresh(block)
    {
      block := new u8[capacity](_ => 0);
      size := 0;
    }

    /** pack_tlv_after: nothing to append is fine; a TLV that is malformed or does not fit below
        `limit` is refused and leaves the buffer as it was. */
    method PackAfter(tlv: Option<Unpacked>, limit: nat) returns (ok: bool)
      requires Valid() && limit <= block.Length
      modifies this`size, block
      ensures Valid()
      ensures ok <==> tlv.None? || ((tlv.value.kind == 0 || tlv.value.info != []) && 2 + |tlv.value.info| + old(size) <= limit)
      ensures Contents() == if ok && tlv.Some? then old(Contents()) + Bytes(tlv.value) else old(Contents())
    {
      if tlv.None? {
        return true;
      }
      var packed := Pack(tlv.value);
      if packed.None? {
        return false;
      }
      var b := packed.value;
      if |b| + size > limit {
        return false;
      }
      var used := size;
      for i := 0 to |b|
        invariant size == used && block[..used] == old(Contents()) && block[used..used + i] == b[..i]
      {
        block[used + i] := b[i];
      }
      size := used + |b|;
      assert block[..size] == block[..used] + block[used..used + |b|];
      ok := true;
    }
  }

  // ---------- The filter ----------

  /** Four bytes of information read as one number. */
  function Quad(b: seq<u8>): nat
    requires |b| >= 4
  {
    Word(Word(Word(b[0], b[1]), b[2]), b[3])
  }

  /** What the filter needs of a TLV: it fits its header, and an organisational one has an identifier. */
  predicate WellFormed(t: Unpacked) {
    Fits(t) && (t.kind == ORGANISATIONAL ==> |t.info| >= 4)
  }

  /** A type, or for organisational TLVs organisation and subtype. */
  function Identifier(t: Unpacked): nat
    requires WellFormed(t)
  {
    if t.kind < ORGANISATIONAL then t.kind else Quad(t.info)
  }

  function Matching(ts: seq<Unpacked>, id: nat): seq<Unpacked>
    requires forall i :: 0 <= i < |ts| ==> WellFormed(ts[i])
    decreases |ts|
  {
    if ts == [] then []
    else
      var n := |ts| - 1;
      Matching(ts[..n], id) + if Identifier(ts[n]) == id then [ts[n]] else []
  }

  /** The query names a TLV: its type, or for an organisational one its first four bytes of information read as
      a number in network order. */
  predicate Named(t: Unpacked, id: nat)
    requires WellFormed(t)
  {
    if t.kind < 127 then t.kind == id
    else t.info[0] as int * 0x100_0000 + t.info[1] as int * 0x1_0000 + t.info[2] as int * 0x100 + t.info[3] as int == id
  }

  /** The TLVs named, from the front. */
  function AllNamed(ts: seq<Unpacked>, id: nat): seq<Unpacked>
    requires forall i :: 0 <= i < |ts| ==> WellFormed(ts[i])
  {
    if ts == [] then []
    else (if Named(ts[0], id) then [ts[0]] else []) + AllNamed(ts[1..], id)
  }

  lemma {:induction false} AllNamedSnoc(ts: seq<Unpacked>, t: Unpacked, id: nat)
    requires WellFormed(t) && forall i :: 0 <= i < |ts| ==> WellFormed(ts[i])
    ensures AllNamed(ts + [t], id) == AllNamed(ts, id) + if Named(t, id) then [t] else []
  {
    hide Named, WellFormed;
    if ts == [] {
      assert ts + [t] == [t] && [t][1..] == [];
    } else {
      AllNamedSnoc(ts[1..], t, id);
      assert (ts + [t])[0] == ts[0] && (ts + [t])[1..] == ts[1..] + [t];
    }
  }

  lemma NamedByIdentifier(t: Unpacked, id: nat)
    requires WellFormed(t)
    ensures Identifier(t) == id <==> Named(t, id)
  {
  }

  /** The matching TLVs are those named, in order, and what matches is exactly what is named. */
  lemma {:induction false} MatchingAreNamed(ts: seq<Unpacked>, id: nat)
    requires forall i :: 0 <= i < |ts| ==> WellFormed(ts[i])
    ensures Matching(ts, id) == AllNamed(ts, id)
    decreases |ts|
  {
    if ts != [] {
      var n := |ts| - 1;
      MatchingAreNamed(ts[..n], id);
      NamedByIdentifier(ts[n], id);
      assert ts == ts[..n] + [ts[n]];
      AllNamedSnoc(ts[..n], ts[n], id);
      hide Identifier, Named, WellFormed, AllNamed;
    }
  }

  /** Move `n` bytes towards the front. */
  method MoveDown(a: array<u8>, to: nat, from: nat, n: nat)
    requires to <= from && from + n <= a.Length
    modifies a
    ensures a[..to] == old(a[..to]) && a[to..to + n] == old(a[from..from + n]) && a[from + n..] == old(a[from + n..])
  {
    for i := 0 to n
      invariant forall j :: 0 <= j < a.Length && !(to <= j < to + i) ==> a[j] == old(a[j])
      invariant forall j :: to <= j < to + i ==> a[j] == old(a[j + (from - to)])
    {
      a[to + i] := a[from + i];
    }
  }

  /** Reading a TLV's header and identifier where its packing starts. */
  lemma ReadAt(b: seq<u8>, off: nat, t: Unpacked, rest: seq<u8>)
    requires WellFormed(t) && off <= |b| && b[off..] == Bytes(t) + rest
    ensures off + HEADER + |t.info| <= |b|
    ensures Word(b[off], b[off + 1]) % 512 == |t.info| && Word(b[off], b[off + 1]) / 512 == t.kind
    ensures t.kind == ORGANISATIONAL ==> Quad(b[off + 2..off + 6]) == Quad(t.info)
    ensures b[off..off + HEADER + |t.info|] == Bytes(t) && b[off + HEADER + |t.info|..] == rest
  {
    var s := b[off..];
    assert s[0] == b[off] && s[1] == b[off + 1];
    HeaderParts(t);
    assert s[HEADER..HEADER + |t.info|] == t.info;
    if t.kind == ORGANISATIONAL {
      assert b[off + 2..off + 6] == t.info[..4];
    }
    assert b[off..off + HEADER + |t.info|] == s[..HEADER + |t.info|];
    assert b[off + HEADER + |t.info|..] == s[HEADER + |t.info|..];
  }

  /** Where the filter stands: the matching TLVs packed at the front, the rest untouched behind. */
  ghost predicate Filtering(b: seq<u8>, size: nat, ts: seq<Unpacked>, id: nat, k: nat, off: nat, moff: nat)
    requires k <= |ts| && forall i :: 0 <= i < |ts| ==> WellFormed(ts[i])
  {
    && moff <= off <= size <= |b|
    && b[..moff] == PackAll(Matching(ts[..k], id))
    && b[off..size] == PackAll(ts[k..])
  }

  lemma {:induction false} EmptyPacking(ts: seq<Unpacked>)
    ensures PackAll(ts) == [] <==> ts == []
  {
    if ts != [] {
      assert |PackAll(ts)| == |Bytes(ts[0])| + |PackAll(ts[1..])|;
    }
  }

  /** The rest of the buffer once the TLV at its front has been dealt with. */
  lemma RestStep(was: seq<u8>, b: seq<u8>, size: nat, ts: seq<Unpacked>, k: nat, off: nat, n: nat)
    requires k < |ts| && |b| == |was| && off <= size <= |b| && n == |Bytes(ts[k])| && off + n <= size
    requires was[off..size] == PackAll(ts[k..]) && b[off + n..] == was[off + n..]
    ensures b[off + n..size] == PackAll(ts[k + 1..])
  {
    assert ts[k..][1..] == ts[k + 1..] && ts[k..][0] == ts[k];
    assert was[off..size] == Bytes(ts[k]) + PackAll(ts[k + 1..]);
    hide PackAll, Bytes;
    assert b[off + n..size] == b[off + n..][..size - off - n];
    assert was[off..size][n..] == was[off + n..][..size - off - n];
  }

  lemma FilterStep(was: seq<u8>, b: seq<u8>, size: nat, ts: seq<Unpacked>, id: nat, k: nat, off: nat, moff: nat, n: nat)
    requires k < |ts| && (forall i :: 0 <= i < |ts| ==> WellFormed(ts[i]))
    requires Filtering(was, size, ts, id, k, off, moff) && |b| == |was| && n == |Bytes(ts[k])| && off + n <= size
    requires b[..moff] == was[..moff] && b[off + n..] == was[off + n..]
    requires Identifier(ts[k]) == id ==> b[moff..moff + n] == Bytes(ts[k])
    ensures Filtering(b, size, ts, id, k + 1, off + n, if Identifier(ts[k]) == id then moff + n else moff)
  {
    hide PackAll, Bytes, Identifier, WellFormed;
    RestStep(was, b, size, ts, k, off, n);
    assert ts[..k + 1][..k] == ts[..k] && ts[..k + 1][k] == ts[k];
    if Identifier(ts[k]) == id {
      PackAllSnoc(Matching(ts[..k], id), ts[k]);
      assert b[..moff + n] == b[..moff] + b[moff..moff + n];
    } else {
      assert Matching(ts[..k + 1], id) == Matching(ts[..k], id) + [] == Matching(ts[..k], id);
    }
  }

  /** The filter of get_tlvs: it leaves exactly the packing, in order, of the TLVs that match. */
  method Filter(tlvs: array<u8>, size: nat, id: nat, ghost ts: seq<Unpacked>) returns (kept: nat)
    requires size <= tlvs.Length && tlvs[..size] == PackAll(ts)
    requires forall i :: 0 <= i < |ts| ==> WellFormed(ts[i])
    modifies tlvs
    ensures kept <= size && tlvs[..kept] == PackAll(Matching(ts, id))
  {
    var off: nat, moff: nat := 0, 0;
    ghost var k := 0;
    assert ts[..0] == [] && ts[0..] == ts && tlvs[..][0..size] == tlvs[..size];
    while off < size
      invariant k <= |ts| && Filtering(tlvs[..], size, ts, id, k, off, moff)
      decreases size - off
    {
      var step, next := FilterOne(tlvs, size, id, ts, k, off, moff);
      off, moff, k := off + step, next, k + 1;
    }
    AllFiltered(tlvs[..], size, ts, id, k, off, moff);
    assert tlvs[..][..moff] == tlvs[..moff];
    kept := moff;
  }

  /** One round of the filter: read a header, and move the TLV to the front if it matches. */
  method FilterOne(tlvs: array<u8>, ghost size: nat, id: nat, ghost ts: seq<Unpacked>, ghost k: nat, off: nat, moff: nat)
    returns (step: nat, next: nat)
    requires size <= tlvs.Length && off < size && k <= |ts| && (forall i :: 0 <= i < |ts| ==> WellFormed(ts[i]))
    requires Filtering(tlvs[..], size, ts, id, k, off, moff)
    modifies tlvs
    ensures step > 0 && k < |ts| && Filtering(tlvs[..], size, ts, id, k + 1, off + step, next)
  {
    ghost var was := tlvs[..];
    EmptyPacking(ts[k..]);
    assert ts[k..][0] == ts[k] && ts[k..][1..] == ts[k + 1..];
    assert was[..size][off..] == was[off..size];
    ReadAt(was[..size], off, ts[k], PackAll(ts[k + 1..]));
    hide PackAll, Bytes, Matching, Filtering, Fits;
    var tl := Word(tlvs[off], tlvs[off + 1]);
    var len, kind := tl % 512, tl / 512;
    var tlvid := kind;
    if kind >= ORGANISATIONAL {
      assert was[..size][off + 2..off + 6] == tlvs[off + 2..off + 6];
      tlvid := Quad(tlvs[off + 2..off + 6]);
    }
    assert tlvid == Identifier(ts[k]);
    step, next := HEADER + len, moff;
    if tlvid == id {
      assert was[..size][off..off + step] == was[off..off + step];
      MoveDown(tlvs, moff, off, step);
      next := moff + step;
    }
    FilterStep(was, tlvs[..], size, ts, id, k, off, moff, step);
  }

  lemma AllFiltered(b: seq<u8>, size: nat, ts: seq<Unpacked>, id: nat, k: nat, off: nat, moff: nat)
    requires k <= |ts| && (forall i :: 0 <= i < |ts| ==> WellFormed(ts[i]))
    requires Filtering(b, size, ts, id, k, off, moff) && off >= size
    ensures b[..moff] == PackAll(Matching(ts, id))
  {
    assert b[off..size] == [];
    EmptyPacking(ts[k..]);
    assert ts[..k] == ts;
  }

  /** Append a list of TLVs one by one. */
  method AppendAll(p: Packed, ts: seq<Unpacked>) returns (ok: bool)
    requires p.Valid() && p.size == 0
    modifies p`size, p.block
    ensures p.Valid()
    ensures ok <==> (forall i :: 0 <= i < |ts| ==> ts[i].kind == 0 || ts[i].info != []) && |PackAll(ts)| <= p.block.Length
    ensures ok ==> p.Contents() == PackAll(ts)
  {
    for i := 0 to |ts|
      invariant p.Valid() && p.Contents() == PackAll(ts[..i])
      invariant forall j :: 0 <= j < i ==> Ok(ts[j])
    {
      assert ts[..i + 1] == ts[..i] + [ts[i]] && ts == ts[..i + 1] + ts[i + 1..];
      PackAllSnoc(ts[..i], ts[i]);
      PackAllAppend(ts[..i + 1], ts[i + 1..]);
      ok := p.PackAfter(Some(ts[i]), p.block.Length);
      if !ok {
        return;
      }
    }
    assert ts[..|ts|] == ts;
    ok := true;
  }

  /** Packing a list and filtering the buffer gives the packing of the TLVs that match. */
  method PackThenFilter(ts: seq<Unpacked>, id: nat) returns (answer: seq<u8>)
    requires forall i :: 0 <= i < |ts| ==> WellFormed(ts[i]) && Ok(ts[i])
    ensures answer == PackAll(AllNamed(ts, id))
  {
    MatchingAreNamed(ts, id);
    var p := new Packed(Size(ts));
    SizeIsLength(ts);
    var ok := AppendAll(p, ts);
    var kept := Filter(p.block, p.size, id, ts);
    answer := p.block[..kept];
  }

  /** What callers allocate: the sum of the TLVs' sizes. */
  function Size(ts: seq<Unpacked>): nat {
    if ts == [] then 0 else HEADER + |ts[0].info| + Size(ts[1..])
  }

  lemma {:induction false} SizeIsLength(ts: seq<Unpacked>)
    ensures Size(ts) == |PackAll(ts)|
  {
    if ts != [] {
      SizeIsLength(ts[1..]);
    }
  }
}
