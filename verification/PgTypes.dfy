/** Priority-group attributes of a port (include/dcb_types.h), shared by the rule checker and by
    the legacy DCBX engine.
 */
module PgTypes {

  import opened Words

  /** `dcb_strict_priority_type`: bit 0 is group strict, bit 1 is link strict. */
  datatype Strict = NoStrict | GroupStrict | LinkStrict | InvalidStrict

  /** One user priority: `dcb_user_priority_attribs_type`. */
  datatype Priority = Priority(pgid: u8, bwgid: u8, percent: u8, strict: Strict)

  /** `dcb_traffic_attribs_type`: bandwidth per group and attributes per user priority. */
  datatype Traffic = Traffic(pgPercent: seq<u8>, up: seq<Priority>)

  /** The part of `pg_attribs` the rule checker works on. */
  datatype PgData = PgData(tx: Traffic, rx: Traffic, numTcs: u8)
  {
    predicate Valid() {
      && |tx.pgPercent| == |rx.pgPercent| == GROUPS
      && |tx.up| == |rx.up| == PRIORITIES
    }
  }

  const PRIORITIES := 8
  const GROUPS := 8
  const BW_PERCENT := 100
  const LINK_STRICT_PGID := 15
}
