/** Forwarding counters and the forwarding history of a call (voipswitch-core, media). */
module FastPathTypes {
  import opened Prelude

  datatype Direction = CallerToCallee | CalleeToCaller

  datatype MediaKind = Rtp | Rtcp

  /** Packets, payload bytes and failed redirects of one flow. */
  datatype Counts = Counts(packets: nat, bytes: nat, redirectErrors: nat) {
    /** Saturating addition, field by field. */
    function SatPlus(that: Counts): Counts {
      Counts(SatAdd(packets, that.packets), SatAdd(bytes, that.bytes), SatAdd(redirectErrors, that.redirectErrors))
    }

    /** Unbounded addition, field by field. */
    function Plus(that: Counts): Counts {
      Counts(packets + that.packets, bytes + that.bytes, redirectErrors + that.redirectErrors)
    }

    /** The values a u64 saturating accumulator shows for these unbounded totals. */
    function Saturated(): Counts {
      Counts(Min(packets, U64_MAX), Min(bytes, U64_MAX), Min(redirectErrors, U64_MAX))
    }

    /** The values wrapping u64 counters show for these unbounded totals. */
    function Wrapped(): Counts {
      Counts(packets % U64_SIZE, bytes % U64_SIZE, redirectErrors % U64_SIZE)
    }

    predicate AtMost(that: Counts) {
      packets <= that.packets && bytes <= that.bytes && redirectErrors <= that.redirectErrors
    }
  }

  const NO_COUNTS := Counts(0, 0, 0)

  /** The twelve statistics fields, grouped by media kind and direction. */
  datatype Stats = Stats(callerRtp: Counts, calleeRtp: Counts, callerRtcp: Counts, calleeRtcp: Counts) {
    function At(kind: MediaKind, direction: Direction): Counts {
      match (kind, direction)
      case (Rtp, CallerToCallee) => callerRtp
      case (Rtp, CalleeToCaller) => calleeRtp
      case (Rtcp, CallerToCallee) => callerRtcp
      case (Rtcp, CalleeToCaller) => calleeRtcp
    }

    function Put(kind: MediaKind, direction: Direction, counts: Counts): Stats {
      match (kind, direction)
      case (Rtp, CallerToCallee) => this.(callerRtp := counts)
      case (Rtp, CalleeToCaller) => this.(calleeRtp := counts)
      case (Rtcp, CallerToCallee) => this.(callerRtcp := counts)
      case (Rtcp, CalleeToCaller) => this.(calleeRtcp := counts)
    }

    /** merge_from: adds the later statistics, saturating. */
    function Merge(later: Stats): Stats {
      Stats(callerRtp.SatPlus(later.callerRtp), calleeRtp.SatPlus(later.calleeRtp),
            callerRtcp.SatPlus(later.callerRtcp), calleeRtcp.SatPlus(later.calleeRtcp))
    }

    function Plus(that: Stats): Stats {
      Stats(callerRtp.Plus(that.callerRtp), calleeRtp.Plus(that.calleeRtp),
            callerRtcp.Plus(that.callerRtcp), calleeRtcp.Plus(that.calleeRtcp))
    }

    function Saturated(): Stats {
      Stats(callerRtp.Saturated(), calleeRtp.Saturated(), callerRtcp.Saturated(), calleeRtcp.Saturated())
    }

    function Wrapped(): Stats {
      Stats(callerRtp.Wrapped(), calleeRtp.Wrapped(), callerRtcp.Wrapped(), calleeRtcp.Wrapped())
    }

    predicate AtMost(that: Stats) {
      callerRtp.AtMost(that.callerRtp) && calleeRtp.AtMost(that.calleeRtp) &&
      callerRtcp.AtMost(that.callerRtcp) && calleeRtcp.AtMost(that.calleeRtcp)
    }

    /** The largest redirect error count over the four flows. */
    function MaxRedirectErrors(): nat {
      Max(Max(callerRtp.redirectErrors, calleeRtp.redirectErrors),
          Max(callerRtcp.redirectErrors, calleeRtcp.redirectErrors))
    }
  }

  const NO_STATS := Stats(NO_COUNTS, NO_COUNTS, NO_COUNTS, NO_COUNTS)

  datatype DirectionHistory = DirectionHistory(promoted: bool, demoted: bool) {
    function Demote(): DirectionHistory { if promoted then this.(demoted := true) else this }
  }

  datatype Mode = Userspace | FastPath | Mixed {
    function Rank(): nat {
      match this case Userspace => 0 case FastPath => 1 case Mixed => 2
    }
  }

  datatype History = History(caller: DirectionHistory, callee: DirectionHistory) {
    function MarkPromoted(direction: Direction): History {
      match direction
      case CallerToCallee => this.(caller := caller.(promoted := true))
      case CalleeToCaller => this.(callee := callee.(promoted := true))
    }

    function MarkDemoted(direction: Direction): History {
      match direction
      case CallerToCallee => this.(caller := caller.Demote())
      case CalleeToCaller => this.(callee := callee.Demote())
    }

    function PromoteBoth(): History { MarkPromoted(CallerToCallee).MarkPromoted(CalleeToCaller) }

    function DemoteBoth(): History { MarkDemoted(CallerToCallee).MarkDemoted(CalleeToCaller) }

    function Mode(): Mode {
      if !caller.promoted && !callee.promoted then Userspace
      else if caller.promoted && callee.promoted && !caller.demoted && !callee.demoted then FastPath
      else Mixed
    }
  }

  const NEW_HISTORY := History(DirectionHistory(false, false), DirectionHistory(false, false))
}
