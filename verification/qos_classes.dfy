/**
 * The fixed table of PM QoS classes (`pm_qos_array`) with the K3 hot-plug
 * classes enabled, and the pairing of ceiling/floor classes that
 * `pm_qos_verify_request` keeps from crossing.
 */
module QosClasses {
  import opened Common

  /** `PM_QOS_DEFAULT_VALUE`: the request value that means "use the class default". */
  const Sentinel: Int32 := -1

  /** `enum pm_qos_type`; `Max` is 0, so a zero-filled class is a `Max` class. */
  datatype Rule = Max | Min

  /** A `pm_qos_object` without its request list, cache and notifier chain. */
  datatype QosClass = QosClass(name: string, rule: Rule, defaultValue: Int32)

  // Class indices: positions in `pm_qos_array`.
  const Reserved: nat := 0
  const CpuDmaLatency: nat := 1
  const NetworkLatency: nat := 2
  const NetworkThroughput: nat := 3
  const CpuMaxProfile: nat := 4
  const CpuMinProfile: nat := 5
  const CpuBlockProfile: nat := 6
  const CpuSafeProfile: nat := 7
  const GpuMaxProfile: nat := 8
  const GpuMinProfile: nat := 9
  const GpuBlockProfile: nat := 10
  const GpuSafeProfile: nat := 11
  const DdrMaxProfile: nat := 12
  const DdrMinProfile: nat := 13
  const DdrBlockProfile: nat := 14
  const DdrSafeProfile: nat := 15
  const CpuNumberLock: nat := 16
  const CpuNumberMax: nat := 17
  const CpuNumberMin: nat := 18
  const CpuNumberSafe: nat := 19
  const IppsPolicy: nat := 20
  const NumClasses: nat := 21

  /** The `name` field of each class; the reserved class has none. */
  const Names: seq<string> := [
    "", "cpu_dma_latency", "network_latency", "network_throughput",
    "cpu_maxprofile", "cpu_minprofile", "cpu_profile_block", "cpu_profile_safe",
    "gpu_maxprofile", "gpu_minprofile", "gpu_profile_block", "gpu_profile_safe",
    "ddr_maxprofile", "ddr_minprofile", "ddr_profile_block", "ddr_profile_safe",
    "cpu_number_lock", "cpu_number_max", "cpu_number_min", "cpu_number_safe",
    "ipps_policy"]

  /** The `type` field of each class. */
  const Rules: seq<Rule> := [
    Max, Min, Min, Max,
    Min, Max, Max, Max,
    Min, Max, Max, Max,
    Min, Max, Max, Max,
    Max, Min, Max, Min,
    Max]

  /**
   * A class table as the source declares it.  The default values come from a
   * header outside this model, so they are left free, except that the
   * zero-filled reserved class has default 0 and no default is the sentinel
   * (a sentinel default would make `update_target` re-link a linked node).
   */
  ghost predicate WellFormedTable(t: seq<QosClass>) {
    && |t| == NumClasses
    && t[Reserved].defaultValue == 0
    && forall c :: 0 <= c < NumClasses ==>
         t[c].name == Names[c] && t[c].rule == Rules[c] && t[c].defaultValue != Sentinel
  }

  /** Builds the class table from the default values of the header. */
  function Table(defaults: seq<Int32>): (t: seq<QosClass>)
    requires |defaults| == NumClasses && defaults[Reserved] == 0
    requires forall c :: 0 <= c < NumClasses ==> defaults[c] != Sentinel
    ensures WellFormedTable(t)
    ensures forall c :: 0 <= c < NumClasses ==> t[c].defaultValue == defaults[c]
  {
    seq(NumClasses, c requires 0 <= c < NumClasses => QosClass(Names[c], Rules[c], defaults[c]))
  }

  /**
   * The part a class plays in `pm_qos_verify_request`: a ceiling class is
   * clamped from below by its floor class's target, a floor class from above
   * by its ceiling class's target.
   */
  datatype Role = Ceiling(floor: nat) | Floor(ceiling: nat) | Unpaired

  function RoleOf(c: nat): Role {
    if c == CpuMaxProfile then Ceiling(CpuMinProfile)
    else if c == CpuMinProfile then Floor(CpuMaxProfile)
    else if c == GpuMaxProfile then Ceiling(GpuMinProfile)
    else if c == GpuMinProfile then Floor(GpuMaxProfile)
    else if c == DdrMaxProfile then Ceiling(DdrMinProfile)
    else if c == DdrMinProfile then Floor(DdrMaxProfile)
    else if c == CpuNumberMax then Ceiling(CpuNumberMin)
    else if c == CpuNumberMin then Floor(CpuNumberMax)
    else Unpaired
  }

  /**
   * The pairing is symmetric, stays inside the real classes, and pairs a
   * `Min` ceiling class (the smallest cap wins) with a `Max` floor class
   * (the largest floor wins).
   */
  lemma PairingConsistent(c: nat, d: nat)
    ensures RoleOf(c) == Ceiling(d) <==> RoleOf(d) == Floor(c)
    ensures RoleOf(c) == Ceiling(d) ==>
              0 < c < NumClasses && 0 < d < NumClasses && Rules[c] == Min && Rules[d] == Max
  {
  }
}
