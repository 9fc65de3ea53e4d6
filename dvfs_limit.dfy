/** The DVFS frequency-limit arbiter: the `cpufreq_max_limit` and
    `cpufreq_min_limit` attributes, the state they share, and the cpufreq
    policy notifier that applies the max limit.

    The state is modelled twice: `Limits` is its value and the functions
    `MaxStore`/`MinStore` are the store handlers on that value, about which
    the lemmas are proved; the class `DvfsLimits` holds the same state in
    mutable fields, and its methods are proved to change them exactly as
    those functions say. */
module DvfsLimit {
  import opened Wrappers
  import opened KernelTypes
  import opened Cpufreq
  import opened FreqTable

  /** `cpufreq_max_limit_val`, `cpufreq_min_limit_val` (-1 is "unlocked"),
      `min_replacement`, the current value of the "power" `PRCMU_QOS_ARM_KHZ`
      requirement, and how many times the handlers have asked every online
      CPU to update its policy. */
  datatype Limits = Limits(max: int32, min: int32, replaced: bool, qos: int32, refreshes: nat)

  /** Both limits unlocked, and the QoS requirement added by `pm_init` with
      `PRCMU_QOS_DEFAULT_VALUE`. */
  function Initial(qosDefault: int32): (r: Limits)
    ensures r.max == -1 && r.min == -1 && !r.replaced && r.qos == qosDefault && r.refreshes == 0
  {
    Limits(-1, -1, false, qosDefault, 0)
  }

  /** A write to one of the two attributes; the input is what `sscanf("%d")`
      made of the text, `None` when it matched nothing. */
  datatype Request = MaxWrite(input: Option<int32>) | MinWrite(input: Option<int32>)

  /** `cpufreq_max_limit_store` after a successful parse of `val`. */
  function MaxStore(s: Limits, val: int32, table: Option<seq<u32>>): (r: Limits)
    ensures r.min == s.min
    ensures r.max == s.max || r.max == val
    ensures r.refreshes == s.refreshes || (r.refreshes == s.refreshes + 1 && r.max == val)
  {
    if val == -1 then
      if s.max != -1 then
        var unlocked := s.(max := -1, refreshes := s.refreshes + 1);
        if s.replaced && s.min != -1 then unlocked.(qos := s.min, replaced := false) else unlocked
      else s
    else if LevelLookup(table, ToU32(val), MaxLockReq).Some? then
      var locked := s.(max := val, refreshes := s.refreshes + 1);
      if s.min != -1 && s.min > val then locked.(qos := val, replaced := true) else locked
    else s
  }

  /** `cpufreq_min_limit_store` after a successful parse of `val`. */
  function MinStore(s: Limits, val: int32, table: Option<seq<u32>>, qosDefault: int32): (r: Limits)
    ensures r.max == s.max && r.refreshes == s.refreshes
    ensures r.min == s.min || r.min == val
  {
    if val == -1 then
      if s.min != -1 then s.(min := -1, qos := qosDefault, replaced := false) else s
    else if LevelLookup(table, ToU32(val), MinLockReq).Some? then
      if s.max != -1 && val > s.max then s.(min := val, qos := s.max, replaced := true)
      else s.(min := val, qos := val)
    else s
  }

  /** One attribute write; unparseable input changes nothing. */
  function Step(s: Limits, req: Request, table: Option<seq<u32>>, qosDefault: int32): (r: Limits)
    ensures req.input.None? ==> r == s
    ensures req.MaxWrite? ==> r.min == s.min
    ensures req.MinWrite? ==> r.max == s.max && r.refreshes == s.refreshes
  {
    match req
    case MaxWrite(input) => if input.None? then s else MaxStore(s, input.value, table)
    case MinWrite(input) => if input.None? then s else MinStore(s, input.value, table, qosDefault)
  }

  /** A series of writes against one frequency table. */
  function Run(s: Limits, reqs: seq<Request>, table: Option<seq<u32>>, qosDefault: int32): (r: Limits)
    ensures r.refreshes >= s.refreshes
    ensures (forall k :: 0 <= k < |reqs| ==> reqs[k].MinWrite?) ==> r.max == s.max && r.refreshes == s.refreshes
    decreases |reqs|
  {
    if reqs == [] then s else Run(Step(s, reqs[0], table, qosDefault), reqs[1..], table, qosDefault)
  }

  // ---------------------------------------------------------------------
  // The invariant the two handlers keep

  /** Both limits are locked and the min request is above the max request. */
  predicate Conflict(s: Limits) {
    s.min != -1 && s.max != -1 && s.min > s.max
  }

  /** The replacement flag is only ever up while both limits are locked. */
  predicate ReplacedOnlyWhenBothLocked(s: Limits) {
    s.replaced ==> s.min != -1 && s.max != -1
  }

  /** Max beats min: in a conflict the flag is up and QoS carries the max. */
  predicate MaxWinsConflict(s: Limits) {
    Conflict(s) ==> s.replaced && s.qos == s.max
  }

  /** Without replacement, QoS carries the min request, or the default
      when min is unlocked. */
  predicate UnreplacedQosIsMin(s: Limits, qosDefault: int32) {
    !s.replaced ==> s.qos == (if s.min == -1 then qosDefault else s.min)
  }

  /** The QoS floor never exceeds the min request once replaced, nor the
      max request while both are locked. */
  predicate QosWithinLimits(s: Limits) {
    && (s.replaced ==> s.qos <= s.min)
    && (s.min != -1 && s.max != -1 ==> s.qos <= s.max)
  }

  predicate Consistent(s: Limits, qosDefault: int32) {
    && ReplacedOnlyWhenBothLocked(s)
    && MaxWinsConflict(s)
    && UnreplacedQosIsMin(s, qosDefault)
    && QosWithinLimits(s)
  }

  lemma InitialConsistent(qosDefault: int32)
    ensures Consistent(Initial(qosDefault), qosDefault)
  {
  }

  lemma MaxStorePreservesConsistent(s: Limits, val: int32, table: Option<seq<u32>>, qosDefault: int32)
    requires Consistent(s, qosDefault)
    ensures Consistent(MaxStore(s, val, table), qosDefault)
  {
  }

  lemma MinStorePreservesConsistent(s: Limits, val: int32, table: Option<seq<u32>>, qosDefault: int32)
    requires Consistent(s, qosDefault)
    ensures Consistent(MinStore(s, val, table, qosDefault), qosDefault)
  {
  }

  lemma StepPreservesConsistent(s: Limits, req: Request, table: Option<seq<u32>>, qosDefault: int32)
    requires Consistent(s, qosDefault)
    ensures Consistent(Step(s, req, table, qosDefault), qosDefault)
  {
    match req
    case MaxWrite(input) =>
      if input.Some? { MaxStorePreservesConsistent(s, input.value, table, qosDefault); }
    case MinWrite(input) =>
      if input.Some? { MinStorePreservesConsistent(s, input.value, table, qosDefault); }
  }

  lemma {:induction false} RunPreservesConsistent(s: Limits, reqs: seq<Request>, table: Option<seq<u32>>, qosDefault: int32)
    requires Consistent(s, qosDefault)
    ensures Consistent(Run(s, reqs, table, qosDefault), qosDefault)
    decreases |reqs|
  {
    if reqs != [] {
      StepPreservesConsistent(s, reqs[0], table, qosDefault);
      RunPreservesConsistent(Step(s, reqs[0], table, qosDefault), reqs[1..], table, qosDefault);
    }
  }

  /** Every state reachable from start-up by attribute writes is consistent. */
  lemma ReachableConsistent(reqs: seq<Request>, table: Option<seq<u32>>, qosDefault: int32)
    ensures Consistent(Run(Initial(qosDefault), reqs, table, qosDefault), qosDefault)
  {
    InitialConsistent(qosDefault);
    RunPreservesConsistent(Initial(qosDefault), reqs, table, qosDefault);
  }

  // ---------------------------------------------------------------------
  // The handlers' outcomes

  /** A max lock is accepted exactly when the table has an entry at or below
      the request read as unsigned; an accepted one stores the raw request
      and refreshes the policies, and only a conflict with min touches QoS
      and the flag. A rejected one changes nothing. */
  lemma MaxLockOutcome(s: Limits, val: int32, table: Option<seq<u32>>)
    requires val != -1
    ensures var r := MaxStore(s, val, table);
      var accepted := table.Some? && exists j :: 0 <= j < |table.value| && table.value[j] <= ToU32(val);
      && (accepted ==>
            && r.max == val && r.min == s.min && r.refreshes == s.refreshes + 1
            && if s.min != -1 && s.min > val then r.qos == val && r.replaced
               else r.qos == s.qos && r.replaced == s.replaced)
      && (!accepted ==> r == s)
  {
    if table.Some? {
      MaxLevelNoneIff(table.value, ToU32(val));
    }
  }

  /** A min lock is accepted exactly when the table has an entry at or above
      the request read as unsigned; an accepted one stores the raw request,
      and QoS gets the max in a conflict (flag up) or the raw request
      otherwise (flag left as it was). A rejected one changes nothing. */
  lemma MinLockOutcome(s: Limits, val: int32, table: Option<seq<u32>>, qosDefault: int32)
    requires val != -1
    ensures var r := MinStore(s, val, table, qosDefault);
      var accepted := table.Some? && exists j :: 0 <= j < |table.value| && table.value[j] >= ToU32(val);
      && (accepted ==>
            && r.min == val && r.max == s.max && r.refreshes == s.refreshes
            && if s.max != -1 && val > s.max then r.qos == s.max && r.replaced
               else r.qos == val && r.replaced == s.replaced)
      && (!accepted ==> r == s)
  {
    if table.Some? {
      MinLevelNoneIff(table.value, ToU32(val));
    }
  }

  /** Unlocking max from a consistent locked state refreshes the policies,
      clears the flag and leaves QoS at the min request (or the default). */
  lemma MaxUnlockRestoresMin(s: Limits, table: Option<seq<u32>>, qosDefault: int32)
    requires Consistent(s, qosDefault) && s.max != -1
    ensures var r := MaxStore(s, -1, table);
      && r.max == -1 && r.min == s.min && !r.replaced && r.refreshes == s.refreshes + 1
      && r.qos == (if s.min == -1 then qosDefault else s.min)
  {
  }

  /** Unlocking min from a locked state resets QoS to the default and clears
      the flag; max and the policies are not touched. */
  lemma MinUnlockResetsQos(s: Limits, table: Option<seq<u32>>, qosDefault: int32)
    requires s.min != -1
    ensures MinStore(s, -1, table, qosDefault) == s.(min := -1, qos := qosDefault, replaced := false)
  {
  }

  /** Unlocking an unlocked max is ignored, so unlocking max twice is the
      same as unlocking it once. */
  lemma MaxUnlockIdempotent(s: Limits, table: Option<seq<u32>>)
    ensures s.max == -1 ==> MaxStore(s, -1, table) == s
    ensures MaxStore(MaxStore(s, -1, table), -1, table) == MaxStore(s, -1, table)
  {
  }

  /** Unlocking an unlocked min is ignored, so unlocking min twice is the
      same as unlocking it once. */
  lemma MinUnlockIdempotent(s: Limits, table: Option<seq<u32>>, qosDefault: int32)
    ensures s.min == -1 ==> MinStore(s, -1, table, qosDefault) == s
    ensures MinStore(MinStore(s, -1, table, qosDefault), -1, table, qosDefault) == MinStore(s, -1, table, qosDefault)
  {
  }

  /** Max beats min whichever is written first: a min request above an
      accepted max request ends in the replaced state with QoS at the max. */
  lemma PriorityEitherOrder(s: Limits, lo: int32, hi: int32, table: Option<seq<u32>>, qosDefault: int32)
    requires lo != -1 && hi != -1 && lo > hi
    requires LevelLookup(table, ToU32(lo), MinLockReq).Some?
    requires LevelLookup(table, ToU32(hi), MaxLockReq).Some?
    ensures var r := MinStore(MaxStore(s, hi, table), lo, table, qosDefault);
      r.min == lo && r.max == hi && r.replaced && r.qos == hi
    ensures var r := MaxStore(MinStore(s, lo, table, qosDefault), hi, table);
      r.min == lo && r.max == hi && r.replaced && r.qos == hi
  {
  }

  /** A table of five operating points, in ascending order. */
  const FiveLevels: seq<u32> := [100, 200, 300, 400, 500]

  /** Max 350, min 250, max 150, max unlock: the handlers keep the raw
      requests (350 and 250 are not table entries), 250 > 150 replaces the
      floor by the ceiling, and the unlock restores the floor to 250. */
  lemma LockSequenceExample(qosDefault: int32)
    ensures var t := Some(FiveLevels);
      var s1 := MaxStore(Initial(qosDefault), 350, t);
      var s2 := MinStore(s1, 250, t, qosDefault);
      var s3 := MaxStore(s2, 150, t);
      var s4 := MaxStore(s3, -1, t);
      && s1 == Limits(350, -1, false, qosDefault, 1)
      && s2 == Limits(350, 250, false, 250, 1)
      && s3 == Limits(150, 250, true, 150, 2)
      && s4 == Limits(-1, 250, false, 250, 3)
  {
    MaxLevelLastMatch(FiveLevels, 350, 2);
    MinLevelFirstMatch(FiveLevels, 250, 2);
    MaxLevelLastMatch(FiveLevels, 150, 0);
  }

  /** After the floor has been replaced, raising the ceiling above it leaves
      the flag up and QoS at the old ceiling: a max lock without a conflict
      does not push anything. (Min 300, max 100, max 500.) */
  lemma StaleQosAfterMaxRaise(qosDefault: int32)
    ensures var t := Some(FiveLevels);
      var s := MaxStore(MaxStore(MinStore(Initial(qosDefault), 300, t, qosDefault), 100, t), 500, t);
      && s == Limits(500, 300, true, 100, 2)
      && !Conflict(s) && s.qos != s.min && s.qos != s.max
  {
    MinLevelFirstMatch(FiveLevels, 300, 2);
    MaxLevelLastMatch(FiveLevels, 100, 0);
    MaxLevelLastMatch(FiveLevels, 500, 4);
  }

  // ---------------------------------------------------------------------
  // dvfs_cpufreq_notifier on a CPUFREQ_ADJUST event

  /** The new `policy->max`: lowered to the max limit when locked (compared
      and assigned as unsigned), set to the last table entry when unlocked. */
  function AdjustedMax(policyMax: u32, limit: int32, entries: seq<u32>): (r: u32)
    requires limit == -1 ==> entries != []
    ensures limit != -1 ==> r <= policyMax && r <= ToU32(limit) && (r == policyMax || r == ToU32(limit))
    ensures limit == -1 ==> r == entries[|entries| - 1]
  {
    if limit != -1 && policyMax > ToU32(limit) then ToU32(limit)
    else if limit == -1 then entries[|entries| - 1]
    else policyMax
  }

  /** After an accepted non-negative max lock, the notifier caps every
      policy at the raw request. */
  lemma MaxLockCapsPolicy(s: Limits, val: int32, table: Option<seq<u32>>, policyMax: u32)
    requires val >= 0 && table.Some?
    requires LevelLookup(table, ToU32(val), MaxLockReq).Some?
    ensures AdjustedMax(policyMax, MaxStore(s, val, table).max, table.value) as int <= val as int
  {
  }

  /** A negative max request other than -1 reads as a frequency of at least
      2^31 and is accepted whenever the table has an entry below 2^31; it is
      stored, yet the unsigned comparison in the notifier never lowers a
      policy maximum below 2^31. */
  lemma NegativeMaxLockNeverCaps(s: Limits, val: int32, entries: seq<u32>, k: nat, policyMax: u32)
    requires val < -1
    requires k < |entries| && entries[k] < 0x8000_0000
    requires policyMax < 0x8000_0000
    ensures MaxStore(s, val, Some(entries)).max == val
    ensures AdjustedMax(policyMax, val, entries) == policyMax
  {
    MaxLevelNoneIff(entries, ToU32(val));
  }

  /** A negative min request other than -1 is looked up as a value of at
      least 2^31, so on a table whose entries all lie below 2^31 (no
      invalid sentinel among them) it is rejected and nothing changes. */
  lemma NegativeMinLockRejected(s: Limits, val: int32, entries: seq<u32>, qosDefault: int32)
    requires val < -1
    requires forall j :: 0 <= j < |entries| ==> entries[j] < 0x8000_0000
    ensures MinStore(s, val, Some(entries), qosDefault) == s
  {
    MinLevelNoneIff(entries, ToU32(val));
  }

  // ---------------------------------------------------------------------
  // The globals and their handlers

  class DvfsLimits {
    /** `cpufreq_max_limit_val` */
    var maxLimit: int32
    /** `cpufreq_min_limit_val` */
    var minLimit: int32
    /** `min_replacement` */
    var minReplacement: bool
    /** Current value of the "power" `PRCMU_QOS_ARM_KHZ` requirement. */
    var qos: int32
    /** Rounds of `cpufreq_update_policy` over the online CPUs. */
    var policyRefreshes: nat
    /** `PRCMU_QOS_DEFAULT_VALUE` */
    const qosDefault: int32

    function State(): Limits
      reads this
    {
      Limits(maxLimit, minLimit, minReplacement, qos, policyRefreshes)
    }

    ghost predicate Valid()
      reads this
    {
      Consistent(State(), qosDefault)
    }

    /** The static initial values and the requirement `pm_init` adds. */
    constructor (qosDefault: int32)
      ensures State() == Initial(qosDefault) && this.qosDefault == qosDefault
      ensures Valid()
    {
      maxLimit := -1;
      minLimit := -1;
      minReplacement := false;
      qos := qosDefault;
      policyRefreshes := 0;
      this.qosDefault := qosDefault;
    }

    /** `cpufreq_max_limit_show` */
    method MaxLimitShow() returns (v: int32)
      ensures v == maxLimit
    {
      v := maxLimit;
    }

    /** `cpufreq_min_limit_show` */
    method MinLimitShow() returns (v: int32)
      ensures v == minLimit
    {
      v := minLimit;
    }

    /** `cpufreq_max_limit_store`: `n` is the length of the written text. */
    method MaxLimitStore(table: array?<u32>, input: Option<int32>, n: nat) returns (ret: int)
      requires table != null ==> Terminated(table[..])
      modifies this
      ensures ret == if input.None? then -EINVAL else n
      ensures State() == Step(old(State()), MaxWrite(input), TableView(table), qosDefault)
      ensures old(Valid()) ==> Valid()
    {
      ret := -EINVAL;
      if input.None? {
        return;
      }
      var val := input.value;
      if val == -1 {
        if maxLimit != -1 {
          maxLimit := -1;
          policyRefreshes := policyRefreshes + 1;
          if minReplacement && minLimit != -1 {
            qos := minLimit;
            minReplacement := false;
          }
        }
      } else {
        var level := GetCpufreqLevel(table, ToU32(val), MaxLockReq);
        if level.Some? {
          maxLimit := val;
          if minLimit != -1 && minLimit > maxLimit {
            qos := maxLimit;
            minReplacement := true;
          }
          policyRefreshes := policyRefreshes + 1;
        }
      }
      ret := n;
      if old(Valid()) {
        MaxStorePreservesConsistent(old(State()), val, TableView(table), qosDefault);
      }
    }

    /** `cpufreq_min_limit_store`: `n` is the length of the written text. */
    method MinLimitStore(table: array?<u32>, input: Option<int32>, n: nat) returns (ret: int)
      requires table != null ==> Terminated(table[..])
      modifies this
      ensures ret == if input.None? then -EINVAL else n
      ensures State() == Step(old(State()), MinWrite(input), TableView(table), qosDefault)
      ensures old(Valid()) ==> Valid()
    {
      ret := -EINVAL;
      if input.None? {
        return;
      }
      var val := input.value;
      if val == -1 {
        if minLimit != -1 {
          minLimit := -1;
          qos := qosDefault;
          minReplacement := false;
        }
      } else {
        var level := GetCpufreqLevel(table, ToU32(val), MinLockReq);
        if level.Some? {
          minLimit := val;
          if maxLimit != -1 && minLimit > maxLimit {
            qos := maxLimit;
            minReplacement := true;
          } else {
            qos := minLimit;
          }
        }
      }
      ret := n;
      if old(Valid()) {
        MinStorePreservesConsistent(old(State()), val, TableView(table), qosDefault);
      }
    }

    /** `dvfs_cpufreq_notifier`. When max is unlocked the C code reads the
        entry before the end marker, which does not exist in an empty table:
        callers must not let that happen. */
    method CpufreqNotifier(event: nat, policy: Policy, table: array?<u32>) returns (ret: int)
      requires table != null ==> Terminated(table[..])
      requires event == CPUFREQ_ADJUST && table != null && maxLimit == -1 ==> Entries(table[..]) != []
      modifies policy`max
      ensures ret == if event == CPUFREQ_ADJUST && table == null then -EINVAL else NOTIFY_DONE
      ensures policy.max ==
        if event != CPUFREQ_ADJUST || table == null then old(policy.max)
        else AdjustedMax(old(policy.max), maxLimit, Entries(table[..]))
    {
      if event != CPUFREQ_ADJUST {
        return NOTIFY_DONE;
      }
      if table == null {
        return -EINVAL;
      }
      var tableLength := TableLength(table);
      if maxLimit != -1 && policy.max > ToU32(maxLimit) {
        policy.max := ToU32(maxLimit);
      } else if maxLimit == -1 {
        policy.max := table[tableLength - 1];
      }
      return NOTIFY_DONE;
    }
  }
}
