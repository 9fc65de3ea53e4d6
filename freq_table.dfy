/** The frequency-table side of the DVFS limits: `get_cpufreq_level`, which
    checks a requested limit against the table, and the read-only
    `cpufreq_table` attribute. */
module FreqTable {
  import opened Wrappers
  import opened KernelTypes
  import opened Cpufreq

  /** `enum dvfs_lock_request_type`. */
  datatype LockRequest = MinLockReq | MaxLockReq

  /** Every entry is strictly above the ones before it (how tables are
      usually laid out; the lookups do not rely on it). */
  predicate StrictlyAscending(s: seq<u32>) {
    forall i, j :: 0 <= i < j < |s| ==> s[i] < s[j]
  }

  predicate StrictlyDescending(s: seq<u32>) {
    forall i, j :: 0 <= i < j < |s| ==> s[i] > s[j]
  }

  // ---------------------------------------------------------------------
  // get_cpufreq_level

  /** The min-lock scan: first entry, from index 0 upwards, that is at least
      `freq`. Invalid-entry sentinels are compared like any other entry. */
  function MinLevel(entries: seq<u32>, freq: u32): (r: Option<u32>)
    ensures r.Some? ==> r.value in entries && r.value >= freq
  {
    if entries == [] then None
    else if entries[0] >= freq then Some(entries[0])
    else MinLevel(entries[1..], freq)
  }

  /** The max-lock scan: first entry, from the last index downwards, that is
      at most `freq`. */
  function MaxLevel(entries: seq<u32>, freq: u32): (r: Option<u32>)
    ensures r.Some? ==> r.value in entries && r.value <= freq
  {
    if entries == [] then None
    else if entries[|entries| - 1] <= freq then Some(entries[|entries| - 1])
    else MaxLevel(entries[..|entries| - 1], freq)
  }

  /** `get_cpufreq_level` as a value: `None` stands for `-EINVAL` (no table,
      or no entry qualifies), `Some(level)` for `VALID_LEVEL` with `*level`. */
  function LevelLookup(table: Option<seq<u32>>, freq: u32, req: LockRequest): (r: Option<u32>)
    ensures table.None? ==> r.None?
    ensures r.Some? ==> table.Some? && r.value in table.value
    ensures r.Some? && req == MinLockReq ==> r.value >= freq
    ensures r.Some? && req == MaxLockReq ==> r.value <= freq
  {
    match table
    case None => None
    case Some(entries) =>
      match req
      case MinLockReq => MinLevel(entries, freq)
      case MaxLockReq => MaxLevel(entries, freq)
  }

  /** The min lookup answers with the lowest-index entry that is >= freq. */
  lemma {:induction false} MinLevelFirstMatch(entries: seq<u32>, freq: u32, k: nat)
    requires k < |entries| && entries[k] >= freq
    requires forall j :: 0 <= j < k ==> entries[j] < freq
    ensures MinLevel(entries, freq) == Some(entries[k])
  {
    if k > 0 {
      MinLevelFirstMatch(entries[1..], freq, k - 1);
    }
  }

  /** The min lookup fails exactly when every entry is below freq. */
  lemma {:induction false} MinLevelNoneIff(entries: seq<u32>, freq: u32)
    ensures MinLevel(entries, freq).None? <==> forall j :: 0 <= j < |entries| ==> entries[j] < freq
  {
    if entries != [] && entries[0] < freq {
      MinLevelNoneIff(entries[1..], freq);
      assert forall j :: 1 <= j < |entries| ==> entries[j] == entries[1..][j - 1];
    }
  }

  /** Because the min scan does not skip `CPUFREQ_ENTRY_INVALID` (the largest
      unsigned value), a table holding one accepts every min request. */
  lemma MinLevelAcceptsInvalid(entries: seq<u32>, freq: u32)
    requires CPUFREQ_ENTRY_INVALID in entries
    ensures MinLevel(entries, freq).Some?
  {
    var k :| 0 <= k < |entries| && entries[k] == CPUFREQ_ENTRY_INVALID;
    MinLevelNoneIff(entries, freq);
  }

  /** On a strictly ascending table the min lookup gives the smallest entry
      that is not below freq. */
  lemma {:induction false} MinLevelIsNearestAbove(entries: seq<u32>, freq: u32)
    requires StrictlyAscending(entries)
    requires MinLevel(entries, freq).Some?
    ensures forall j :: 0 <= j < |entries| && entries[j] >= freq ==> MinLevel(entries, freq).value <= entries[j]
  {
    if entries[0] < freq {
      MinLevelIsNearestAbove(entries[1..], freq);
      assert forall j :: 1 <= j < |entries| ==> entries[j] == entries[1..][j - 1];
    }
  }

  /** The max lookup answers with the highest-index entry that is <= freq. */
  lemma {:induction false} MaxLevelLastMatch(entries: seq<u32>, freq: u32, k: nat)
    requires k < |entries| && entries[k] <= freq
    requires forall j :: k < j < |entries| ==> entries[j] > freq
    ensures MaxLevel(entries, freq) == Some(entries[k])
  {
    if k < |entries| - 1 {
      MaxLevelLastMatch(entries[..|entries| - 1], freq, k);
    }
  }

  /** The max lookup fails exactly when every entry is above freq. */
  lemma {:induction false} MaxLevelNoneIff(entries: seq<u32>, freq: u32)
    ensures MaxLevel(entries, freq).None? <==> forall j :: 0 <= j < |entries| ==> entries[j] > freq
  {
    if entries != [] && entries[|entries| - 1] > freq {
      MaxLevelNoneIff(entries[..|entries| - 1], freq);
    }
  }

  /** On a strictly ascending table the max lookup gives the largest entry
      that is not above freq. */
  lemma {:induction false} MaxLevelIsNearestBelow(entries: seq<u32>, freq: u32)
    requires StrictlyAscending(entries)
    requires MaxLevel(entries, freq).Some?
    ensures forall j :: 0 <= j < |entries| && entries[j] <= freq ==> entries[j] <= MaxLevel(entries, freq).value
  {
    if entries[|entries| - 1] > freq {
      MaxLevelIsNearestBelow(entries[..|entries| - 1], freq);
    }
  }

  /** `get_cpufreq_level(freq, &level, req_type)`: the table-length scan,
      then the ascending (min) or descending (max) search. */
  method GetCpufreqLevel(table: array?<u32>, freq: u32, req: LockRequest) returns (level: Option<u32>)
    requires table != null ==> Terminated(table[..])
    ensures level == LevelLookup(TableView(table), freq, req)
  {
    if table == null {
      return None;
    }
    var tableLength := TableLength(table);
    ghost var entries := Entries(table[..]);
    match req {
      case MinLockReq =>
        var i := 0;
        while table[i] != CPUFREQ_TABLE_END
          invariant i <= tableLength
          invariant MinLevel(entries, freq) == MinLevel(entries[i..], freq)
          decreases tableLength - i
        {
          assert table[i] == entries[i..][0];
          if table[i] >= freq {
            return Some(table[i]);
          }
          assert entries[i..][1..] == entries[i + 1..];
          i := i + 1;
        }
        return None;
      case MaxLockReq =>
        var i: int := tableLength as int - 1;
        assert entries[..i + 1] == entries;
        while i >= 0
          invariant -1 <= i < tableLength
          invariant MaxLevel(entries, freq) == MaxLevel(entries[..i + 1], freq)
        {
          assert table[i] == entries[i];
          if table[i] <= freq {
            return Some(table[i]);
          }
          assert entries[..i + 1][..i] == entries[..i];
          i := i - 1;
        }
        return None;
    }
  }

  // ---------------------------------------------------------------------
  // cpufreq_table_show / cpufreq_table_store

  /** An entry is printed when it is not the invalid sentinel and lies in
      the unsigned range [lo, hi]. */
  predicate Listed(f: u32, lo: u32, hi: u32): (b: bool)
    ensures b ==> lo <= hi && f != CPUFREQ_ENTRY_INVALID
  {
    f != CPUFREQ_ENTRY_INVALID && lo <= f <= hi
  }

  /** The printed entries of indices `from` .. |entries|-1, from the last
      index down to `from`. */
  function ListFrom(entries: seq<u32>, from: nat, lo: u32, hi: u32): (r: seq<u32>)
    requires from <= |entries|
    ensures |r| <= |entries| - from
    decreases |entries| - from
  {
    if from == |entries| then []
    else ListFrom(entries, from + 1, lo, hi) + (if Listed(entries[from], lo, hi) then [entries[from]] else [])
  }

  /** The whole listing, from the last index down to index 0. */
  function ListDesc(entries: seq<u32>, lo: u32, hi: u32): (r: seq<u32>)
    ensures |r| <= |entries|
  {
    ListFrom(entries, 0, lo, hi)
  }

  lemma {:induction false} ListFromMember(entries: seq<u32>, from: nat, lo: u32, hi: u32, x: u32)
    requires from <= |entries|
    ensures x in ListFrom(entries, from, lo, hi) <==> x in entries[from..] && Listed(x, lo, hi)
    decreases |entries| - from
  {
    if from < |entries| {
      ListFromMember(entries, from + 1, lo, hi, x);
      assert entries[from..] == [entries[from]] + entries[from + 1..];
    }
  }

  /** A frequency is printed exactly when it is in the table and in range. */
  lemma ListDescMember(entries: seq<u32>, lo: u32, hi: u32, x: u32)
    ensures x in ListDesc(entries, lo, hi) <==> x in entries && Listed(x, lo, hi)
  {
    ListFromMember(entries, 0, lo, hi, x);
  }

  lemma {:induction false} ListFromDescending(entries: seq<u32>, from: nat, lo: u32, hi: u32)
    requires from <= |entries|
    requires StrictlyAscending(entries)
    ensures StrictlyDescending(ListFrom(entries, from, lo, hi))
    decreases |entries| - from
  {
    if from < |entries| {
      ListFromDescending(entries, from + 1, lo, hi);
      var rest := ListFrom(entries, from + 1, lo, hi);
      forall k | 0 <= k < |rest|
        ensures rest[k] > entries[from]
      {
        ListFromMember(entries, from + 1, lo, hi, rest[k]);
        var j :| 0 <= j < |entries[from + 1..]| && entries[from + 1..][j] == rest[k];
        assert entries[from + 1 + j] == rest[k];
      }
    }
  }

  /** Printing in descending index order turns an ascending table into a
      strictly descending listing. */
  lemma ListDescDescending(entries: seq<u32>, lo: u32, hi: u32)
    requires StrictlyAscending(entries)
    ensures StrictlyDescending(ListDesc(entries, lo, hi))
  {
    ListFromDescending(entries, 0, lo, hi);
  }

  /** The bounds `cpufreq_table_show` filters with: the policy's `cpuinfo`
      range, or the empty range `[~0, 0]` when there is no policy. */
  function ShowRange(policy: Policy?): (r: (u32, u32))
    reads policy
    ensures policy == null ==> r.0 > r.1
    ensures policy != null ==> r == (policy.cpuinfoMin, policy.cpuinfoMax)
  {
    if policy == null then (0xFFFF_FFFF, 0) else (policy.cpuinfoMin, policy.cpuinfoMax)
  }

  /** Without a policy nothing lies in the range, so only the newline is printed. */
  lemma NoPolicyListsNothing(entries: seq<u32>)
    ensures ListDesc(entries, ShowRange(null).0, ShowRange(null).1) == []
  {
    var r := ListDesc(entries, 0xFFFF_FFFF, 0);
    if r != [] {
      ListDescMember(entries, 0xFFFF_FFFF, 0, r[0]);
      assert false;
    }
  }

  /** What `cpufreq_table_show` writes: the message for a missing table, or
      the listed frequencies, each followed by a space, and a final newline. */
  datatype TableText = TableMissing | Frequencies(values: seq<u32>)

  /** `cpufreq_table_show`. */
  method TableShow(table: array?<u32>, policy: Policy?) returns (text: TableText)
    requires table != null ==> Terminated(table[..])
    ensures table == null ==> text == TableMissing
    ensures table != null ==>
      text == Frequencies(ListDesc(Entries(table[..]), ShowRange(policy).0, ShowRange(policy).1))
  {
    if table == null {
      return TableMissing;
    }
    var minFreq: u32 := 0xFFFF_FFFF;
    var maxFreq: u32 := 0;
    if policy != null {
      minFreq := policy.cpuinfoMin;
      maxFreq := policy.cpuinfoMax;
    }
    var tableLength := TableLength(table);
    var printed := PrintDescending(table, tableLength, minFreq, maxFreq);
    return Frequencies(printed);
  }

  /** The print loop of `cpufreq_table_show`: from `table_length - 1` down
      to 0, skip invalid and out-of-range entries, append the others. */
  method PrintDescending(table: array<u32>, tableLength: nat, minFreq: u32, maxFreq: u32) returns (printed: seq<u32>)
    requires tableLength <= table.Length
    ensures printed == ListDesc(table[..tableLength], minFreq, maxFreq)
  {
    ghost var entries := table[..tableLength];
    printed := [];
    var i: int := tableLength as int - 1;
    while i >= 0
      invariant -1 <= i < tableLength
      invariant printed == ListFrom(entries, i + 1, minFreq, maxFreq)
    {
      var f := table[i];
      assert f == entries[i];
      if !(f == CPUFREQ_ENTRY_INVALID || f > maxFreq || f < minFreq) {
        printed := printed + [f];
      }
      i := i - 1;
    }
  }

  /** `cpufreq_table_store`: the attribute is read-only, every write fails. */
  method TableStore(n: nat) returns (ret: int)
    ensures ret == -EINVAL
  {
    ret := -EINVAL;
  }
}
