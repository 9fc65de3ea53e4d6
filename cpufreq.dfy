/** The parts of the cpufreq subsystem that the DVFS limit code reads: the
    frequency table of CPU 0, its end marker and invalid-entry sentinel, the
    policy object and the notifier event code. */
module Cpufreq {
  import opened Wrappers
  import opened KernelTypes

  /** `CPUFREQ_ENTRY_INVALID` (`~0`): an entry that is not available. */
  const CPUFREQ_ENTRY_INVALID: u32 := 0xFFFF_FFFF
  /** `CPUFREQ_TABLE_END` (`~1`): the marker that ends a frequency table. */
  const CPUFREQ_TABLE_END: u32 := 0xFFFF_FFFE
  /** `CPUFREQ_ADJUST`, the first event of a policy notifier round. */
  const CPUFREQ_ADJUST: nat := 0
  /** `NOTIFY_DONE`, "don't care" answer of a notifier callback. */
  const NOTIFY_DONE: int := 0

  /** The part of `struct cpufreq_policy` the DVFS code touches: the
      ceiling `max` it rewrites, and the hardware range `cpuinfo`. */
  class Policy {
    var max: u32
    var cpuinfoMin: u32
    var cpuinfoMax: u32
  }

  /** The frequencies of a table as the C code stores them: the table is
      only usable when the end marker occurs (every scan stops there). */
  predicate Terminated(table: seq<u32>) {
    CPUFREQ_TABLE_END in table
  }

  /** Index of the first end marker: the `table_length` every scan computes. */
  function FirstEnd(table: seq<u32>): (n: nat)
    requires Terminated(table)
    ensures n < |table| && table[n] == CPUFREQ_TABLE_END
    ensures forall k :: 0 <= k < n ==> table[k] != CPUFREQ_TABLE_END
  {
    if table[0] == CPUFREQ_TABLE_END then 0
    else
      assert table == [table[0]] + table[1..];
      1 + FirstEnd(table[1..])
  }

  /** The entries before the end marker. */
  function Entries(table: seq<u32>): (e: seq<u32>)
    requires Terminated(table)
    ensures CPUFREQ_TABLE_END !in e
    ensures |e| == FirstEnd(table)
  {
    table[..FirstEnd(table)]
  }

  /** What `cpufreq_frequency_get_table(0)` gives: no table (a null pointer),
      or the entries of the table before its end marker. */
  function TableView(table: array?<u32>): (r: Option<seq<u32>>)
    reads table
    requires table != null ==> Terminated(table[..])
    ensures r.None? <==> table == null
    ensures r.Some? ==> CPUFREQ_TABLE_END !in r.value && |r.value| < table.Length
  {
    if table == null then None else Some(Entries(table[..]))
  }

  /** The length scan: counts the entries before the first end marker. */
  method TableLength(table: array<u32>) returns (n: nat)
    requires Terminated(table[..])
    ensures n == FirstEnd(table[..])
    ensures n == |Entries(table[..])|
  {
    n := 0;
    while table[n] != CPUFREQ_TABLE_END
      invariant n <= FirstEnd(table[..])
      decreases FirstEnd(table[..]) - n
    {
      n := n + 1;
    }
  }
}
