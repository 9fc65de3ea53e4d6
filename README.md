# DVFS frequency-limit arbiter of `kernel/power/main.c`

This project models the DVFS limit block of the kernel's power-management
sysfs directory (`/sys/power`). The block is built under `CONFIG_DVFS_LIMIT`. User space writes
`cpufreq_max_limit` to cap the CPU frequency and `cpufreq_min_limit` to put
a floor under it. In both files, `-1` means "unlocked".

- A max lock is enforced through the cpufreq policy notifier, which lowers
  `policy->max` on every `CPUFREQ_ADJUST` event.
- A min lock is enforced through the PRCMU QoS requirement `"power"` for
  `PRCMU_QOS_ARM_KHZ`.
- When the two locks conflict (`min > max`), max wins. The QoS requirement is
  set to the max value, and `min_replacement` records that the floor has been
  replaced.
- `cpufreq_table` lists the usable frequencies of the CPU 0 table.
- A lock request must match a table level through `get_cpufreq_level`.

The two other small attributes of the same file are modelled as well:
`pm_async` and the debug attribute `pm_test`.

The modules are:

- `KernelTypes`: the fixed-width integers `u32` and `int32`, `EINVAL`, and
  the C cast `(unsigned int)` as `ToU32`, which adds 2^32 to a negative value.
- `Cpufreq`: the cpufreq constants, the `Policy` object, and the frequency
  table. The table is an array of `u32` frequencies that ends at
  `CPUFREQ_TABLE_END`. A null array stands for `cpufreq_frequency_get_table`
  failing. `Entries` is what the C length loop counts.
- `FreqTable`: `get_cpufreq_level` is the method `GetCpufreqLevel`. Its two
  loops are proved against the functions `MinLevel` (first entry `>= freq`)
  and `MaxLevel` (last entry `<= freq`). `cpufreq_table_show` is `TableShow`
  and `PrintDescending`, proved against `ListDesc`. `cpufreq_table_store` is
  `TableStore`.
- `DvfsLimit`: the arbiter.
  - The state `(max, min, replaced, qos, refreshes)` is a value `Limits`.
  - The pure transitions are `MaxStore`, `MinStore`, `Step` and `Run`, and
    the invariant `Consistent` is proved about them.
  - The class `DvfsLimits` holds the same state in the fields that the C
    globals are. Its two store methods are proved to change those fields
    exactly as `Step` says, and to keep `Consistent`. The two show methods
    only read a field. The notifier method changes none of them: it writes
    only `policy.max`, with the value `AdjustedMax` gives.
- `PmAttributes`: `pm_async_store`, `pm_test_store` and `pm_test_show` over
  the class `PmControls`.

The model follows the code as written, including these behaviours of it:

- **Stores keep the raw value.** A store writes the raw request into the limit
  variable, not the table level that `get_cpufreq_level` finds.
  `LockSequenceExample` shows this with a max of 350 and a min of 250 on a
  100..500 table.
- **Rejected requests still succeed.** A lock request that no table level
  satisfies changes nothing, but the write still returns `n`. Only a parse
  failure returns `-EINVAL`.
- **Negative writes are lock requests.** A negative value other than `-1` is
  looked up as `(unsigned int)val`, a value of at least 2^31.
  - A max write of such a value is accepted on any table with an entry below
    2^31, and it is stored as the negative `int`. The signed conflict test and
    the unsigned notifier clamp then disagree: see `NegativeMaxLockNeverCaps`.
  - A min write is accepted only when some entry is at or above
    `(unsigned int)val`. In practice that happens only through a
    `CPUFREQ_ENTRY_INVALID` entry (see `MinLevelAcceptsInvalid`). On a table
    whose entries are all below 2^31 it is rejected:
    `NegativeMinLockRejected`.
- **The min lookup accepts invalid entries.** It does not skip
  `CPUFREQ_ENTRY_INVALID` (`~0`). A table holding such an entry therefore
  accepts every min request: see `MinLevelAcceptsInvalid`.
- **Some stores leave QoS and the flag alone.** A min lock without a conflict
  sets QoS to the request but does not clear `min_replacement`. A max lock
  without a conflict touches neither QoS nor the flag.
- **So "replaced means QoS is max" does not hold.** After a replacement,
  raising max above min leaves the flag set and QoS at the old max:
  `StaleQosAfterMaxRaise`. The invariant that holds is `Consistent`:
  - the flag is set only while both limits are locked;
  - a conflict implies the flag is set and QoS equals max;
  - an unreplaced QoS is the min request, or the default when min is unlocked;
  - a replaced QoS is at most both limits.
- **The table listing is in index order.** It prints in descending index
  order. That is descending frequency only for an ascending table
  (`ListDescDescending`).

## Model

| member | source | states |
|---|---|---|
| KernelTypes.ToU32 | kernel/power/main.c:508 | the `(unsigned int)val` cast: a non-negative value is kept, a negative one becomes `val + 2^32`, and the result agrees with `val` modulo 2^32 |
| Cpufreq.FirstEnd | kernel/power/main.c:438 | the table length is the index of the first `CPUFREQ_TABLE_END`: the marker is there and no earlier entry is the marker |
| Cpufreq.Entries | kernel/power/main.c:438 | the entries a scan visits are the ones before the first end marker, and none of them is the marker |
| Cpufreq.TableView | kernel/power/main.c:343-348 | `cpufreq_frequency_get_table(0)` as a value: none exactly when there is no table; otherwise entries free of the end marker and shorter than the array |
| Cpufreq.TableLength | kernel/power/main.c:362 | the length loop stops at the first end marker and returns the number of entries before it |
| FreqTable.MinLevel | kernel/power/main.c:441-450 | a level the min lookup returns is a table entry at or above the requested frequency |
| FreqTable.MaxLevel | kernel/power/main.c:452-461 | a level the max lookup returns is a table entry at or below the requested frequency |
| FreqTable.MinLevelFirstMatch | kernel/power/main.c:442-448 | the min lookup returns the lowest-index entry at or above the frequency |
| FreqTable.MinLevelNoneIff | kernel/power/main.c:441-464 | the min lookup fails (`-EINVAL`) if and only if every entry is below the frequency |
| FreqTable.MinLevelAcceptsInvalid | kernel/power/main.c:442-443 | invalid entries are not skipped, so a table containing `CPUFREQ_ENTRY_INVALID` satisfies every min request |
| FreqTable.MinLevelIsNearestAbove | kernel/power/main.c:442-448 | on an ascending table the min lookup returns the smallest entry at or above the frequency |
| FreqTable.MaxLevelLastMatch | kernel/power/main.c:453-459 | the max lookup returns the highest-index entry at or below the frequency |
| FreqTable.MaxLevelNoneIff | kernel/power/main.c:452-464 | the max lookup fails if and only if every entry is above the frequency |
| FreqTable.MaxLevelIsNearestBelow | kernel/power/main.c:453-459 | on an ascending table the max lookup returns the largest entry at or below the frequency |
| FreqTable.LevelLookup | kernel/power/main.c:424-465 | no table gives no level; a level found is a table entry, at or above `freq` for a min request and at or below it for a max request |
| FreqTable.GetCpufreqLevel | kernel/power/main.c:424-465 | the lookup fails when there is no table; otherwise the min request scans upward for the first entry at or above `freq` and the max request scans downward for the last one at or below it, failing when none qualifies |
| FreqTable.Listed | kernel/power/main.c:365-367 | an entry that is printed is not `CPUFREQ_ENTRY_INVALID`, and only a non-empty range prints anything |
| FreqTable.ListDesc | kernel/power/main.c:364-370 | the listing of the whole table has at most one frequency per entry |
| FreqTable.ListFrom | kernel/power/main.c:364-370 | the listing from an index on prints at most one frequency per remaining table entry |
| FreqTable.ListDescMember | kernel/power/main.c:364-370 | a frequency is printed if and only if it is a table entry that is not `CPUFREQ_ENTRY_INVALID` and lies within the policy's cpuinfo range |
| FreqTable.ListDescDescending | kernel/power/main.c:364-370 | on an ascending table the printed frequencies are strictly descending |
| FreqTable.ShowRange | kernel/power/main.c:338-359 | with a policy the range is its cpuinfo minimum and maximum; without one the range is empty (lower bound above upper bound) |
| FreqTable.NoPolicyListsNothing | kernel/power/main.c:338-339 | without a policy the range is `[~0, 0]`, so no frequency is printed |
| FreqTable.TableShow | kernel/power/main.c:331-374 | a missing table gives the failure message; otherwise the listing of the table's entries within the policy's cpuinfo range, or within `[~0, 0]` without a policy |
| FreqTable.PrintDescending | kernel/power/main.c:364-371 | the print loop visits the entries from the last index down and prints exactly the listed ones |
| FreqTable.TableStore | kernel/power/main.c:376-382 | writing `cpufreq_table` always fails with `-EINVAL` |
| DvfsLimit.Initial | kernel/power/main.c:327-329 | the boot state: both limits unlocked (`-1`), no replacement, QoS at the default value added by `pm_init` (669-670), no policy refresh yet |
| DvfsLimit.MaxStore | kernel/power/main.c:488-533 | a parsed max write never changes the min limit, leaves max as it was or sets it to the written value, and refreshes the policies at most once, only when it set max |
| DvfsLimit.MinStore | kernel/power/main.c:561-601 | a parsed min write never changes the max limit and never refreshes the policies, and leaves min as it was or sets it to the written value |
| DvfsLimit.Step | kernel/power/main.c:474-606 | an unparsable write (483-486, 556-559) changes nothing; a max write keeps min; a min write keeps max and the refresh count |
| DvfsLimit.Run | kernel/power/main.c:474-606 | a series of writes never lowers the refresh count, and a series of min writes alone changes neither max nor the refresh count |
| DvfsLimit.InitialConsistent | kernel/power/main.c:327-329 | the boot state (both limits `-1`, no replacement, QoS at the default) is consistent |
| DvfsLimit.MaxStorePreservesConsistent | kernel/power/main.c:488-533 | every max write, unlock or lock, accepted or rejected, keeps the arbiter consistent |
| DvfsLimit.MinStorePreservesConsistent | kernel/power/main.c:561-601 | every min write keeps the arbiter consistent |
| DvfsLimit.StepPreservesConsistent | kernel/power/main.c:474-606 | every write to either attribute, including an unparsable one, keeps the arbiter consistent |
| DvfsLimit.RunPreservesConsistent | kernel/power/main.c:474-606 | any sequence of writes from a consistent state ends in a consistent state |
| DvfsLimit.ReachableConsistent | kernel/power/main.c:327-606 | every state reachable from boot by writes is consistent: the flag is set only when both limits are locked, a conflict means QoS is max, and QoS is min or the default when not replaced |
| DvfsLimit.MaxLockOutcome | kernel/power/main.c:507-533 | a max lock is accepted exactly when some entry is at or below the unsigned request; then the raw value is stored and the policies are refreshed, and only a conflict with min sets QoS to max and raises the flag; a rejected request changes nothing |
| DvfsLimit.MinLockOutcome | kernel/power/main.c:575-600 | a min lock is accepted exactly when some entry is at or above the unsigned request; then the raw value is stored, QoS becomes max with the flag raised on a conflict and the request otherwise, with the flag left as it was; a rejected request changes nothing |
| DvfsLimit.MaxUnlockRestoresMin | kernel/power/main.c:488-503 | unlocking a locked max refreshes the policies, clears the flag and leaves QoS at the min request, or at the default when min is unlocked |
| DvfsLimit.MinUnlockResetsQos | kernel/power/main.c:561-571 | unlocking a locked min sets QoS to the default, clears the flag and changes nothing else |
| DvfsLimit.MaxUnlockIdempotent | kernel/power/main.c:488-506 | unlocking an unlocked max is ignored, so a second unlock changes nothing |
| DvfsLimit.MinUnlockIdempotent | kernel/power/main.c:561-574 | unlocking an unlocked min is ignored, so a second unlock changes nothing |
| DvfsLimit.PriorityEitherOrder | kernel/power/main.c:580-592 | max has priority over min whether max or min is written first (the min-first order is caught at 512-525): both orders end replaced with QoS at max |
| DvfsLimit.LockSequenceExample | kernel/power/main.c:474-606 | max 350, min 250, max 150, max unlock on a 100..500 table give the states with raw limits, then a replacement of 250 by 150, then a restore to 250 |
| DvfsLimit.StaleQosAfterMaxRaise | kernel/power/main.c:512-525 | min 300, max 100, max 500 leave the flag set and QoS at 100, which is neither limit, without a conflict |
| DvfsLimit.AdjustedMax | kernel/power/main.c:410-415 | with max locked the new `policy->max` is the smaller of the old one and the unsigned limit; with max unlocked it is the last table entry |
| DvfsLimit.MaxLockCapsPolicy | kernel/power/main.c:410-412 | after an accepted non-negative max lock the notifier never leaves `policy->max` above the request |
| DvfsLimit.NegativeMaxLockNeverCaps | kernel/power/main.c:411-412 | a negative max request other than `-1` is accepted and stored, yet the notifier, comparing unsigned, leaves every ordinary `policy->max` alone |
| DvfsLimit.NegativeMinLockRejected | kernel/power/main.c:576-577 | a negative min request other than `-1`, read as unsigned, exceeds every entry of a table whose entries lie below 2^31, so it is rejected and nothing changes |
| DvfsLimit.DvfsLimits.constructor | kernel/power/main.c:327-329 | the globals start unlocked and unreplaced, and QoS is added at the default value |
| DvfsLimit.DvfsLimits.MaxLimitShow | kernel/power/main.c:467-472 | reading `cpufreq_max_limit` gives the stored max value |
| DvfsLimit.DvfsLimits.MinLimitShow | kernel/power/main.c:540-545 | reading `cpufreq_min_limit` gives the stored min value |
| DvfsLimit.DvfsLimits.MaxLimitStore | kernel/power/main.c:474-538 | an unparsable write returns `-EINVAL` and changes nothing; any other returns `n`; the new globals are those of `MaxStore` on the current table, and consistency is kept |
| DvfsLimit.DvfsLimits.MinLimitStore | kernel/power/main.c:547-606 | an unparsable write returns `-EINVAL` and changes nothing; any other returns `n`; the new globals are those of `MinStore` on the current table, and consistency is kept |
| DvfsLimit.DvfsLimits.CpufreqNotifier | kernel/power/main.c:390-418 | an event other than `CPUFREQ_ADJUST` returns `NOTIFY_DONE` untouched; a missing table returns `-EINVAL` untouched; otherwise `policy->max` becomes `AdjustedMax` and the result is `NOTIFY_DONE` |
| PmAttributes.CommandLength | kernel/power/main.c:122-123 | the command is the input up to its first newline, or all of it when it has none |
| PmAttributes.CommandLengthOfLine | kernel/power/main.c:122-123 | a newline-terminated line has exactly the line as its command, whatever follows |
| PmAttributes.LevelNamedFrom | kernel/power/main.c:127-133 | the scan from a level finds the first level at or after it whose name equals the command, or reports that none does |
| PmAttributes.LevelNamed | kernel/power/main.c:127-133 | a command selects a level whose name it equals, and selects none exactly when it is not a test name |
| PmAttributes.NameSelectsLevel | kernel/power/main.c:83-90 | each test name selects its own level (the names are distinct) |
| PmAttributes.ShowWord | kernel/power/main.c:100-103 | one level's word is longer than its name and ends in a space |
| PmAttributes.ShowWords | kernel/power/main.c:98-104 | the words of the first levels are empty exactly when no level is listed, and otherwise end in a space |
| PmAttributes.LastSpaceToNewline | kernel/power/main.c:106-108 | the text keeps its length and every character but the last, which a non-empty text has turned into a newline |
| PmAttributes.TestShowText | kernel/power/main.c:98-110 | the whole `pm_test` listing is non-empty and ends in a newline |
| PmAttributes.ShowWordsBracket | kernel/power/main.c:98-104 | the listing brackets a name exactly when the current level is among the levels listed |
| PmAttributes.TestShowMarksCurrent | kernel/power/main.c:98-110 | the `pm_test` listing ends in a newline and brackets a name if and only if the current level is a test level |
| PmAttributes.StoreShownName | kernel/power/main.c:122-133 | writing a test name followed by a newline selects that test level |
| PmAttributes.PmControls.constructor | kernel/power/main.c:55 | asynchronous suspend starts enabled, and the test level starts at `TEST_NONE` (line 81) |
| PmAttributes.PmControls.AsyncStore | kernel/power/main.c:63-76 | a parsed 0 or 1 is stored and returns `n`; an unparsable value or one above 1 returns `-EINVAL` and changes nothing |
| PmAttributes.PmControls.TestStore | kernel/power/main.c:113-138 | a command naming a test level selects it and returns `n`; any other returns `-EINVAL` and keeps the level |
| PmAttributes.PmControls.TestShow | kernel/power/main.c:92-111 | the text is every test name, the current one in brackets, separated by spaces, with the last space turned into a newline |

## Left out

- sysfs registration (`power_attr`, the attribute group, `pm_init` apart from the initial QoS value) is left out: it is plumbing with no state of its own.
- Text conversion is left out. `sscanf("%d")` and `strict_strtoul` are modelled by the parsed value they yield (an `Option`). The `sprintf` output is modelled as the values printed, not as their characters.
- `"%d"` printing is not modelled. It prints a frequency above 2^31 - 1 as a negative number.
- `printk`, `pr_info` and the `debug_mask` logging are left out: they do not change any state.
- `cpufreq_update_policy` is modelled only by the counter `refreshes`. Running the policy notifier chain inside a store is left out, because the notifier reads only the max limit and is modelled as its own operation.
- `prcmu_qos_update_requirement` and `prcmu_qos_add_requirement` are modelled by the current value of the `"power"` requirement. How the PRCMU firmware aggregates several requirements is not part of this model.
- `PRCMU_QOS_DEFAULT_VALUE` is a parameter (`qosDefault`). Its header is not part of this model.
- `cpufreq_frequency_get_table(0)` and `cpufreq_cpu_get(0)` are parameters: the table array (null when there is none) and the policy (null when there is none).
- Concurrency is left out. The DVFS handlers take no lock, and the model runs each handler atomically. The `pm_mutex` critical section in `pm_test_store` is not modelled.
- DvfsLimit.DvfsLimits.CpufreqNotifier: requires a non-empty table when max is unlocked. On an empty table the C code reads `table[table_length-1]` with the unsigned `table_length` at 0, i.e. `table[UINT_MAX]`; that is the entry before the table only through 32-bit pointer wrap-around, and the model cannot express either.
- Table lengths are unbounded naturals. The `unsigned int table_length` and `int i` counters are not modelled for tables above 2^31 entries.
- `cpufreq_table_show` takes a policy reference with `cpufreq_cpu_get(0)` and never releases it with `cpufreq_cpu_put`, so every read leaks one reference; reference counting is not modelled.
- `pm_async_show` is not modelled: it only prints `pm_async_enabled`.
- The rest of `kernel/power/main.c` is not part of this model: `state_store`, hibernation, `wakeup_count`, PM trace, the PM notifier chain and the suspend workqueue.
