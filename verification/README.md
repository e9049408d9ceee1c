# PM QoS aggregator and K3V2 reboot-mode selection

A Dafny model of two pieces of a K3V2 Android kernel.

**The PM QoS parameter aggregator** (`kernel/pm_qos_params.c`).

- The kernel keeps a fixed table of QoS classes: cpu_dma_latency, network_latency, network_throughput, and the K3 hot-plug profile and cpu-number classes.
- Each class keeps a list of request nodes, one per active request handle.
- Each class also keeps a cached `target_value`. That value is the class default when the list is empty. Otherwise it is the smallest request (a `PM_QOS_MIN` class) or the largest (a `PM_QOS_MAX` class).
- `pm_qos_add_request`, `pm_qos_update_request` and `pm_qos_remove_request` change a list through `update_target`. That function recomputes the cache and calls the notifier chain when the value changed.
- `pm_qos_verify_request` clamps a request for a paired class so that it does not cross the current target of its partner. The pairs are cpu, gpu and ddr max/min profile, and cpu-number max/min.
- The per-class misc device works as follows:
  - opening it adds a request with `PM_QOS_DEFAULT_VALUE`;
  - releasing it removes that request;
  - reading it returns the aggregate;
  - writing it parses four raw bytes, or up to eleven bytes of hexadecimal text, and updates the request.

**The reboot-mode selection of the K3V2 OEM1 board** (`arch/arm/mach-k3v2/board-k3v2oem1.c`).

- `_k3v2oem1_reset` maps a reboot command, or none, to the code it stores in the reset register.
- It looks the code up by name with `find_rebootmap` in the `k3v2_map` table.

## Modules

- `Common` (common.dfy): `Option`, `Result` with `EINVAL`/`EPERM`, the C integer types, and the `(s32)` cast.
- `QosClasses` (qos_classes.dfy): the class table and the ceiling/floor pairing.
- `QosLedger` (qos_ledger.dfy): a request list and its aggregate. The list is a sequence of `Node(owner, prio)` and is also viewed as a *ledger*, a map from handle to requested value. The aggregate has two forms, computed (`GetValue`) and declarative (`IsAggregate`).
- `QosEngine` (qos_engine.dfy): the engine state, which holds every class's list, cache and active handles. It also holds the invariant `Valid` and the request operations. Each operation returns a `Step`: the new state plus the notifier call it made, if any.
- `QosDevice` (qos_device.dfy): the misc-device open, release, read and write paths, the write parser and its round trips.
- `QosProperties` (qos_properties.dfy): properties that relate several operations:
  - the aggregate stated on the ledger;
  - one node per handle;
  - idempotent removal;
  - the ordering the clamp maintains between paired classes.
- `RebootMode` (reboot_mode.dfy): `k3v2_map`, `find_rebootmap` and the reset-code selection.

## Model

| member | source | states |
|---|---|---|
| QosClasses.Table | kernel/pm_qos_params.c:76-308 | the class table has 21 classes, indexed by position in `pm_qos_array`, with their names and MIN/MAX rules; the reserved entry has default 0 and no default is the sentinel |
| QosClasses.PairingConsistent | kernel/pm_qos_params.c:429-545 | the clamp pairs are symmetric (c is the ceiling of d exactly when d is the floor of c); every ceiling is a MIN class and every floor is a MAX class |
| QosLedger.Extremum | kernel/pm_qos_params.c:330-338 | the extremum of a non-empty list is a priority in the list, and it is no larger (MIN) or no smaller (MAX) than every priority |
| QosLedger.AggregateIsGetValue | kernel/pm_qos_params.c:326-342 | `pm_qos_get_value` returns the one value that meets the definition: the default for an empty list, otherwise a present priority that dominates all others |
| QosLedger.Without | kernel/pm_qos_params.c:369-373 | `plist_del` keeps exactly the nodes of other handles |
| QosLedger.WithoutLedger | kernel/pm_qos_params.c:369-373 | unlinking a handle removes exactly its ledger entry |
| QosLedger.WithoutDistinct | kernel/pm_qos_params.c:369 | unlinking keeps a list free of duplicate handles |
| QosLedger.AppendNode | kernel/pm_qos_params.c:371-375 | `plist_add` of an unlinked handle adds exactly its entry to the ledger and keeps the list duplicate-free |
| QosLedger.ReplaceNode | kernel/pm_qos_params.c:363-371 | remove-reinit-add leaves the handle one entry holding the new value; no other handle's entry changes |
| QosLedger.DistinctCount | kernel/pm_qos_params.c:369-371 | in a duplicate-free list every owner has exactly one node |
| QosEngine.Init | kernel/pm_qos_params.c:76-278 | at boot every list is empty and every target is its class default; the invariant holds |
| QosEngine.UpdateTarget | kernel/pm_qos_params.c:354-385 | only the class's list and cache change; the list is replaced, unlinked or linked by mode; the new cache is the aggregate of the new list; the chain is notified, with the new value, exactly when the aggregate changed |
| QosEngine.NewListLedger | kernel/pm_qos_params.c:363-376 | the three modes of `update_target` set, remove or add exactly the handle's ledger entry |
| QosEngine.Request | kernel/pm_qos_params.c:415-418 | `pm_qos_request` returns the aggregate of the class's current requests |
| QosEngine.RequestActive | kernel/pm_qos_params.c:421-424 | a handle is active exactly when it owns a node in some class's list |
| QosEngine.Substitute | kernel/pm_qos_params.c:573-576 | the sentinel becomes the class default; any other value is kept |
| QosEngine.VerifyRequest | kernel/pm_qos_params.c:429-545 | a ceiling request is raised to the floor's target, a floor request is lowered to the ceiling's target, and other requests pass through; the result respects the partner, an already admissible value is kept, and a changed value equals the partner's target |
| QosEngine.AddRequest | kernel/pm_qos_params.c:562-585 | on an active handle nothing happens; otherwise the handle becomes active in the class and gains one entry holding the substituted, clamped value (the default for the sentinel); no other entry or class changes; notification as in `update_target`; the invariant is kept |
| QosEngine.UpdateRequest | kernel/pm_qos_params.c:598-625 | a NULL or inactive handle, or a value equal to the current priority after substitution and clamping, changes nothing and notifies nothing; otherwise the handle's single entry is replaced by that value and nothing else changes |
| QosEngine.Reprioritize | kernel/pm_qos_params.c:621-624 | re-links the node only when the value differs; the ledger gets the new entry; notification as in `update_target` |
| QosEngine.RemoveRequest | kernel/pm_qos_params.c:636-652 | a NULL or inactive handle changes nothing; otherwise the handle's entry is removed, the target recomputed and the handle deactivated; no other entry or class changes |
| QosEngine.TargetNotSentinel | kernel/pm_qos_params.c:573-576 | in every reachable state no cached target is the sentinel |
| QosDevice.FindByMinor | kernel/pm_qos_params.c:396-407 | returns the first class whose device has the minor, and -1 exactly when no class has it |
| QosDevice.Open | kernel/pm_qos_params.c:693-710 | an unknown minor fails with EPERM and changes nothing; otherwise the handle is added, with the sentinel, to the first class whose device has the minor |
| QosDevice.Release | kernel/pm_qos_params.c:712-721 | a NULL or inactive handle changes nothing; otherwise the handle is inactive afterwards, its ledger entry is removed, every other handle keeps its class and entry, no other class changes, and the chain is notified exactly when the aggregate changed |
| QosDevice.PowerRead | kernel/pm_qos_params.c:724-743 | a missing or inactive handle gives EINVAL; otherwise the value is the class aggregate, which is the cached target |
| QosDevice.ParseWrite | kernel/pm_qos_params.c:751-778 | four bytes are decoded as little-endian s32; more than 11 bytes, or 11 without a newline at index 10, are rejected; any other length is accepted exactly when the hex parser accepts it, and yields its value through the `(s32)` cast |
| QosDevice.PowerWrite | kernel/pm_qos_params.c:745-784 | a failed parse gives EINVAL and changes nothing; a successful one updates the request with the parsed value and consumes the whole count |
| QosDevice.DecodeEncode | kernel/pm_qos_params.c:751-753 | writing the four bytes of an s32 requests that s32 |
| QosDevice.EncodeDecode | kernel/pm_qos_params.c:751-753 | every four-byte buffer is the encoding of the value it decodes to |
| QosDevice.ParseHexText | kernel/pm_qos_params.c:754-775 | the hex numeral of any 32-bit value, with or without a trailing newline, parses back to that value cast to s32, unless the text is exactly four bytes long |
| QosDevice.StrtoulHexText | kernel/pm_qos_params.c:770-775 | the hex parser reads back the numeral of any 32-bit value |
| QosDevice.FourDigitTextIsBinary | kernel/pm_qos_params.c:751-754 | every four-byte write of hex digits (any case, leading zeros allowed) is read as raw little-endian bytes, and the value so read always differs from the number the digits spell |
| QosDevice.ReadThenWriteBinary | kernel/pm_qos_params.c:724-784 | writing back the four bytes a read returned requests the value that was read |
| QosDevice.CString | kernel/pm_qos_params.c:762-769 | the parser sees the bytes before the first NUL: a prefix with no NUL, ending at the NUL |
| QosProperties.LedgerAggregate | kernel/pm_qos_params.c:326-342 | the aggregate of a duplicate-free list is the aggregate of its ledger of live requests |
| QosProperties.TargetIsLedgerAggregate | kernel/pm_qos_params.c:378-379 | every cached target is the default with no requests, otherwise the smallest (MIN) or largest (MAX) live request |
| QosProperties.EmptyClassIsDefault | kernel/pm_qos_params.c:328-329 | a class with no live request reports its default |
| QosProperties.OneNodePerHandle | kernel/pm_qos_params.c:562-652 | an active handle owns exactly one node, in its class's list, and none elsewhere |
| QosProperties.UpdateKeepsOneEntry | kernel/pm_qos_params.c:598-625 | after an update the handle still owns exactly one node, which holds the substituted, clamped value |
| QosProperties.RemoveIdempotent | kernel/pm_qos_params.c:636-652 | removing a second time changes nothing and notifies nothing |
| QosProperties.InitPairsOrdered | kernel/pm_qos_params.c:76-308 | at boot every ceiling/floor pair is ordered |
| QosProperties.OperationsKeepPairsOrdered | kernel/pm_qos_params.c:429-652 | add, update and remove keep every floor request at most every ceiling request |
| QosProperties.WindowNotInverted | kernel/pm_qos_params.c:429-545 | while both classes of a pair have requests, the floor's target does not exceed the ceiling's |
| QosProperties.OpenUnpaired | kernel/pm_qos_params.c:573-584 | opening on an unpaired class links the handle at the class default |
| QosProperties.WriteUnpaired | kernel/pm_qos_params.c:610-624 | a write on an unpaired class sets the handle's entry to the value written |
| RebootMode.LoopExit | arch/arm/mach-k3v2/board-k3v2oem1.c:1383-1388 | the search loop stops at the first entry with the name, or at the table length when there is none |
| RebootMode.LoopExitPastEnd | arch/arm/mach-k3v2/board-k3v2oem1.c:1383-1390 | the loop reaches index 8, one past the end, exactly for a name not in the table |
| RebootMode.FindRebootMap | arch/arm/mach-k3v2/board-k3v2oem1.c:1379-1391 | for a name in the table, the result is the code of an entry with that name |
| RebootMode.NamesDistinct | arch/arm/mach-k3v2/board-k3v2oem1.c:1367-1377 | the table names are pairwise distinct |
| RebootMode.FindRebootMapCodes | arch/arm/mach-k3v2/board-k3v2oem1.c:1367-1391 | every table entry is found by its name and yields its own code |
| RebootMode.ResetCode | arch/arm/mach-k3v2/board-k3v2oem1.c:1393-1422 | every lookup the reset path makes is for a name in the table, and the selected code is one of the table's codes |
| RebootMode.ResetCodeNone | arch/arm/mach-k3v2/board-k3v2oem1.c:1399-1402 | no command selects the cold-boot code 0x10 |
| RebootMode.ResetCodeWarm | arch/arm/mach-k3v2/board-k3v2oem1.c:1406-1416 | each of the seven warm-boot commands selects its own code (0x01, 0x02, 0x03, 0x04, 0x06, 0x09, 0x05) |
| RebootMode.ResetCodeOther | arch/arm/mach-k3v2/board-k3v2oem1.c:1417-1421 | any other command, "coldboot" included, selects the cold-boot code 0x10 |

## Design notes

- **Cold-boot flag.** `RESET_COLD_FLAG` is defined as "coldboot" in arch/arm/mach-k3v2/board-k3v2oem1.c:152, the name of the first `k3v2_map` entry. `RebootMode.ColdFlag` holds that string.
- **Request lists.** A class's plist, sorted by priority in the source, is modelled as an unsorted sequence of nodes. Its priority order only serves to find the first or last node quickly, so `GetValue` computes the extremum by a scan.
- **State invariant.** `Valid` holds in every reachable state:
  - each list links a handle at most once;
  - each cache holds its list's aggregate;
  - a node is linked exactly in the list of its handle's class and never holds the sentinel;
  - an active handle has a real class and a node there.
- **Handles.** A handle is identified by a number. `active` maps each active handle to its class. A handle missing from `active` is zero-filled, which is class 0, so `pm_qos_request_active` is false for it.
- **Open with the sentinel.** Opening the device, or adding with `PM_QOS_DEFAULT_VALUE`, links a node at the class default (kernel/pm_qos_params.c:573-576). That node takes part in the minimum or maximum like any other request.
- **Four-byte writes.** A write of exactly four bytes is always read as a raw `s32`, even when the bytes are hexadecimal text.
- **Paired-class ordering.** The clamp compares against the partner's *target*, which is the partner's default when the partner has no requests. So the pairs stay ordered request by request (`OperationsKeepPairsOrdered`), and the targets are ordered only while both classes have requests (`WindowNotInverted`).

## Left out

- The spinlock and interrupt masking in `update_target` and `pm_qos_power_read`: each operation is one atomic step.
- Notifier-chain internals, `pm_qos_add_notifier` and `pm_qos_remove_notifier`. A notification is the `Event` of a `Step`, carrying the class and the new value.
- Misc-device registration and `pm_qos_power_init`. The minors the devices received are a parameter of `FindByMinor` and `Open`.
- QosDevice.Open: every device registers with `MISC_DYNAMIC_MINOR` (kernel/pm_qos_params.c:389), and the misc layer that allocates the minor is not part of this model. The model assumes no device received minor 0. If one did, `find_pm_qos_object_by_minor` would match the zero-filled reserved class first (kernel/pm_qos_params.c:400-404), and open would add a request to class 0, which has no list head (kernel/pm_qos_params.c:703). `Open` therefore requires a non-zero minor and non-zero device minors and does not model that path.
- Allocation failure (`-ENOMEM`) and the user-copy failures (`-EFAULT`) in open, read and write: these are kernel services, not logic.
- `simple_read_from_buffer`: `PowerRead` yields the value, not the copy into the user buffer.
- QosDevice.StrictStrtoul16: `strict_strtoul` is not part of this model. It is modelled as accepting a non-empty run of hex digits in either case, optionally followed by one newline, with no `0x` prefix and the value taken modulo 2^32. The library's own overflow reporting is not modelled.
- QosClasses.Table: the default values and `PM_QOS_DEFAULT_VALUE` come from `include/linux/pm_qos_params.h`, which is not part of this model. Defaults are a parameter. The sentinel is -1, the Linux value. A default equal to the sentinel is excluded.
- The table assumes `CONFIG_CPU_FREQ_GOV_K3HOTPLUG` is enabled, which gives 21 classes and the clamp. Without it the table has 4 classes and no clamp.
- The reserved class 0 (`null_pm_qos`) has no list head. The operations require a class above 0.
- RebootMode.FindRebootMap: a name outside the table makes the C loop read `k3v2_map[8]`, past the end. The model requires the name to be in the table, and `LoopExitPastEnd` states when the loop runs off the end.
- `writel`, `readl`, `printk` and `reboot_board` in the reset path: hardware writes and logging.
- The rest of `board-k3v2oem1.c`: static board data, device registration and sysfs keys.
- The sensor, thermal and device-data files of the repository: no logic of the aggregator or the reset path.
