# Virtual-battery charging: a verified model

This project models five parts of the Virtual-No-Battery-Charging-Mode sources and proves what
they promise over all inputs and whole runs:

- **Block I/O** (`bio.c`): byte-granular reads, writes and erases made of whole-block transfers, refined to
  slices and splices of one flat byte array, with every failure pattern of the block hooks; and the
  reference counts of the device registry. Files `FlatImage`, `BlockDevice`, `BlockRegistry`.
- **eMMC metadata** (`mmc_core.c`): the packed write-protection scan, protecting and locking group ranges,
  partition sizing through the extended CSD, the 128-bit field extractor, and the chunked, retried block
  read. Files `WriteProtectScan`, `WriteProtectCard`, `ExtCsd`, `BitField`, `ChunkedRead`.
- **Charging policy** (`mtk_charger.c`): the bypass mode and the protection windows with their latches, the
  JEITA temperature machine and the charging gate on top. Files `SmartCharging`, `SmartChargingRuns`,
  `Jeita`, `ChargeGate`.
- **Persistent settings** (the MM8xxx fuel gauge driver): the bypass setting and date records in sealed NVM.
  File `BypassNvm`.
- **Charger registers** (`sgm415xx.c`): masked setters that share bytes, and their encodings. File
  `ChargerRegs`.

`Arithmetic`, `LittleEndian`, `Hysteresis`, `MmcErrors` and `Wrappers` hold what these share.

Code that changes state is a class whose methods are proved against specification functions; lemmas about
those functions state the results over runs. Devices are abstract: which transfer or command fails, and
with what number, is an arbitrary function of the call number, so every result holds for every failure
pattern. `dafny verify dfyconfig.toml` checks the whole project.

Findings, each stated as a lemma or contract:

- An early stop of `bio_erase` can return the same number as a complete erase. With the deblocking write the
  number is unambiguous exactly when the offset is zero, or greater than the length (as clamped to the
  device), or the length less the offset is no multiple of 4096; with a driver's own write hook exactly when
  the offset is zero or greater than the length (`EraseResultTellsCompletion`; a run in `AmbiguousErase`).
- The protection scan uses the status byte 0x01 as "nothing seen yet", so a range whose first scanned byte
  is 0x01 can be reported as uniformly of another type (`SentinelMisleads`); `ScanRight` says exactly when
  the scan is right.
- `mmc_set_user_wp` returns the result of its final re-read, so a lock that was refused because permanent
  protection is disabled, or whose commands failed in between, still reports success (`LockThenQuery`,
  `OtpLock`).
- A sysfs reset with a setting other than 140060 could leave the second-setting latch set while charging is
  allowed (`ResetNotification`); the sysfs layer never sends it.
- A protection setting whose clamped low level is not below its high level has a sample on which repeated
  calls toggle the latch (`WindowSettles`).
- Coming from the coldest zone, JEITA can resume charging in a colder band and still forbid it in a warmer
  one (`ColdZoneExitMonotone`, with the exact thresholds).
- A bypass setting of 2^24 or more is stored without its upper part but cached in full (`StoreThenLoad`).
- The gate turns the chip on only when its own permission changes: when a plug-in, a new supply type or a reset
  lifts a stop while the chip is off, the passes that permit charging leave it off (`LiftedWhileOff`).
- Every charge voltage request reads back exactly when the maximum is from 3.856 V to below 4.656 V, or lower
  still with a wrapped code in the table (`ChargeVoltageReadsBack`); higher requests never read back lower
  exactly when it is below 4.88 V (`ChargeVoltageMonotone`).
- A boost voltage outside the table is refused only where `char` is signed (`SetBoostVoltageLimit`).

## Model

| member | source | states |
|---|---|---|
| `FlatImage.LastWriteWins` | virtual-battery/参考版本code/bio.c:110-187 | after any run of requests on the flat image each byte holds what the last request covering it put there, else its first value |
| `FlatImage.ApplyAt` | virtual-battery/参考版本code/bio.c:276-365 | a request reaches exactly the bytes it asks for that lie inside the device, and leaves there its data or zeros |
| `FlatImage.SpliceWindow` | virtual-battery/参考版本code/bio.c:122-144 | read, modify and write back of one block is a splice of the image |
| `BlockDevice.Bdev.constructor` | virtual-battery/参考版本code/bio.c:378-398 | a device starts valid, its size is blocks times block size, and its image is explained by an empty history |
| `BlockDevice.Bdev.ReadBlock` | virtual-battery/参考版本code/bio.c:295-310 | past the end nothing or the clamped count is moved; otherwise one hook call moves exactly those bytes or fails without effect |
| `BlockDevice.Bdev.WriteBlock` | virtual-battery/参考版本code/bio.c:331-346 | past the end nothing or the clamped count is moved; otherwise one hook call splices exactly those bytes or fails without effect |
| `BlockDevice.Bdev.WriteFragment` | virtual-battery/参考版本code/bio.c:122-144 | overwriting part of a block changes those bytes of the image only; on failure nothing |
| `BlockDevice.Bdev.DefaultRead` | virtual-battery/参考版本code/bio.c:41-108 | success fills the buffer with exactly the requested slice; a failing call leaves the prefix fetched before it; all requests are inside the device |
| `BlockDevice.Bdev.DefaultWrite` | virtual-battery/参考版本code/bio.c:110-187 | success splices exactly the data; if hook call n fails its error is returned and the image is the old one with the prefix landed before call n; all requests are inside the device |
| `BlockDevice.Bdev.Read` | virtual-battery/参考版本code/bio.c:276-293 | range errors; otherwise 0 past the end and else exactly min(len, size - offset) bytes, byte by byte, unless a hook call failed |
| `BlockDevice.Bdev.Write` | virtual-battery/参考版本code/bio.c:312-329 | range errors; otherwise 0 past the end and else exactly min(len, size - offset) bytes, unless a hook call failed; a driver's own hook is called once and decides; which byte of the image ends up where |
| `BlockDevice.Bdev.DefaultErase` | virtual-battery/参考版本code/bio.c:189-214 | for every hook outcome the zeroed prefix, the hook calls made and the result are those of `EraseRun`; it enters the history as one erase of that prefix |
| `BlockDevice.Bdev.Erase` | virtual-battery/参考版本code/bio.c:348-365 | min(len, size - offset) bytes; with the deblocking write complete, zeroing exactly the range and returning its length, if and only if no hook call failed; otherwise the stopping position, after a failed or short call; the number tells which where `Tells` says so |
| `BlockDevice.Bdev.DeviceIsHistory` | virtual-battery/参考版本code/bio.c:110-214 | each byte of the device is what the last recorded write or erase covering it put there |
| `BlockDevice.FewCalls` | virtual-battery/参考版本code/bio.c:110-187 | a request takes at most five hook calls, and one if it is made of whole blocks |
| `BlockDevice.LandsInBlocks` | virtual-battery/参考版本code/bio.c:41-187 | what has landed or been fetched when a call fails ends at a block boundary |
| `BlockDevice.EraseResultTellsCompletion` | virtual-battery/参考版本code/bio.c:197-213 | for each kind of write hook the returned number tells a complete erase from an early stop under all hook behaviours if and only if the offset is zero, or above the length, or (deblocking) not a multiple of 4096 below it |
| `BlockDevice.StopsHaveCause` | virtual-battery/参考版本code/bio.c:197-211 | an erase stops early only after a failed or short call, with the deblocking write only at multiples of 4096 |
| `BlockDevice.DeblockStops` | virtual-battery/参考版本code/bio.c:197-211 | every such multiple below the length is reached by a device whose hook fails there |
| `BlockDevice.OwnStops` | virtual-battery/参考版本code/bio.c:197-211 | with a driver's own write hook every place below the length is reached |
| `BlockDevice.AmbiguousErase` | virtual-battery/参考版本code/bio.c:189-214 | a run on a device of 512-byte blocks that returns the length with the last block not erased |
| `BlockRegistry.Registry.AddRef` | virtual-battery/参考版本code/bio.c:226-229 | adds one reference |
| `BlockRegistry.Registry.DropRef` | virtual-battery/参考版本code/bio.c:231-247 | drops one reference; the last one runs the close hook, if any, and then frees |
| `BlockRegistry.Registry.OpenDevice` | virtual-battery/参考版本code/bio.c:249-267 | returns and references the first listed device of the name, or nothing |
| `BlockRegistry.Registry.CloseDevice` | virtual-battery/参考版本code/bio.c:269-274 | drops one reference |
| `BlockRegistry.Registry.RegisterDevice` | virtual-battery/参考版本code/bio.c:400-411 | references the device and puts it at the head of the list |
| `BlockRegistry.Registry.UnregisterDevice` | virtual-battery/参考版本code/bio.c:413-425 | takes the device off the list and drops the list's reference |
| `BlockRegistry.ReferencesConserved` | virtual-battery/参考版本code/bio.c:226-425 | in every well-formed run a live device's count is its outstanding opens plus one if listed, listed devices are live and ordered by registration, and frees match set-ups |
| `BlockRegistry.FreedWhenUnused` | virtual-battery/参考版本code/bio.c:231-247 | a close or unregister frees the device exactly when it leaves it neither open nor listed, after its close hook, once |
| `BlockRegistry.IdentityKept` | virtual-battery/参考版本code/bio.c:378-398 | over any run a live device has the name and close hook of its last set-up |
| `BlockRegistry.QuietEvents` | virtual-battery/参考版本code/bio.c:226-247 | only a close or an unregister runs a hook or frees anything |
| `BlockRegistry.OpensNewest` | virtual-battery/参考版本code/bio.c:249-267 | opening a name finds a listed device of that name whenever there is one, and of several the most recently registered |
| `WriteProtectScan.ReportedIs` | virtual-battery/参考版本code/mmc_core.c:2571-2648 | the scan reports a type exactly when all it remembers shows that type |
| `WriteProtectScan.UniformIsAllGroups` | virtual-battery/参考版本code/mmc_core.c:2575-2635 | whole batches, whole bytes of the remainder and the last one to three groups together cover every group of the range once |
| `WriteProtectScan.BitsOfGroups` | virtual-battery/参考版本code/mmc_core.c:2504-2551 | a status byte holds two bits a group, the first group in the lowest |
| `WriteProtectScan.SentinelPlace` | virtual-battery/参考版本code/mmc_core.c:2575-2608 | which groups the first scanned byte covers, for long and short ranges |
| `WriteProtectScan.ScanExact` | virtual-battery/参考版本code/mmc_core.c:2553-2654 | for a non-empty range not starting on 0x01 the scan reports type T if and only if every group has type T |
| `WriteProtectScan.ScanRight` | virtual-battery/参考版本code/mmc_core.c:2584-2608 | the scan is right for every type if and only if it does not start on 0x01 followed by one uniform type |
| `WriteProtectScan.SentinelMisleads` | virtual-battery/参考版本code/mmc_core.c:2561-2608 | a concrete range with one protected group that is reported unprotected |
| `WriteProtectCard.Card.SendWriteProtType` | virtual-battery/参考版本code/mmc_core.c:2504-2551 | the eight status bytes describe 32 groups, the first groups in the last byte |
| `WriteProtectCard.Card.CheckBatches` | virtual-battery/参考版本code/mmc_core.c:2575-2593 | the batch loop agrees with the chain over the scanned bytes of all whole commands |
| `WriteProtectCard.Card.CheckRest` | virtual-battery/参考版本code/mmc_core.c:2594-2648 | the remainder loop continues that chain and adds the last partial byte |
| `WriteProtectCard.Card.CheckWriteProtTypeByGroups` | virtual-battery/参考版本code/mmc_core.c:2553-2654 | alignment error, command errors, and the reported type of exactly the groups of the range |
| `WriteProtectCard.Card.SetWriteProtByGroups` | virtual-battery/参考版本code/mmc_core.c:2656-2681 | a prefix of the range is raised to the level the enable bits select; all of it on success |
| `WriteProtectCard.Card.ClrWriteProtByGroups` | virtual-battery/参考版本code/mmc_core.c:2683-2708 | a prefix of the range loses temporary protection; all of it on success |
| `WriteProtectCard.Card.ReadExtCsd` | virtual-battery/参考版本code/mmc_core.c:1447-1503 | refreshes the cached protection byte, except on version 3 cards |
| `WriteProtectCard.Card.ClearEnables` | virtual-battery/参考版本code/mmc_core.c:2731-2750 | both enable bits are cleared on success |
| `WriteProtectCard.Card.ProtectPermanent` | virtual-battery/参考版本code/mmc_core.c:2781-2810 | permanent level in the customer build, temporary in the default one, nothing if disabled |
| `WriteProtectCard.RequestedAt` | virtual-battery/参考版本code/mmc_core.c:2752-2827 | group by group, what each type of request makes of each level of protection |
| `WriteProtectCard.RequestIsReported` | virtual-battery/参考版本code/mmc_core.c:2553-2834 | an unprotected range is reported as the type requested for it, in both builds |
| `WriteProtectCard.Card.SetUserWp` | virtual-battery/参考版本code/mmc_core.c:2710-2834 | the result is that of the final re-read, or failure if the first read failed; only groups of the range change; when all commands succeed the groups are exactly those requested and the enable bits end clear |
| `WriteProtectCard.Card.SetWriteProtect` | virtual-battery/参考版本code/mmc_core.c:2895-2929 | alignment, capacity and partition errors change nothing; otherwise as the user-area request |
| `WriteProtectCard.Card.OtpStart` | virtual-battery/参考版本code/mmc_core.c:2993-3008 | the next group boundary |
| `WriteProtectCard.Card.CoveredRange` | virtual-battery/参考版本code/mmc_core.c:3010-3039 | the groups covered start at the first boundary in or after the range and are as many as its length takes up |
| `WriteProtectCard.Card.CoveredBlocks` | virtual-battery/参考版本code/mmc_core.c:3010-3039 | they are exactly the groups in which a block of the range lies |
| `WriteProtectCard.Card.OtpLock` | virtual-battery/参考版本code/mmc_core.c:3010-3043 | when all commands succeed every block from the rounded-up start on, for blkcnt blocks, lies in a group at the lock's level or above, and no group without such a block changes; the result is that of the last read, whatever failed between |
| `WriteProtectCard.Card.OtpQuery` | virtual-battery/参考版本code/mmc_core.c:3045-3095 | reports what the scan of the same groups means in the build at hand: LOCKED and UNLOCKED exactly when all blocks of the range are, unless the scan starts on its sentinel |
| `WriteProtectCard.LockedIsReported` | virtual-battery/参考版本code/mmc_core.c:3010-3095 | after a lock the query answers LOCKED if and only if no group already had stronger protection than the lock applies, in both builds |
| `WriteProtectCard.Card.LockThenQuery` | virtual-battery/参考版本code/mmc_core.c:3010-3095 | the same for the two calls in a row on the card, and whatever fails only the range changes and a successful query tells the scan of it; with permanent protection disabled the lock reports success, protects nothing, and the query answers LOCKED if and only if the scan of the old groups shows the build's type |
| `ChunkedRead.Host.DevBread` | virtual-battery/参考版本code/mmc_core.c:3098-3159 | at most four transfers; the result is that of the last, all before it failed; success fills exactly the chunk |
| `ChunkedRead.Host.BlockRead` | virtual-battery/参考版本code/mmc_core.c:3229-3286 | a first block past the end is refused without effect; at most 4*ceil(blkcnt/maxblks) transfers; success holds exactly the requested blocks for both addressings; on error all earlier chunks are complete, later bytes untouched, and the error is that of the first chunk with four failures |
| `BitField.FieldIsSlice` | virtual-battery/参考版本code/mmc_core.c:68-79 | the extracted field is floor(R / 2^start) mod 2^size of the 128-bit register, whatever word precedes it |
| `BitField.FieldInWord` | virtual-battery/参考版本code/mmc_core.c:68-79 | a field inside one word is that slice of it, the first word holding the highest bits |
| `LittleEndian.JoinDigits` | virtual-battery/参考版本code/mmc_core.c:883-893 | shifting and or-ing the bytes written by the setters gives the number back |
| `ExtCsd.Card.SetExtCsd` | virtual-battery/参考版本code/mmc_core.c:1959-1979 | success means the card holds the byte and the decoded fields are current; it succeeds when the commands do, the card takes the byte and the address is writable |
| `ExtCsd.Card.DecodeExtCsd` | virtual-battery/参考版本code/mmc_core.c:883-913 | sizes and start address as decoded from the raw bytes |
| `ExtCsd.SizeDecodes` | virtual-battery/参考版本code/mmc_core.c:883-913 | a decoded size is the three-byte number times the two group sizes times 512, in 32 bits |
| `ExtCsd.StartDecodes` | virtual-battery/参考版本code/mmc_core.c:883-893 | the start address is the four-byte number |
| `ExtCsd.SizeRoundTrip` | virtual-battery/参考版本code/mmc_core.c:2203-2233 | the bytes written for a size decode to the largest whole number of groups not above it |
| `ExtCsd.Card.SetGpSize` | virtual-battery/参考版本code/mmc_core.c:2203-2233 | on success, which follows from working commands on a supported card, the decoded partition size is that number, and no other partition, size or byte changes |
| `ExtCsd.Card.SetEnhSize` | virtual-battery/参考版本code/mmc_core.c:2235-2266 | the same for the enhanced area, which needs the erase-group definition |
| `ExtCsd.Card.SetEnhStartAddr` | virtual-battery/参考版本code/mmc_core.c:2268-2299 | on success, which follows likewise, the start decodes to the request, divided by 512 on high-capacity cards; nothing else changes |
| `SmartCharging.Charger.ApplyBypass` | virtual-battery/kernel/kernel_device_modules-6.6/drivers/power/supply/mtk_charger.c:2101-2135 | the bypass block moves the phase by its two levels and overrides suspend and stop accordingly |
| `SmartCharging.Charger.DecodeProtection` | virtual-battery/kernel/kernel_device_modules-6.6/drivers/power/supply/mtk_charger.c:2138-2152 | a setting decodes to its clamped levels, with division truncated toward zero |
| `SmartCharging.SettingLevels` | virtual-battery/kernel/kernel_device_modules-6.6/drivers/power/supply/mtk_charger.c:2138-2152 | a packed setting stands for its levels, at least 40, 60 and 80, and when it is on |
| `SmartCharging.Charger.KeepWindow` | virtual-battery/kernel/kernel_device_modules-6.6/drivers/power/supply/mtk_charger.c:2165-2197 | the window branch; the chip is told of every change of the latch and of nothing else |
| `SmartCharging.Charger.KeepCap` | virtual-battery/kernel/kernel_device_modules-6.6/drivers/power/supply/mtk_charger.c:2198-2228 | the second-setting branch, likewise |
| `SmartCharging.Charger.SmartCharging` | virtual-battery/kernel/kernel_device_modules-6.6/drivers/power/supply/mtk_charger.c:2080-2250 | one call follows the regime in force; commands and result agree with the latch it leaves |
| `SmartCharging.AnswersTell` | virtual-battery/kernel/kernel_device_modules-6.6/drivers/power/supply/mtk_charger.c:2153-2243 | a stop turns the chip off and answers Disable, its end turns it on and answers Reduce |
| `SmartCharging.Charger.PlugIn` | virtual-battery/kernel/kernel_device_modules-6.6/drivers/power/supply/mtk_charger.c:3447-3475 | clears three latches, then one call, whose commands agree with the latches it starts from and leaves |
| `SmartCharging.Charger.SysfsNotifyEvent` | virtual-battery/kernel/kernel_device_modules-6.6/drivers/power/supply/mtk_charger.c:3809-3838 | offline nothing; otherwise the latches its code names are cleared, then one call with the commands it needs |
| `SmartCharging.Charger.ExternalPowerChanged` | virtual-battery/kernel/kernel_device_modules-6.6/drivers/power/supply/mtk_charger.c:4441-4507 | a new non-zero supply type clears three latches; the type is remembered |
| `SmartChargingRuns.NextKeepsConsistent` | virtual-battery/kernel/kernel_device_modules-6.6/drivers/power/supply/mtk_charger.c:2153-2243 | one call keeps the latch invariant, for all inputs |
| `SmartChargingRuns.ResetNotification` | virtual-battery/kernel/kernel_device_modules-6.6/drivers/power/supply/mtk_charger.c:3824-3835 | after a reset notification the invariant holds exactly when the second-setting latch was clear, or the call suspends or finds the window on |
| `SmartChargingRuns.HandleKeepsConsistent` | virtual-battery/kernel/kernel_device_modules-6.6/drivers/power/supply/mtk_charger.c:3472-3475 | plug-in, power change, sysfs notification and periodic call keep the latch invariant |
| `SmartChargingRuns.RunKeepsConsistent` | virtual-battery/kernel/kernel_device_modules-6.6/drivers/power/supply/mtk_charger.c:2153-2243 | over all runs: chgen implies disable_charger; chgen_eu implies disable_charger and not protection_dischg; never both |
| `SmartChargingRuns.PhaseFollowsLatestSample` | virtual-battery/kernel/kernel_device_modules-6.6/drivers/power/supply/mtk_charger.c:2103-2113 | over any run of events the phase is on exactly when the latest sample outside its bypass interval was below it |
| `SmartChargingRuns.BypassSteersCharging` | virtual-battery/kernel/kernel_device_modules-6.6/drivers/power/supply/mtk_charger.c:2115-2243 | with both protections off a bypass call leaves disable_charger the negation of the phase |
| `SmartChargingRuns.BypassEndToEnd` | virtual-battery/kernel/kernel_device_modules-6.6/drivers/power/supply/mtk_charger.c:2101-2243 | both together from power-on through any run of events |
| `SmartChargingRuns.BypassOverrides` | virtual-battery/kernel/kernel_device_modules-6.6/drivers/power/supply/mtk_charger.c:2101-2135 | a bypass call is a plain call whose suspend and stop inputs the phase sets |
| `SmartChargingRuns.SuspendCall` | virtual-battery/kernel/kernel_device_modules-6.6/drivers/power/supply/mtk_charger.c:2153-2164 | an input suspend stops charging, whatever else is set |
| `SmartChargingRuns.StopCall` | virtual-battery/kernel/kernel_device_modules-6.6/drivers/power/supply/mtk_charger.c:2198-2209 | a stop request stops charging unless a window is on |
| `SmartChargingRuns.ReleaseCall` | virtual-battery/kernel/kernel_device_modules-6.6/drivers/power/supply/mtk_charger.c:2229-2243 | with nothing asking for a stop charging is allowed |
| `SmartChargingRuns.WindowLatches` | virtual-battery/kernel/kernel_device_modules-6.6/drivers/power/supply/mtk_charger.c:2165-2197 | every latch after a window call |
| `SmartChargingRuns.CapLatches` | virtual-battery/kernel/kernel_device_modules-6.6/drivers/power/supply/mtk_charger.c:2198-2228 | every latch after a second-setting call |
| `SmartChargingRuns.SupplyRemembered` | virtual-battery/kernel/kernel_device_modules-6.6/drivers/power/supply/mtk_charger.c:4441-4507 | the supply type remembered is that of the last change |
| `SmartChargingRuns.PolicyRun` | virtual-battery/kernel/kernel_device_modules-6.6/drivers/power/supply/mtk_charger.c:2080-2250 | over any run of events outside bypass mode, with settings that may change, charging is forbidden exactly when the latest event that moved the latch was a call asking for a stop |
| `SmartChargingRuns.SuspendRun` | virtual-battery/kernel/kernel_device_modules-6.6/drivers/power/supply/mtk_charger.c:2153-2164 | over any run of suspended calls a stop is in force from the first call on, until a new supply type |
| `SmartChargingRuns.WindowCall` | virtual-battery/kernel/kernel_device_modules-6.6/drivers/power/supply/mtk_charger.c:2165-2197 | forced on at or above high, off at or below low, kept in between |
| `SmartChargingRuns.WindowRun` | virtual-battery/kernel/kernel_device_modules-6.6/drivers/power/supply/mtk_charger.c:2138-2197 | over any run of events whose calls it governs, charging is forbidden exactly when the latest event that moved the latch was a sample at or above the high level, the others being samples at or below the low one, plug-ins, new supply types and resets |
| `SmartChargingRuns.WindowSettles` | virtual-battery/kernel/kernel_device_modules-6.6/drivers/power/supply/mtk_charger.c:2138-2187 | repeating a sample changes nothing exactly when the clamped low level is below the high one |
| `SmartChargingRuns.CapCall` | virtual-battery/kernel/kernel_device_modules-6.6/drivers/power/supply/mtk_charger.c:2198-2228 | the second setting stops at its level (unless 100), resumes at 95 percent, and lifts a stop left by a window |
| `SmartChargingRuns.CapRun` | virtual-battery/kernel/kernel_device_modules-6.6/drivers/power/supply/mtk_charger.c:2198-2228 | likewise for the second setting, its level and 95 percent of it |
| `Jeita.SwJeita.Step` | virtual-battery/kernel/kernel_device_modules-6.6/drivers/power/supply/mtk_charger.c:960-1088 | charging is forbidden exactly in the two outer zones; limits follow the zone; the final fallback is unreachable |
| `Jeita.SettlesAtOnce` | virtual-battery/kernel/kernel_device_modules-6.6/drivers/power/supply/mtk_charger.c:968-1050 | one sample leads into one of the six zones from any number, and repeating it changes nothing |
| `Jeita.ZoneOf` | virtual-battery/kernel/kernel_device_modules-6.6/drivers/power/supply/mtk_charger.c:968-1050 | for thresholds in order, exactly which temperatures lead into each of the six zones, with the hysteresis of each |
| `Jeita.HotZoneExit` | virtual-battery/kernel/kernel_device_modules-6.6/drivers/power/supply/mtk_charger.c:969-992 | the hot zone is left only below its lower threshold, exactly for the thresholds named |
| `Jeita.HotZoneRun` | virtual-battery/kernel/kernel_device_modules-6.6/drivers/power/supply/mtk_charger.c:969-992 | over any run the hot zone holds exactly when the latest sample outside the hysteresis band was hot |
| `Jeita.ColdZoneExitMonotone` | virtual-battery/kernel/kernel_device_modules-6.6/drivers/power/supply/mtk_charger.c:1006-1050 | exactly when leaving the cold zone is monotone in temperature |
| `ChargeGate.Gate.CheckThermal` | virtual-battery/kernel/kernel_device_modules-6.6/drivers/power/supply/mtk_charger.c:3065-3105 | charging is refused exactly when the sample is cold or hot with hysteresis |
| `ChargeGate.Gate.CheckStatus` | virtual-battery/kernel/kernel_device_modules-6.6/drivers/power/supply/mtk_charger.c:3037-3151 | with a charger present can_charging holds exactly when the temperature stage, bus voltage, discharge command, safety timer, both over-voltage flags and the policy all permit, each stated on its sample and thresholds; otherwise the chip is off; while charging stays permitted the chip is moved by the policy only |
| `ChargeGate.Gate.Notify` | virtual-battery/kernel/kernel_device_modules-6.6/drivers/power/supply/mtk_charger.c:3447-3475 | an event that goes to the policy directly moves the latches as the policy handles it and the chip as commanded; a plug-in permits charging until the next pass |
| `ChargeGate.ChipFollowsGate` | virtual-battery/kernel/kernel_device_modules-6.6/drivers/power/supply/mtk_charger.c:3037-3151 | over any run of passes and policy events in which no event lifts a stop while the chip is off, the chip is on after a pass exactly when charging is permitted |
| `ChargeGate.LiftedWhileOff` | virtual-battery/kernel/kernel_device_modules-6.6/drivers/power/supply/mtk_charger.c:3143-3150 | that condition is exact: after such an event the next pass that permits charging leaves the chip off |
| `ChargeGate.StopMeansOff` | virtual-battery/kernel/kernel_device_modules-6.6/drivers/power/supply/mtk_charger.c:3037-3151 | over any run of passes and policy events the chip is off while disable_charger is set |
| `ChargeGate.BypassGate` | virtual-battery/kernel/kernel_device_modules-6.6/drivers/power/supply/mtk_charger.c:3108-3150 | after any run of passes and policy events, a pass that nothing else forbids charges the battery exactly when the latest level outside the bypass interval, of all that reached the policy, was below it |
| `BypassNvm.ParseInverts` | virtual-battery/kernel/kernel_device_modules-6.6/drivers/power/supply/mm8xxx_battery_i2c_原始版本.c:403-411 | parsing inverts enable*100000 + low*1000 + high |
| `BypassNvm.ParseDigits` | virtual-battery/kernel/kernel_device_modules-6.6/drivers/power/supply/mm8xxx_battery_i2c_原始版本.c:403-411 | the fields of any non-negative setting |
| `BypassNvm.GetPut` | virtual-battery/kernel/kernel_device_modules-6.6/drivers/power/supply/mm8xxx_battery_i2c_原始版本.c:451-504 | a field reads back as the number written modulo 2^24 |
| `BypassNvm.RecordsIndependent` | virtual-battery/kernel/kernel_device_modules-6.6/drivers/power/supply/mm8xxx_battery_i2c_原始版本.c:187-536 | after any run of writes each record's field holds the last number written to it and no other byte has changed |
| `BypassNvm.Gauge.ReadField` | virtual-battery/kernel/kernel_device_modules-6.6/drivers/power/supply/mm8xxx_battery_i2c_原始版本.c:418-465 | returns the three bytes of the record's field and leaves the chip sealed and the records alone; fails only if a transfer does |
| `BypassNvm.Gauge.InvertedSum` | virtual-battery/kernel/kernel_device_modules-6.6/drivers/power/supply/mm8xxx_battery_i2c_原始版本.c:514-519 | the inverted byte sum of the 32 bytes |
| `BypassNvm.ChecksumCompletes` | virtual-battery/kernel/kernel_device_modules-6.6/drivers/power/supply/mm8xxx_battery_i2c_原始版本.c:514-523 | block bytes and checksum come to 0xFF modulo 256 |
| `BypassNvm.ChecksumFollows` | virtual-battery/kernel/kernel_device_modules-6.6/drivers/power/supply/mm8xxx_battery_i2c_原始版本.c:514-523 | the checksum of an erased block is 0xFF, and it follows every change of a byte |
| `BypassNvm.OpeningSpells` | virtual-battery/kernel/kernel_device_modules-6.6/drivers/power/supply/mm8xxx_battery_i2c_原始版本.c:275-320 | the first four bytes sent spell the unseal code, then user NVM and the record are selected |
| `BypassNvm.Gauge.WriteBypassData` | virtual-battery/kernel/kernel_device_modules-6.6/drivers/power/supply/mm8xxx_battery_i2c_原始版本.c:468-536 | success, which follows from working transfers, updates only the field and seals; the bus then saw the opening, the whole block, a byte that brings it to 0xFF modulo 256, and the seal; failure leaves the records as before or as updated |
| `BypassNvm.Gauge.WriteDate` | virtual-battery/kernel/kernel_device_modules-6.6/drivers/power/supply/mm8xxx_battery_i2c_原始版本.c:275-399 | the same for a date record, of which only three bytes are sent |
| `BypassNvm.Gauge.WriteBypassSetting` | virtual-battery/kernel/kernel_device_modules-6.6/drivers/power/supply/mm8xxx_battery_i2c_原始版本.c:559-575 | caches the parsed triple on success only; fails only if a transfer does |
| `BypassNvm.Gauge.ReadBypassSetting` | virtual-battery/kernel/kernel_device_modules-6.6/drivers/power/supply/mm8xxx_battery_i2c_原始版本.c:539-555 | caches the parsed triple of what the chip holds; fails only if a transfer does |
| `BypassNvm.Gauge.StoreThenLoad` | virtual-battery/kernel/kernel_device_modules-6.6/drivers/power/supply/mm8xxx_battery_i2c_原始版本.c:539-575 | with working transfers a stored setting reads back as itself, with its triple, if and only if it is below 2^24 |
| `ChargerRegs.StoreLoad` | virtual-battery/kernel/kernel_device_modules-6.6/drivers/power/supply/sgm415xx.c:188-215 | a masked write sets its field and leaves every other field |
| `ChargerRegs.FieldsIndependent` | virtual-battery/kernel/kernel_device_modules-6.6/drivers/power/supply/sgm415xx.c:188-215 | after any run of masked writes each field holds the last value written to it |
| `ChargerRegs.SettingsReadBack` | virtual-battery/kernel/kernel_device_modules-6.6/drivers/power/supply/sgm415xx.c:188-2181 | after any run of requests through the twelve setters, refused ones included, every setting reads back as the last request made to it rounds, and untouched ones as at first |
| `ChargerRegs.RequestRounds` | virtual-battery/kernel/kernel_device_modules-6.6/drivers/power/supply/sgm415xx.c:223-640 | each setting read back from the bits written for a request: the greatest input current not above it, 60 mA and 32 mV steps of the clamped request, switches and tables as given |
| `ChargerRegs.StoredBits` | virtual-battery/kernel/kernel_device_modules-6.6/drivers/power/supply/sgm415xx.c:188-215 | a masked write keeps the other bits of its register and all other registers |
| `ChargerRegs.SwitchBits` | virtual-battery/kernel/kernel_device_modules-6.6/drivers/power/supply/sgm415xx.c:741-951 | the register bits of each switch |
| `ChargerRegs.TableBits` | virtual-battery/kernel/kernel_device_modules-6.6/drivers/power/supply/sgm415xx.c:223-2181 | the register bits of each table entry |
| `ChargerRegs.LevelBits` | virtual-battery/kernel/kernel_device_modules-6.6/drivers/power/supply/sgm415xx.c:278-627 | the register bits of each current and voltage |
| `ChargerRegs.RequestsAreWrites` | virtual-battery/kernel/kernel_device_modules-6.6/drivers/power/supply/sgm415xx.c:188-2181 | a run of requests is a run of masked writes, the last to a field coming from the last request for it |
| `ChargerRegs.Sgm.UpdateBits` | virtual-battery/kernel/kernel_device_modules-6.6/drivers/power/supply/sgm415xx.c:188-215 | one bit-masked read-modify-write; succeeds exactly when both transfers do, else no effect |
| `ChargerRegs.Sgm.SetInputCurrLim` | virtual-battery/kernel/kernel_device_modules-6.6/drivers/power/supply/sgm415xx.c:602-627 | range error, or the request's code in its field exactly when both transfers succeed |
| `ChargerRegs.Sgm.GetInputCurrLim` | virtual-battery/kernel/kernel_device_modules-6.6/drivers/power/supply/sgm415xx.c:629-644 | the current that the field stands for, exactly when the transfer succeeds |
| `ChargerRegs.InputCurrentRoundTrip` | virtual-battery/kernel/kernel_device_modules-6.6/drivers/power/supply/sgm415xx.c:608-641 | reads back as the greatest representable value not above the request |
| `ChargerRegs.Sgm.SetHizEn` | virtual-battery/kernel/kernel_device_modules-6.6/drivers/power/supply/sgm415xx.c:741-751 | the request takes its bit, and nothing else, exactly when both transfers succeed |
| `ChargerRegs.Sgm.ChargingSwitch` | virtual-battery/kernel/kernel_device_modules-6.6/drivers/power/supply/sgm415xx.c:753-797 | the request takes its bit, and nothing else, exactly when both transfers succeed |
| `ChargerRegs.Sgm.EnableOtg` | virtual-battery/kernel/kernel_device_modules-6.6/drivers/power/supply/sgm415xx.c:2025-2046 | the request takes its bit, and nothing else, exactly when both transfers succeed |
| `ChargerRegs.Sgm.SetIchrgCurr` | virtual-battery/kernel/kernel_device_modules-6.6/drivers/power/supply/sgm415xx.c:376-420 | the clamped request in 60 mA steps takes its field exactly when both transfers succeed |
| `ChargerRegs.Sgm.GetIchgCurr` | virtual-battery/kernel/kernel_device_modules-6.6/drivers/power/supply/sgm415xx.c:341-374 | the current that the field stands for, exactly when the transfer succeeds |
| `ChargerRegs.ChargeCurrentRoundTrip` | virtual-battery/kernel/kernel_device_modules-6.6/drivers/power/supply/sgm415xx.c:382-408 | reads back as the clamped request rounded down to 60 mA exactly when it fits six bits |
| `ChargerRegs.Sgm.SetTermCurr` | virtual-battery/kernel/kernel_device_modules-6.6/drivers/power/supply/sgm415xx.c:278-298 | the clamped request in 60 mA steps takes its field exactly when both transfers succeed |
| `ChargerRegs.Sgm.SetPrechrgCurr` | virtual-battery/kernel/kernel_device_modules-6.6/drivers/power/supply/sgm415xx.c:320-339 | the clamped request in 60 mA steps takes its field exactly when both transfers succeed |
| `ChargerRegs.SmallCurrentRoundTrip` | virtual-battery/kernel/kernel_device_modules-6.6/drivers/power/supply/sgm415xx.c:278-339 | both read back as the clamped request rounded down to 60 mA |
| `ChargerRegs.Sgm.SetChrgVolt` | virtual-battery/kernel/kernel_device_modules-6.6/drivers/power/supply/sgm415xx.c:422-440 | the clamped request in 32 mV steps, in 32-bit arithmetic, takes its field exactly when both transfers succeed |
| `ChargerRegs.Sgm.GetChrgVolt` | virtual-battery/kernel/kernel_device_modules-6.6/drivers/power/supply/sgm415xx.c:442-460 | the voltage of the code, 4.352 V for code 15, and no result above code 24 |
| `ChargerRegs.ChargeVoltageRoundTrip` | virtual-battery/kernel/kernel_device_modules-6.6/drivers/power/supply/sgm415xx.c:428-457 | reads back within 32 mV of the clamped request exactly when that is from 3.856 V to below 4.656 V, for every maximum |
| `ChargerRegs.ChargeVoltageReadsBack` | virtual-battery/kernel/kernel_device_modules-6.6/drivers/power/supply/sgm415xx.c:428-457 | every request reads back exactly when the maximum is below 4.656 V and, if below 3.856 V, wraps to a code of the table |
| `ChargerRegs.ChargeVoltageMonotone` | virtual-battery/kernel/kernel_device_modules-6.6/drivers/power/supply/sgm415xx.c:428-457 | a higher request never reads back lower exactly when the maximum is below 4.88 V |
| `ChargerRegs.Sgm.SetWatchdogTimer` | virtual-battery/kernel/kernel_device_modules-6.6/drivers/power/supply/sgm415xx.c:223-241 | the request takes its two bits exactly when both transfers succeed |
| `ChargerRegs.Sgm.EnableSafetyTimer` | virtual-battery/kernel/kernel_device_modules-6.6/drivers/power/supply/sgm415xx.c:921-951 | the request takes its bit, and nothing else, exactly when both transfers succeed |
| `ChargerRegs.Sgm.SetBoostCurrentLimit` | virtual-battery/kernel/kernel_device_modules-6.6/drivers/power/supply/sgm415xx.c:2165-2181 | the two table values are written exactly when both transfers succeed; others are ignored |
| `ChargerRegs.Sgm.SetBoostVoltageLimit` | virtual-battery/kernel/kernel_device_modules-6.6/drivers/power/supply/sgm415xx.c:2141-2163 | table values are written exactly when both transfers succeed; others are refused where char is signed and set the largest entry where it is not |

## Left out

- BlockDevice.Bdev.DefaultRead: does not model `ssize_t` to `int` truncation of hook results or 32-bit block arithmetic; requests are taken to be far below 2^31 bytes.
- BlockDevice.Bdev.DefaultWrite: the same.
- BlockDevice.Bdev.Read: a driver's own byte-level read hook is not modelled; for writing it is.
- BlockDevice.Bdev.DefaultErase: allocation of its zero buffer does not fail.
- BlockRegistry.ReferencesConserved: misuse of the list, such as registering a listed device, is excluded by the well-formed runs.
- WriteProtectCard.Card.CheckWriteProtTypeByGroups: command addresses do not wrap at 32 bits.
- WriteProtectCard.Card.SendWriteProtType: the card is taken to be addressed by blocks; the code passes block numbers to byte-addressed cards as well, and what those then do is not modelled. The same holds for setting and clearing protection.
- WriteProtectCard.Card.OtpQuery: the type a query starts from is taken to differ from all protection types; the header with their numbers is not part of this model.
- WriteProtectCard.Card.SetWriteProtByGroups: on a group that is already protected the card is taken never to weaken protection; the card's documents are not part of this model.
- WriteProtectCard.Card.ClrWriteProtByGroups: the card is taken to lift temporary protection only.
- WriteProtectCard.Card.SetWriteProtect: the boot partitions' protection byte is not modelled, their request is one command with an arbitrary result; the kernel command line it is reported on is left out.
- ChunkedRead.Host.BlockRead: read tuning and command queueing are left out, and addresses do not wrap.
- ExtCsd.Card.DecodeExtCsd: decodes the size and start fields only.
- BitField.FieldIsSlice: size 32 at a word boundary, which no caller uses, is undefined in C and excluded.
- SmartCharging.Charger.SmartCharging: `do_algorithm` is taken to leave the latches alone, power path commands are logged but their state is not followed, and the dead code after the return is left out.
- ChargeGate.Gate.CheckStatus: the enable hook is taken to obey and the enabled query to be truthful; battery-monitor flags and notification codes are left out. The charging algorithm, which can enable the chip on its own, is not part of this model.
- BypassNvm.Gauge.ReadField: stands for both the bypass reader and the date reader at lines 187-269.
- BypassNvm.Gauge.WriteBypassData: sealing is claimed on success only, because the failure paths return before it. The chip is modelled as far as the driver relies on it: it opens after the two halves of its code in a row and stores a record only under a matching checksum; its flowchart document is not part of this model.
- ChargerRegs.SettingsReadBack: termination, precharge, boost, watchdog and OTG settings have no compiled getter; what their bits mean is taken from the driver's constants.
- ChargerRegs.FieldsIndependent: input voltage limit, D+/D- levels, recharge voltage, ship mode, self-clearing bits, and chips other than the SGM41543D are left out.
- The block write with its ready polling, whose termination depends on the card, and SD and UHS paths.
- The bus, display, notifier, device-tree and logging code, sleeps and locks: devices are abstract objects, and each call is one atomic step.
