# Verification of libmsr's batch, RAPL and power-monitor logic

libmsr reads and writes model-specific registers (MSRs) of Intel processors: it groups register accesses
into batches for a kernel driver, converts RAPL energy and power-limit registers to joules, watts and
seconds, and is used by the `powmon` programs, which monitor and cap the power of a node. This project
models the parts of it that carry state, bit layouts or index arithmetic, and proves what they guarantee.

| file | what it models |
|---|---|
| `Arithmetic.dfy` | products and quotients |
| `Words.dfy` | 64-bit words as bits, C's shifts and masks, `MASK_RANGE` and `MASK_VAL` |
| `RaplUnits.dfy` | the power code and the floating-style time-window code of `translate` |
| `RaplLimits.dfy` | limit structures, and the read-modify-write of two limits in one register |
| `RaplPowerUnit.dfy` | the unit registers, read in a batch and by coordinates |
| `RaplEnergy.dfy` | polling energy counters of 32 bits that wrap |
| `RaplBatch.dfy` | the size and the contents of the RAPL batch |
| `Topology.dfy` | the two CPU numberings, and the test that chooses between them |
| `BatchOps.dfy` | what a batch does: driver order, lazily switched flags, the fallback |
| `BatchTables.dfy` | the growable table of operation arrays that hands out pointers into them |
| `MsrBatch.dfy` | `do_batch_op` on the cells in place, and the loops that fill a batch |
| `FixedCounters.dfy` | the control registers of the fixed counters, changed through batch cells |
| `MsrInit.dfy` | the restartable loop of `init_msr` |
| `MemHandler.dfy` | the tracking allocator |
| `Highlander.dfy` | the single-monitor protocol over two named semaphores |
| `PowerCap.dfy` | the power-cap saw tooth, and what both sockets hold at every turn |
| `Sampling.dfy` | threads that poll and accumulate inside one mutex |
| `MsTimer.dfy` | the interval timer with its 32-bit product |

Registers are a map from (CPU, address) to a word; a register that was never written reads zero. Kernel
answers, clock readings, sampled counters and the addresses `malloc` returns are parameters. Arithmetic on
watts, joules and seconds is over exact reals. The RAPL layout is that of sections 14.9.1 and 14.9.3 of the
Intel 64 and IA-32 SDM, Vol. 3B, the fixed counters that of sections 18.2.2 and 18.2.3 (2013-2017
editions); the semaphores are those of POSIX.1-2017.

An object the C code updates in place is a class whose methods have the C code's branches; each method is
proved against a function on values (`BatchOps.Step`, `RaplEnergy.PollSocket`, `RaplLimits.PkgWord`,
`MsTimer.Turned`, `PowerCap.Held`, ...), and the theorems below are about those functions over every
input or every run.

## Where the code falls short of its intent

Each of these is stated with an exact condition, proved in both directions, and some with a concrete run as well.

- Energy: a poll accounts for the true energy, less one unit a counter revolution (the code adds
  `UINT_MAX`, not 2^32), exactly when less than one revolution went by. On a DRAM wrap the code adds
  `UINT_MAX` as joules: DRAM energy is right exactly when these are worth what the revolutions of the
  counter are, which with less than a revolution between polls means that it did not wrap.
- Time window: the decoded window of a request of at least one unit is within 7/8 and 1.127 of it exactly
  below 2^32 time units; the code's own bounds check is commented out.
- RAPL batch: the size function tests `PKG_ENERGY_STATUS` twice, so that the batch is large enough exactly
  when `DRAM_PERF_STATUS` implies `PKG_ENERGY_STATUS`. Every flag word of `setflags` does.
- Batch table: the guard of `create_batch_op` lets one operation too many through. A run stays inside its
  memory exactly when no batch receives more operations than its size.
- Batched access: an operation has sixteen bits for its CPU, so that the batch names the registers that
  access by coordinates does exactly when the CPU numbers fit them.
- Flags: a write batch goes out with all flags cleared exactly when no operation was appended after a
  write that no read followed. A stale batch stays stale over further writes; its appended operations are
  then read by the driver but written by the fallback. A program can tell the two apart exactly when one of
  these operations carries something other than what its register holds.
- Allocator: `libmsr_realloc(NULL, n)` keeps the record right exactly when one slot is free.
- Highlander: the comment says the leader waits until all foes have called wait. It samples the semaphore
  once. It can be gone while a foe of its K has not waited exactly when, at the sample, at most one foe is
  registered and some other process is registered with that K or may still come to be: it is on its way to
  post it, or has not opened the name yet. With more than one foe registered the leader never leaves. K is
  left without a leader, for ever, exactly when a foe opens it while the name is unlinked.
- Cap: the requested power stays at or below the cap exactly when the cap is above 30 W. `set_rapl_power`
  looks at no answer of the kernel: both sockets hold the same word exactly when the last requests they
  accepted have the same power code.
- Timer: a call leaves the timer on its grid exactly when the firing it is due to move to is less than 2^32
  ms from the start. The loop of a late call ends exactly while less than 2^32 ms less the largest power of
  two in the interval have gone by.

## Model

| member | source | states |
|---|---|---|
| Words.MaskValIsField | include/cpuid.h:54 | `MASK_VAL(x, m, n)` is the number that bits n to m of x write, for every 63 >= m >= n >= 0, and fits m - n + 1 bits |
| Words.MaskRangeIsMacro | include/cpuid.h:49 | the mask used here is the number the macro computes, ((1 << (m-n+1)) - 1) << n |
| Words.FieldOfNumber | include/cpuid.h:54 | a number stored in a field wide enough for it is what `MASK_VAL` returns |
| RaplUnits.WindowRoundTrip | src/msr_rapl.c:287-330 | encoding the decoded window of any seven-bit code returns that code, for every time unit |
| RaplUnits.WindowAccurateExactly | src/msr_rapl.c:301-330 | for a request of more than half a unit, the least C defines, the decoded window lies strictly between 7/8 and 1.127 of it if and only if the request is above 1/1.127 units, as every one of a unit or more is, and below 2^32 units; below 2^32 the code has seven bits |
| RaplUnits.WindowMonotone | src/msr_rapl.c:301-330 | a longer request below 2^32 units never decodes to a shorter window |
| RaplUnits.MultiplierBand | src/msr_rapl.c:313-324 | whichever of the four multipliers the thresholds 0.15, 0.45 and 0.7 choose, it is within 7/8 and 1.127 of the mantissa |
| RaplUnits.ThresholdsExactly | src/msr_rapl.c:311-324 | Z is at least 1, 2 or 3 exactly when the logarithm of the mantissa is above 0.15, 0.45 or 0.7, written as powers |
| RaplUnits.FloorLog2 | src/msr_rapl.c:308 | the whole part Y of the logarithm is the one power of two with 2^Y <= x < 2^(Y+1) |
| RaplUnits.WattsQuantised | src/msr_rapl.c:280-282 | the power code decodes to no more than the request and to less than one power unit below it |
| RaplUnits.WattsRoundTrip | src/msr_rapl.c:264-282 | encoding the power of any code returns that code |
| RaplUnits.UnitsOf | src/msr_rapl.c:1136-1147 | every unit register yields units the codecs can work with |
| RaplUnits.UnitsOfRegister | src/msr_rapl.c:1136-1147 | for every register: watts is one over 2 to the number in bits 3-0, joules 2 to that in bits 12-8, seconds 2 to that in bits 19-16 |
| RaplUnits.UnitsOfFields | src/msr_rapl.c:1136-1147 | for all exponents p < 16, e < 32, y < 16, a register holding them in those fields gives 1/2^p W, 2^e units a joule and 2^y units a second |
| RaplLimits.Rapl.CalcRaplFromBits | src/msr_rapl.c:350-383 | in place: watts and seconds become those of the fields at the offset, the window a RAPL window below bit 32 and a bare number above |
| RaplLimits.Rapl.CalcRaplBits | src/msr_rapl.c:396-452 | in place: the encoded fields are added to the bits; a power code over fifteen bits is an error that changes nothing |
| RaplLimits.Rapl.CalcLimit | src/msr_rapl.c:523-544 | given bits decide the values, zero bits are computed from the values |
| RaplLimits.Rapl.CalcPkgRaplLimit | src/msr_rapl.c:465-511 | succeeds exactly when both limits present can be processed; the upper one is not touched after an error in the lower |
| RaplLimits.Rapl.SetPkgRaplLimit | src/msr_rapl.c:741-809 | writes one word, made of the kept half and each limit with its two enable bits; on any error, a power code over fifteen bits in either limit included, no register changes; a failed read of the half to keep writes zeros there |
| RaplLimits.Rapl.GetPkgRaplLimit | src/msr_rapl.c:900-932 | each structure given ends up processed from the register as its own read found it: decoded when that is not zero, its bits computed from its old values when it is |
| RaplLimits.Rapl.SetDramRaplLimit | src/msr_rapl.c:811-846 | writes the limit's bits with the enable bit, and nothing on an error |
| RaplLimits.Rapl.GetDramRaplLimit | src/msr_rapl.c:934-959 | the same for the DRAM register and its one limit; without the register the structure is left alone |
| RaplLimits.Rapl.ReadMsr | src/msr_core.c:738-758 | reads the register of the socket's core 0, thread 0; a failed read leaves the value alone |
| RaplLimits.Rapl.WriteMsr | src/msr_core.c:719-736 | writes that register and no other, and none when the kernel refuses |
| RaplLimits.EncodedBits | src/msr_rapl.c:396-452 | encoded values occupy the fifteen power bits and seven window bits of their half and no other bit |
| RaplLimits.DecodedHalf | src/msr_rapl.c:350-383 | a word with those fields in place decodes to the quantised power and window, whatever its other bits |
| RaplLimits.PkgRoundTrip | src/msr_rapl.c:741-932 | setting both package limits from values that fit and reading the register back gives both quantised requests, whatever the register held before |
| RaplLimits.GetAfterSet | src/msr_rapl.c:741-932 | so set_pkg_rapl_limit followed by get_pkg_rapl_limit leaves the quantised requests in any two structures, whatever these held before |
| RaplLimits.LowerFrame | src/msr_rapl.c:773-794 | setting the lower limit alone keeps the upper 32 bits if and only if what the caller asks for adds nothing there: no given bit that is not in the register, no bit of the requested window's exponent |
| RaplLimits.UpperFrame | src/msr_rapl.c:764-794 | setting the upper limit alone keeps the lower 32 bits if and only if the given bits add nothing there; a limit given as values never does |
| RaplLimits.LowerLimitOnly | src/msr_rapl.c:741-809 | a lower limit given as values leaves the upper half bit for bit for every window below 2^32768 units, and reads back quantised below 2^32 |
| RaplLimits.UpperLimitOnly | src/msr_rapl.c:741-809 | an upper limit given as values always leaves the lower half bit for bit, and reads back quantised below 128 s |
| RaplLimits.DramRoundTrip | src/msr_rapl.c:811-959 | setting the DRAM limit and reading it back gives the quantised request |
| RaplLimits.PkgWordBits | src/msr_rapl.c:786-798 | all 64 bits of the word written for two limits that fit, whatever the register held: power code in bits 0-14 and 32-46, enabled (15, 47), clamping (16, 48), window in bits 17-23 and 49-55, all other bits clear |
| RaplLimits.LowerWordBits | src/msr_rapl.c:773-798 | for a lower limit alone: its half so, the other half the register's |
| RaplLimits.UpperWordBits | src/msr_rapl.c:764-798 | for an upper limit alone: its half so, the other half the register's |
| RaplLimits.GivenWordBits | src/msr_rapl.c:786-798 | for limits given as bits: the enable and clamping bits are set, any other bit if either limit gives it |
| RaplLimits.GivenLowerBits | src/msr_rapl.c:773-798 | for a lower limit given as bits, alone: its bits, its enable and clamping bit, and the register's upper half |
| RaplLimits.GivenUpperBits | src/msr_rapl.c:764-798 | for an upper limit given as bits, alone: its bits, its enable and clamping bit, and the register's lower half |
| RaplLimits.DramWordBits | src/msr_rapl.c:826-842 | all 64 bits of the DRAM word: power code, enabled and not clamping, window, all other bits clear |
| RaplLimits.ErrorExactly | src/msr_rapl.c:429-435 | a limit given as values is an error if and only if its power code has more than fifteen bits |
| RaplLimits.SetThenGet | src/msr_rapl.c:741-932 | set then get on a socket: that socket's register and no other changes, both limits are laid out in it, and the structures read hold the quantised requests |
| RaplLimits.SetLowerAlone | src/msr_rapl.c:741-809 | a lower limit alone on a socket: its half of that socket's register is laid out, the other half and every other register stay |
| RaplLimits.SetUpperAlone | src/msr_rapl.c:741-809 | the same for an upper limit |
| RaplLimits.SetThenGetDram | src/msr_rapl.c:811-959 | set then get of the DRAM limit on a socket, on that socket's register alone |
| RaplEnergy.RaplData.ReadRaplData | src/msr_rapl.c:1323-1431 | in place, for every socket: current entries move to the old ones (the first call clears them), the counters are loaded and translated, the elapsed time is taken |
| RaplEnergy.RaplData.DeltaRaplData | src/msr_rapl.c:1216-1320 | in place, for every socket: the energy since the last poll with the code's wrap handling, and the power; the first call only clears the power |
| RaplEnergy.RaplData.PollRaplData | src/msr_rapl.c:1188-1214 | a poll is a read and then a delta on every socket, each with its own first-call flag |
| RaplEnergy.RaplData.PollAll | src/msr_rapl.c:1188-1431 | a program that polls again and again, from the start: every socket's entries are those of a run of its own samples, of which the theorems below speak |
| RaplEnergy.EntriesOfRun | src/msr_rapl.c:1216-1431 | after any run of polls the entries and energies of a socket are those of its last two samples |
| RaplEnergy.OldEntriesOfRun | src/msr_rapl.c:1331-1402 | the old entries are cleared by the first poll, and are those of the sample before after any other |
| RaplEnergy.StepExactly | src/msr_rapl.c:1260-1275 | one poll reports the true units less one a revolution, if and only if less than a revolution went by; it never reports more, and never a negative number |
| RaplEnergy.UnitsConserved | src/msr_rapl.c:1216-1320 | over every run of polls the units reported plus the revolutions of the counter are the units spent since the first poll, if and only if every poll came within a revolution |
| RaplEnergy.EnergyConserved | src/msr_rapl.c:1216-1431 | the same in joules, for the sum of `pkg_delta_joules` |
| RaplEnergy.NeverNegative | src/msr_rapl.c:1258-1281 | no poll of any run reports a negative package energy, so the branch for it is dead |
| RaplEnergy.PowerIsEnergyOverTime | src/msr_rapl.c:1295-1309 | the power reported times the elapsed time is the energy reported, for package and DRAM |
| RaplEnergy.NoPowerInNoTime | src/msr_rapl.c:1236-1250 | the first poll of a run, and one in no time, reports no power |
| RaplEnergy.ElapsedTelescopes | src/msr_rapl.c:1356-1364 | the elapsed times of a run sum to the last timestamp less the first |
| RaplEnergy.ElapsedIsSeconds | src/msr_rapl.c:1363-1364 | a second later is 1, and a million microseconds count as one second from and to every time |
| RaplEnergy.DramSum | src/msr_rapl.c:1283-1294 | the DRAM energies reported sum to the difference the counter shows plus `UINT_MAX` joules for every step back |
| RaplEnergy.DramExactly | src/msr_rapl.c:1283-1294 | over every run of polls and in any units, that sum is the true DRAM energy if and only if `UINT_MAX` joules for every step back seen are worth what the revolutions are |
| RaplEnergy.DramConservedExactly | src/msr_rapl.c:264-294 | with the unit any register and processor model give, and less than a revolution between polls, that is so if and only if the counter did not wrap |
| RaplEnergy.DramUnitOfModel | src/msr_rapl.c:267-279 | the DRAM unit is 1/65536 J on the three server models whatever the register says, and the register's energy unit on any other |
| RaplPowerUnit.GetRaplPowerUnit | src/msr_rapl.c:1108-1168 | the units of every socket are those written in the three fields of the register that by-coordinate access names there, when the CPU numbers fit sixteen bits |
| RaplPowerUnit.ReadBothWays | src/msr_rapl.c:1115-1159 | the batched read and `read_msr_by_coord` then return the same values on every socket |
| RaplBatch.CapacityExactly | src/msr_rapl.c:553-619 | the operations appended fit the size asked for, for any number of sockets, if and only if DRAM_PERF_STATUS implies PKG_ENERGY_STATUS |
| RaplBatch.ModelsFit | src/msr_rapl.c:55-142 | every flag word set for a supported processor model meets that condition |
| RaplBatch.CreateRaplDataBatch | src/msr_rapl.c:583-619 | the batch ends up with one operation a socket for every register present, on the socket's first CPU; each pointer array leads, for every socket, to the cell of an operation that reads that very register: 0x611 for pkg_bits, 0x613 for pkg_perf_count, 0x619 for dram_bits, 0x61B for dram_perf_count |
| RaplBatch.ReadRaplBatch | src/msr_rapl.c:1403 | after read_batch every pointer of a register present leads to what access by coordinates to that register of its socket returns, when the CPU numbers fit |
| RaplBatch.LoadRegister | src/msr_rapl.c:588-598 | a register present is appended for all sockets after those in front; an absent one leaves the batch alone |
| Topology.NumberOfCoord | src/msr_core.c:71-87 | under both numberings `devidx` maps in-range coordinates into [0, NUM_DEVS) and is injective: the coordinates are recovered |
| Topology.CoordOfNumber | src/msr_core.c:71-87 | and onto: every device number is that of in-range coordinates |
| Topology.ContinuousOrder | src/msr_core.c:76-80 | continuous numbers start at 0 and count the cores of a socket, then the sockets, then the threads |
| Topology.DiscontinuousOrder | src/msr_core.c:81-85 | discontinuous numbers start at 0 and go round the sockets, then count the cores, then the threads |
| Topology.TestSelectsMachine | src/msr_core.c:320-327 | on a machine of either numbering and any positive topology, the formula chosen by looking at CPU 1 alone numbers every CPU as the machine does |
| Topology.DetectedByScan | src/msr_core.c:304-327 | the scan sets the discontinuous flag exactly when CPU 1 is not on logical core 1 |
| Topology.LeastOfSocket | src/msr_core.c:813-826 | no CPU of a socket has a lower number than its core 0, thread 0 |
| Topology.LogicalCoreUnique | src/msr_core.c:852-865 | a logical core number belongs to one socket and core |
| Topology.TopoList.FindCpuTop | src/msr_core.c:284-334 | the map entry of every OS index is its processing unit; the flag is set exactly as described, and never cleared |
| Topology.TopoList.FindRegularTop | src/msr_core.c:284-334 | afterwards map and formula agree: the CPU `devidx(s, c, t)` is listed on socket s and logical core s * coresPerSocket + c |
| MsrBatch.LeastOnSocket | src/msr_core.c:815-826 | the least CPU found by searching a socket is `devidx(s, 0, 0)`, the one addressed by coordinates |
| MsrBatch.LeastOnCore | src/msr_core.c:854-865 | the least CPU found by searching a core is `devidx(s, c, 0)` |
| MsrBatch.LoadSocketBatch | src/msr_core.c:792-828 | one operation a socket is appended, on `devidx(s, 0, 0)` cut to sixteen bits, and val points to their cells |
| MsrBatch.LoadCoreBatch | src/msr_core.c:830-867 | one operation a core is appended, on `devidx(s, c, 0)` cut to sixteen bits, and val points to their cells |
| MsrBatch.SocketTargetsExactly | src/msr_core.c:461-828 | batch and access by coordinates name the same register for every socket if and only if the first CPUs of the sockets fit sixteen bits |
| MsrBatch.CoreTargetsExactly | src/msr_core.c:461-867 | the same for every core |
| MsrBatch.SmallMachineFits | src/msr_core.c:71-87 | they do on every machine of at most 65536 CPUs |
| MsrBatch.ReadLoaded | src/msr_core.c:782-785 | after reading a loaded batch each pointer leads to what the register of its operation holds |
| MsrBatch.LoadThreadBatch | src/msr_core.c:869-896 | one operation a CPU is appended, in order, and val points to their cells |
| MsrBatch.MsrDevice.IoctlBatch | src/msr_core.c:259 | the driver's execution in array order, on the cells in place |
| MsrBatch.MsrDevice.CompatibilityBatch | src/msr_core.c:182-204 | one register access an operation, all of the batch's kind whatever the flags say |
| MsrBatch.MsrDevice.SwitchFlags | src/msr_core.c:250-258 | the flags are switched, all of them, only when the first is of the opposite kind |
| MsrBatch.MsrDevice.DoBatchOp | src/msr_core.c:215-279 | on the table in place: the registers and the cells of the batch become those of the specification step, no other batch changes, and an empty batch is an error |
| MsrBatch.StoreCell | src/msr_counters.c:761 | a store through a destination changes that cell of that batch and nothing else |
| BatchOps.FlagsOfRun | src/msr_core.c:250-258 | in every reachable state the flags are 0^k 1^m, and mixed exactly when an operation was appended after a write with no read since |
| BatchOps.IssuedOfRun | src/msr_core.c:250-259 | every read batch goes out with all flags set; a write batch goes out with all flags cleared if and only if it is not stale in that sense |
| BatchOps.DriverIsFallback | src/msr_core.c:182-259 | with flags of one kind, driver and fallback end in the same registers and cells |
| BatchOps.WriteAgreesExactly | src/msr_core.c:182-259 | a write batch, with whatever flags, leaves the registers and cells the fallback leaves if and only if every operation still flagged as a read carries what its register holds when its turn comes |
| BatchOps.RunsAgreeExactly | src/msr_core.c:182-279 | over every run of appends, stores, reads and writes, with registers that change by other means in between: driver and fallback agree on all registers and cells at every time if and only if every write of the run meets that condition |
| BatchOps.RunsAgree | src/msr_core.c:182-279 | it is met by every write that is not stale, so a program that makes no stale write cannot tell driver and fallback apart |
| BatchOps.StaleWriteDiffers | src/msr_core.c:250-259 | a run with a stale write of any other value ends in different registers |
| BatchOps.ReadBack | src/msr_core.c:782-790 | with or without the driver, write_batch then read_batch returns the written data if and only if operations on the same register carry the same data |
| BatchOps.ReadUniform | src/msr_core.c:782-785 | with or without the driver, reading gives every cell its register and changes no register |
| BatchOps.WriteUniform | src/msr_core.c:787-790 | with or without the driver, writing gives every register its cell, and no other register changes |
| BatchOps.StoredIsWritten | src/msr_core.c:787-790 | a value stored to a cell and written with its batch is what its register holds, and the registers of the other operations hold theirs |
| BatchOps.OutsideIsRead | src/msr_core.c:782-785 | a register that changed by other means is what the next read of the batch finds |
| BatchTables.BatchTable.BatchStorage | src/msr_core.c:125-173 | the table grows to hold the batch; every batch in it, its memory and every pointer handed out stay as they were |
| BatchTables.BatchTable.AllocateBatch | src/msr_core.c:391-421 | the batch gets memory of its own and room for the given number of operations; no other batch changes |
| BatchTables.BatchTable.CreateOp | src/msr_core.c:440-473 | with room, the operation goes to the next cell and the pointer handed out is to that cell; else it is refused and nothing changes, or, behind the loose guard and exactly at the size, it would be written past the end |
| BatchTables.BatchTable.RunScript | src/msr_core.c:391-473 | over any interleaving of allocations and creations, any batch numbers and any growth: the run stays inside its memory as the next two rows say, and then every destination handed out is the cell of the operation it was handed out for, no two are the same, and the table holds what the run says |
| BatchTables.InsideExactly | src/msr_core.c:455-473 | behind the loose guard a run never writes past the end of a batch if and only if no batch receives more operations than its size; each then holds all of them |
| BatchTables.StrictStaysInside | src/csr_core.c:215-236 | behind the strict guard no run does, and each batch holds as many operations as fit |
| BatchTables.BatchTable.Perform | src/csr_core.c:107-236 | one request, under either guard: memory never moves, operations stay in place, a new destination is the new cell |
| BatchTables.RecordedStep | src/msr_core.c:391-473 | the destinations of a run stay right and distinct when one more request is carried out |
| FixedCounters.PutBits | src/msr_counters.c:764 | the update `(w & ~(mask << k)) \| v << k` of one field puts v in the field and keeps all other bits, for v in range |
| FixedCounters.SetThenGet | src/msr_counters.c:704-782 | for one CPU: the settings read back for all three counters are those set if and only if all of them are in range |
| FixedCounters.GlobalFrame | src/msr_counters.c:764-766 | all bits but the three enable bits are kept |
| FixedCounters.ControlFrame | src/msr_counters.c:768-778 | all bits above the twelve control bits are kept, and the twelve are those of the three counters in order |
| FixedCounters.NarrowIsBound | src/msr_counters.c:764-778 | a setting is in range exactly when it is below 2 to the width of its field |
| FixedCounters.CounterBank.constructor | src/msr_counters.c:632-686 | after both storage functions every pointer leads to the cell of its own register and CPU |
| FixedCounters.CounterBank.PutAll | src/msr_counters.c:759-779 | the loop over the CPUs leaves every control cell with all its updates and every counter cell zero |
| FixedCounters.CounterBank.SetFixedCounterCtrl | src/msr_counters.c:744-782 | through the batches: the control registers of every CPU get all settings, the counters are zero, and no other register changes |
| FixedCounters.CounterBank.GetFixedCtrCtrl | src/msr_counters.c:704-742 | the settings of the counters asked for, of every CPU, are those in the registers, and no register changes |
| FixedCounters.CounterBank.Switch | src/msr_counters.c:790-832 | on the registers of every CPU: enabling sets and disabling clears the bits 32-34 of IA32_PERF_GLOBAL_CTRL; bits 4k to 4k+3 of IA32_FIXED_CTR_CTRL are 1, 1, 1, 0 for each counter k; the counters are zero, and all other bits and registers are kept |
| FixedCounters.RoundTrip | src/msr_counters.c:704-782 | for every number of CPUs: what was set is what is found afterwards if and only if every setting is in range |
| FixedCounters.OtherBitsKept | src/msr_counters.c:744-782 | with settings in range, all bits of both registers that belong to no fixed counter are kept, and all other registers |
| MsrInit.StatModule | src/msr_core.c:570-619 | the four outcomes of looking at a file: go on, start over with the msr interface, give up, or settle the interface at the first call |
| MsrInit.MsrCore.InitMsr | src/msr_core.c:621-684 | terminates although it restarts; the first run succeeds if and only if the interface it ends up with works for every device, and all descriptors are then of that one interface |
| MsrInit.MissingFallsBack | src/msr_core.c:591-679 | a first msr_safe file that is missing or does not open leads to the msr interface |
| MsrInit.DeniedIsFinal | src/msr_core.c:606-617 | an msr_safe file without the permissions is final: no fallback follows |
| MsrInit.FallingBackIsFinal | src/msr_core.c:591-605 | once it falls back, the msr_safe interface does not work for every device |
| MemHandler.Handler.Track | src/memhdlr.c:143-174 | the address is appended to the slots; doubling keeps them all and last <= size |
| MemHandler.Handler.Retrack | src/memhdlr.c:121-132 | every slot holding the old address, and no other, gets the new one |
| MemHandler.Handler.Untrack | src/memhdlr.c:133-142 | the address is freed once if tracked, and its slot is cleared |
| MemHandler.Handler.FreeAll | src/memhdlr.c:104-120 | what is left in the slots is freed, in order |
| MemHandler.Handler.LibmsrMalloc | src/memhdlr.c:38-66 | tracked addresses and live blocks stay the same set without duplicates when a block is obtained |
| MemHandler.Handler.LibmsrRealloc | src/memhdlr.c:68-81 | and when a tracked block is reallocated, moved or not; for NULL if and only if exactly one slot is NULL |
| MemHandler.Handler.LibmsrFree | src/memhdlr.c:83-87 | and when a block is freed; an untracked address is ignored |
| MemHandler.Handler.MemhdlrFinalize | src/memhdlr.c:89-93 | every live block is freed exactly once |
| MemHandler.FreesEachOnce | src/memhdlr.c:104-115 | the non-NULL slots are each live block exactly once |
| MemHandler.ReplaceNullExactly | src/memhdlr.c:121-132 | reallocating NULL keeps the mirror if and only if exactly one slot is NULL |
| Highlander.RunKeepsInv | demoapps/powmon/highlander.c:45-110 | over every interleaving of any number of processes: one leader, counts equal to registered foes, objects valid |
| Highlander.OneLeader | demoapps/powmon/highlander.c:52-65 | at most one process is between winning O_EXCL and its unlink of K, and K is then its own |
| Highlander.FoeNeverBlocks | demoapps/powmon/highlander.c:57-103 | K's count is the number of foes that posted it and have not waited, so a foe's wait never blocks |
| Highlander.FoeFinishes | demoapps/powmon/highlander.c:101-108 | a registered foe finishes on its own: its three calls take one from the count of its K, add one to that of its L, and change nothing else |
| Highlander.LCountsDone | demoapps/powmon/highlander.c:89-104 | over every run: the foes done with an L semaphore are its count plus the leader's waits on it |
| Highlander.SampleIsFoes | demoapps/powmon/highlander.c:88 | the leader's sample is the number of foes registered at that moment |
| Highlander.LeavesExactly | demoapps/powmon/highlander.c:87-99 | the leader can still leave if and only if its one sample was at most 1 |
| Highlander.LeavesTooEarlyExactly | demoapps/powmon/highlander.c:45-110 | from every reachable state in which the leader is about to sample: some continuation ends with the leader gone while a foe of its K, registered then or later, has not called wait, if and only if at most one foe is registered and some other process is registered or may still register with that K |
| Highlander.LeavesRegisteredExactly | demoapps/powmon/highlander.c:87-104 | of the foes registered at the sample, one can be left so if and only if exactly one is registered |
| Highlander.LeavesTooEarly | demoapps/powmon/highlander.c:78-99 | a run in which the leader samples 1 and is gone while that foe has not called wait |
| Highlander.LeavesUnseen | demoapps/powmon/highlander.c:52-99 | a run in which it samples 0 and is gone while a foe that registered after has not |
| Highlander.OrphansExactly | demoapps/powmon/highlander.c:52-57 | a step leaves K taken without a leader if and only if it is that of a foe whose second sem_open finds K unlinked |
| Highlander.LeaderlessExactly | demoapps/powmon/highlander.c:45-110 | a run of any number of processes ends so if and only if some step of it was such a one |
| Highlander.LeaderlessReached | demoapps/powmon/highlander.c:52-66 | a run that ends so |
| Highlander.LeaderlessForever | demoapps/powmon/highlander.c:45-110 | from then on no process ever becomes leader |
| PowerCap.SawTooth | demoapps/powmon/power_wrapper_dynamic.c:90-102 | after n adjustments the request is watt_cap less 5 W times the depth of phase n mod 2k, where k is least with watt_cap - 5k <= 30 |
| PowerCap.RequestBounded | demoapps/powmon/power_wrapper_dynamic.c:90-102 | over every run the request stays in (25, watt_cap], returns to the cap every 2k adjustments and has that period |
| PowerCap.CapBoundsExactly | demoapps/powmon/power_wrapper_dynamic.c:90-102 | no request exceeds the cap if and only if the cap is above 30 W |
| PowerCap.CapWordDecodes | demoapps/powmon/rapl2.c:77-91 | both limits of the word written decode to no more than asked for, and less than a unit less |
| PowerCap.CapWordWindows | demoapps/powmon/rapl2.c:80-87 | both limits of the word are enabled and clamping, it is not locked, the lower window decodes to within 7/8 and 1.127 of a second, the upper to one |
| PowerCap.SecondCall | demoapps/powmon/rapl2.c:86-87 | the second call, on structures the first one filled in, writes the same word or fails as the first did |
| PowerCap.Controller.SetBoth | demoapps/powmon/rapl2.c:79-87 | whatever the kernel answers, each socket whose write is accepted gets the one word; neither is written when a power has no code |
| PowerCap.Controller.SetRaplPower | demoapps/powmon/rapl2.c:77-91 | the same, the reads that follow change no register; both sockets hold the same word afterwards exactly when a condition on the answers and the old words holds |
| PowerCap.Controller.AdjustCap | demoapps/powmon/power_wrapper_dynamic.c:90-102 | one adjustment follows the saw tooth, and each socket holds the word of the last setting it accepted |
| PowerCap.Controller.PowerSetMeasurement | demoapps/powmon/power_wrapper_dynamic.c:73-106 | after any number of turns and for any answers of the kernel the request is where the saw tooth is, each socket holds the word of the last setting it accepted, and a socket that accepted one decodes to no more than the cap in either limit |
| PowerCap.SameWordExactly | demoapps/powmon/rapl2.c:77-91 | after a run of settings both sockets hold the same word if and only if the last requests they accepted have the same power code, a socket that accepted none having its old word |
| PowerCap.CappedExactly | demoapps/powmon/rapl2.c:77-91 | both limits of a socket decode to no more than the cap if and only if it accepted a setting of the run, or they already did before it |
| Sampling.TotalConserved | demoapps/powmon/common.c:39-71 | under every interleaving of any number of sampling threads, whenever the mutex is free the total is what all polls of both sockets reported; it is the true energy of each socket in its own unit, less one unit a revolution, if and only if the polls came in time on both |
| Sampling.MeasurementOfRun | demoapps/powmon/common.c:46-70 | from every state a run reaches with the mutex free, and for every thread: its five actions poll both sockets once, add to the total what both counters show to have been used, and leave thread and mutex as they were |
| Sampling.OnlyHeldStays | demoapps/powmon/common.c:46-70 | an action leaves its thread where it is if and only if it is about to enter and finds the mutex held, or would poll energies that run backwards |
| Sampling.MutualExclusion | demoapps/powmon/common.c:46-70 | at most one thread is inside a measurement |
| Sampling.RunKeepsInv | demoapps/powmon/common.c:39-71 | at every moment total plus the holder's pending poll is what was reported |
| Sampling.CountedTwice | demoapps/powmon/common.c:46-70 | the mutex is needed: without it a run of two threads counts one poll twice |
| MsTimer.Clock.constructor | demoapps/powmon/ghighres.c:81-87 | the timer starts one interval ahead, on its grid unless the interval is 0 |
| MsTimer.Clock.TimerSleep | demoapps/powmon/ghighres.c:99-118 | every call that returns: a late one increments the step, with the 32-bit product, up to the first firing after now and reports how often; any other increments it once |
| MsTimer.Clock.SleepAll | demoapps/powmon/ghighres.c:99-118 | a program that calls again and again: the timer is where the run of its calls leads |
| MsTimer.LoopEndsExactly | demoapps/powmon/ghighres.c:105-110 | the loop of a late call ends if and only if less than 2^32 ms less the largest power of two dividing the interval have gone by since the start |
| MsTimer.CallExactly | demoapps/powmon/ghighres.c:101-117 | a call returns with the timer on its grid if and only if the firing it is due to move to is less than 2^32 ms from the start; then now < nextms, a late call has nextms <= now + interval, and the skips reported are the firings passed |
| MsTimer.RunExactly | demoapps/powmon/ghighres.c:99-118 | a whole run of calls returns and stays on the grid if and only if the timer without the 32-bit product ends less than 2^32 ms from the start; the two are then the same |
| MsTimer.StepsAccounted | demoapps/powmon/ghighres.c:99-118 | over every run of calls that return, on the grid or not, the 32-bit step grows by the skips reported plus the on-time sleeps, modulo 2^32 |
| MsTimer.GridStepsAccounted | demoapps/powmon/ghighres.c:99-118 | on the grid the step grows by exactly their sum, and nextms == startms + step * interval |

## Left out

- RaplLimits.Rapl.SetPkgRaplLimit: both limits in one structure is not modelled. A negative power or upper window, and a lower window of half a time unit or less, are excluded because C leaves their casts undefined; so it does for an upper window or a power code of 2^64 or more, for which the model takes the low 64 bits and the power error.
- RaplLimits.Rapl.GetPkgRaplLimit: both limits in one structure is not modelled here either, nor in RaplLimits.Rapl.CalcPkgRaplLimit.
- RaplUnits.WindowAccurateExactly: over exact reals; the rounding of `log2` and of the comparisons in double precision is not modelled.
- RaplUnits.UnitsOf: an energy field of 31 shifts a C int into its sign bit, which C leaves undefined; the model takes 2^31.
- RaplPowerUnit.GetRaplPowerUnit: the first call; later ones read the batch it has loaded (MsrBatch.ReadLoaded).
- PowerCap.Controller.PowerSetMeasurement: two sockets of different units, and caps of 30 W or less, which bound nothing (PowerCap.CapBoundsExactly), are excluded.
- BatchTables.BatchTable.CreateOp: what the program does after a write past the end is not modelled, as C says nothing of it; the model stops before the write.
- BatchTables.BatchTable.AllocateBatch: allocating a batch a second time, which leaves old pointers on the old memory, is not modelled; `BatchTables.Proper` excludes it from the runs.
- FixedCounters.CounterBank.constructor: CPU numbers above 65535 are cut to sixteen bits and share operations; the contract excludes them.
- MsTimer.Clock.TimerSleep: the count reported is unbounded, where the code's int overflows past 2^31 - 1 skips; calls whose loop has no end are excluded (MsTimer.LoopEndsExactly).
- MsrInit.MsrCore.InitMsr: each file gives one answer for the whole call; `find_cpu_top` is modelled apart in Topology.
- RaplEnergy.RaplData.ReadRaplData: the parallel arrays of `struct rapl_data` are one array of records, and reading the batch is given its counters. Only flag words with both energy registers are modelled, as the first call stores to the arrays of both whether they exist or not (src/msr_rapl.c:1344-1350); the performance-status entries, which the code does not use, are absent.
- RaplBatch.CreateRaplDataBatch: flag words with DRAM_PERF_STATUS and without PKG_ENERGY_STATUS overfill the batch (RaplBatch.CapacityExactly) and are excluded.
- Topology.TopoList.FindCpuTop: OS indices beyond the number of CPUs, which the code would store outside its map, are excluded.
- MemHandler.Handler.LibmsrRealloc: an address that is neither NULL nor tracked is excluded, as realloc is undefined for it.
- MsrBatch.MsrDevice.DoBatchOp: failures of the ioctl and of single operations, in the driver or the fallback, are not modelled.
- `free_batch` and `free_csr_batch`, which index an element they already selected; any use of the allocator after finalizing; running out of memory.
- The fields of a CSR operation: the table is generic in its operations, and csr_core.c differs by its guard and default size.
- max_watts, min_watts and limit_joules of take_measurement; the log file.
- `check_for_locks`, `get_rapl_power_info`, and the thermal, clock, turbo, uncore and general counters: they repeat easier forms of the field updates above, or do not round-trip.
- hwloc, cpuid, the drivers, file permissions beyond the three answers, and all printing.
