# Verified models of the kernel containers and the Thunderbolt controller

This Dafny project models the algorithms with state in a Hackintosh configuration: the containers
and helpers of the Lilu kernel extension's headers, and the ACPI code that powers, configures and
talks to the Thunderbolt controller. `dafny verify dfyconfig.toml` checks it.

## What is modelled

**The lock-free slot table** (`ThreadLocalProtocol.dfy`, `ThreadLocal.dfy`). `ThreadLocal<T, N>` is a
step machine: any number of threads, one position per thread, one atomic access per step. The
results hold for every schedule: the table refines a map from threads to values. The class then
gives `set`, `get` and `erase` as loops over two arrays; before each access the other threads take any
number of steps of the protocol.

**The circular buffer** (`RingProtocol.dfy`, `CircularBuffer.dfy`). Also a step machine, with the
recursive lock and one step per field access; every history linearizes to a bounded FIFO queue. The
class gives the methods as they are, from the moment the lock is available.

**The growable vector** (`EVector.dfy`): contents, ownership of elements, failing allocations,
amortised cost.

**Bits and alignment** (`BitFields.dfy`): for unsigned words of any width.

**The controller's mailbox** (`CioMailbox.dfy`). The hardware is an adaptive adversary, a function of
all that has happened: a write that was handed over may land at once, later, repeatedly or never, and
a command on which the code gave up may end under a later one and clear its PROG. The methods are
proved equal to functions of that adversary; what is proved of `CRMW` holds for all of them, and where
a property fails, a concrete one shows it. A record of all transactions says what was tried.

**Save and restore of the bridge tree** (`ConfigSpace.dfy`, `RidgeConfig.dfy`). Configuration space is
byte memory. `CNHI` runs against adversarial reads, among them the read of the dword inside each store
of a narrower field, and records a trace of all bus accesses; the staging, and how often each stage was
tried before it failed, are properties of that trace, and the outcome in memory follows from replaying
it where writes are accepted. What holds only if the reads are truthful as well says so.

**Power states** (`PortPower.dfy`). Each method records what it reads, writes and sleeps in a log; what
a read returns is an arbitrary function of all events before it, which is fixed beforehand, and every
claim about a read is one about the log. Each method is proved to be a step of a machine over the
software-visible flags, with `RTBT` and `RUSB` changing at will, and safety is proved of all runs of
that machine. The only fact about time is that `Sleep` lets at least its argument pass.

**Core numbering, buffers and hooks** (`CpuTopology.dfy`, `BufferFields.dfy`, `KernelPatcher.dfy`).

## Where the code does not do what one would expect

- `DP2C` is restored from a name that `_INI` never sets, so a successful restore leaves zero there
  (`RidgeConfig.SaveCorruptRestore`).
- A store of an 8- or 16-bit field writes back what the read of its dword returned. If that read
  lies, `CNHI` can succeed and leave wrong primary and secondary bus numbers behind, though every write
  was accepted (`RidgeConfig.SuccessLosesBusNumbers`, `RidgeConfig.RestoredIff`).
- The resume mark of DSB0 and the flag `GNHI` are never restored, unlike those of RP01 and DSB2
  (`PortPower.NhiMarksStay`).
- With two slots or more, `set` may fail although some slot is free at every moment
  (`ThreadLocalProtocol.FailureMeansFullIff`).
- `CRMW` can only succeed if its bits lie inside its mask; otherwise it writes and fails
  (`CioMailbox.VerifiedMeansMerged`).
- `CIOR` clears RDAT and takes a cleared PROG for its own. If a write on which `CIOW` gave up ends at
  that time, `CRMW` merges zero and loses the bits outside the mask (`CioMailbox.OldOrMergedIff`); when
  it clears bits it can even return Zero without having written (`CioMailbox.ZeroIsTrueIff`,
  `CioMailbox.ZeroMeansMergedIff`).
- A range of addresses that reaches 2^64 solves no symbol, as its end wraps (`KernelPatcher.WrappingTest`).
- The early return of `TBTC` is unreachable.
- The description of `solveMultiple` promises false if a symbol cannot be solved; with `force` the code
  returns true. The contract follows the code.
- The guard of `routeVirtual` against replacing twice sees only the hook in place; a hook that returns
  further up makes calls circle for ever, until the original is put back (`KernelPatcher.RouteEndsIff`).
- Core numbers are unique only up to 256 cores, and `totalPhysical` counts package 0 even when there is
  no package.
- `alignValue` gives 0 when its addition wraps, and rounds wrongly for alignments that are no power of
  two (`BitFields.AlignsIff`).
- `reserve` does not check its multiplication (`EVector.RoomIsRealIff`).

## Model

| member | source | states |
|---|---|---|
| ThreadLocalProtocol.EveryRunKeepsInv | OC/OC/Kexts/Lilu.kext/Contents/Resources/Headers/kern_util.hpp:664-755 | In every state of every interleaving of set, get and erase by any number of threads over n slots: no thread sits in two slots, a free slot holds the default value, and every thread inside a call still owns the slot it is working on |
| ThreadLocalProtocol.OnlyOwnerWrites | OC/OC/Kexts/Lilu.kext/Contents/Resources/Headers/kern_util.hpp:698-755 | In every reachable state, a step of any thread changes `values[i]` only if that thread sits in `threads[i]` |
| ThreadLocalProtocol.ReleaseNeverFails | OC/OC/Kexts/Lilu.kext/Contents/Resources/Headers/kern_util.hpp:741-754 | In every reachable state, the releasing compare-and-swap of erase succeeds |
| ThreadLocalProtocol.RefinesMap | OC/OC/Kexts/Lilu.kext/Contents/Resources/Headers/kern_util.hpp:698-755 | The table refines a map from threads to values: in every interleaving each call of a thread takes effect once between call and return, with the answer of the map; get finds exactly the last value set and not erased since, and the pointer it hands out reads and writes that value, across later calls, until the thread's own erase |
| ThreadLocalProtocol.EveryCallReturns | OC/OC/Kexts/Lilu.kext/Contents/Resources/Headers/kern_util.hpp:698-755 | In every schedule a thread is outside its call again within 2n + 3 of its own steps, whatever the others do |
| ThreadLocalProtocol.ActLeavesOthers | OC/OC/Kexts/Lilu.kext/Contents/Resources/Headers/kern_util.hpp:698-755 | A step of one thread leaves every other thread its slots and their values |
| ThreadLocalProtocol.ActMatches | OC/OC/Kexts/Lilu.kext/Contents/Resources/Headers/kern_util.hpp:698-755 | Every single step, from any table in which the invariant holds, shows at most one event and it is one that the thread's own map cell allows |
| ThreadLocalProtocol.FailedSetSawEverySlotTaken | OC/OC/Kexts/Lilu.kext/Contents/Resources/Headers/kern_util.hpp:702-720 | When the next step of a thread makes its set fail, the compare-and-swaps of this very call met another owner on each of the n slots, one after the other, and the thread has not left the claiming loop since the first |
| ThreadLocalProtocol.FailureMeansFullIff | OC/OC/Kexts/Lilu.kext/Contents/Resources/Headers/kern_util.hpp:702-720 | Every failing set had a full table at some moment of its call exactly when the table has at most one slot |
| ThreadLocalProtocol.SetFailsBesideAFreeSlot | OC/OC/Kexts/Lilu.kext/Contents/Resources/Headers/kern_util.hpp:702-720 | For every table of two slots or more: a run in which every state has a free slot and a set fails all the same |
| ThreadLocalObject.ThreadLocal.Set | OC/OC/Kexts/Lilu.kext/Contents/Resources/Headers/kern_util.hpp:702-720 | With other threads running between all accesses: success means the caller's value is stored; failure means it had none and each slot in turn was in another thread's hands at a moment of this call, by the record of all tables; with no other thread running it succeeds exactly when some slot is free or its own, and nobody else's value changes |
| ThreadLocalObject.ThreadLocal.Get | OC/OC/Kexts/Lilu.kext/Contents/Resources/Headers/kern_util.hpp:726-734 | Finds a slot exactly when the caller has a value, and the slot holds it |
| ThreadLocalObject.ThreadLocal.Erase | OC/OC/Kexts/Lilu.kext/Contents/Resources/Headers/kern_util.hpp:741-754 | Leaves the caller without a value, true exactly when it had one |
| ThreadLocalObject.ThreadLocal.Deinit | OC/OC/Kexts/Lilu.kext/Contents/Resources/Headers/kern_util.hpp:684-689 | On a table nobody is using: every slot free and default, no thread has a value |
| RingProtocol.Linearizable | OC/OC/Kexts/Lilu.kext/Contents/Resources/Headers/kern_util.hpp:1076-1145 | Every interleaving of push, pop, isEmpty, isFull and getCount linearizes to a bounded FIFO queue whose capacity is the size, zero included; no step divides by zero or leaves the storage, and no 32-bit index wraps |
| RingProtocol.MutualExclusion | OC/OC/Kexts/Lilu.kext/Contents/Resources/Headers/kern_util.hpp:1113-1145 | At most one thread is inside the recursive lock, its depth is what its position says (two inside the nested isFull and isEmpty), and a thread outside a call holds none of it |
| RingProtocol.LockIsReleased | OC/OC/Kexts/Lilu.kext/Contents/Resources/Headers/kern_util.hpp:1113-1145 | In every schedule a thread is outside the lock, and has given up all its depth, within eight of its own steps |
| RingProtocol.FirstInFirstOut | OC/OC/Kexts/Lilu.kext/Contents/Resources/Headers/kern_util.hpp:1113-1145 | In every interleaving the popped elements are a prefix of the pushed ones, and at most `size` elements are behind |
| RingProtocol.TestsAreExact | OC/OC/Kexts/Lilu.kext/Contents/Resources/Headers/kern_util.hpp:1076-1093 | On a consistent ring the compound tests mean exactly no element and no room |
| RingProtocol.HolderKeeps | OC/OC/Kexts/Lilu.kext/Contents/Resources/Headers/kern_util.hpp:1113-1145 | Each field access inside push and pop leaves the ring as the next position of the lock's holder needs it, also between the increment and the modulo |
| CircularBufferObject.CircularBuffer.Push | OC/OC/Kexts/Lilu.kext/Contents/Resources/Headers/kern_util.hpp:1113-1125 | Appends the element exactly when the buffer is not full, and gives the lock back at the depth it found |
| CircularBufferObject.CircularBuffer.Pop | OC/OC/Kexts/Lilu.kext/Contents/Resources/Headers/kern_util.hpp:1133-1145 | Takes the front element exactly when there is one, otherwise changes nothing, and gives the lock back at the depth it found |
| CircularBufferObject.CircularBuffer.IsEmpty | OC/OC/Kexts/Lilu.kext/Contents/Resources/Headers/kern_util.hpp:1076-1081 | True exactly for the empty queue; queue and lock unchanged |
| CircularBufferObject.CircularBuffer.IsFull | OC/OC/Kexts/Lilu.kext/Contents/Resources/Headers/kern_util.hpp:1088-1093 | True exactly when the queue has `size` elements; queue and lock unchanged |
| CircularBufferObject.CircularBuffer.GetCount | OC/OC/Kexts/Lilu.kext/Contents/Resources/Headers/kern_util.hpp:1100-1105 | The length of the queue; queue and lock unchanged |
| EVector.EVector.Reserve | OC/OC/Kexts/Lilu.kext/Contents/Resources/Headers/kern_util.hpp:851-864 | Keeps the elements in order and has room for the number asked for, or returns null without memory, exactly when the 64-bit arithmetic comes out right; otherwise it notes down less room than needed or more than it has. It touches nothing when there is room, and otherwise notes down the factor times the number asked for |
| EVector.EVector.PushBack | OC/OC/Kexts/Lilu.kext/Contents/Resources/Headers/kern_util.hpp:890-900 | Appends and accepts the element exactly when there is room or memory; the vector stays valid, with every accepted element stored or deleted once, exactly when the arithmetic of the growth comes out right |
| EVector.EVector.Erase | OC/OC/Kexts/Lilu.kext/Contents/Resources/Headers/kern_util.hpp:871-881 | Removes the element at the index, keeps the order of the rest and passes exactly that element to the deleter; gives the memory back exactly when asked to and no element is left |
| EVector.EVector.Deinit | OC/OC/Kexts/Lilu.kext/Contents/Resources/Headers/kern_util.hpp:928-936 | Passes all elements to the deleter, in order, and returns to the initial state |
| EVector.RoomIsRealIff | OC/OC/Kexts/Lilu.kext/Contents/Resources/Headers/kern_util.hpp:851-864 | The room noted down is really there, and enough, exactly when the number of elements does not wrap below what is needed and their bytes fit in 64 bits |
| EVector.CopiesAreLinear | OC/OC/Kexts/Lilu.kext/Contents/Resources/Headers/kern_util.hpp:851-936 | With a growth factor of at least two, n accepted pushes cost at most 2n element copies, over any mix of pushes, failing allocations, erasures and deinits |
| EVector.GrowthIsLogarithmic | OC/OC/Kexts/Lilu.kext/Contents/Resources/Headers/kern_util.hpp:851-900 | Without giving memory back, n accepted pushes reallocate at most log2(n + 1) times |
| BitFields.MaskValue | OC/OC/Kexts/Lilu.kext/Contents/Resources/Headers/kern_util.hpp:491-508 | For any word width, a mask is 2^(hi+1) - 2^lo, and 0 if its bounds are given the wrong way round |
| BitFields.FieldValue | OC/OC/Kexts/Lilu.kext/Contents/Resources/Headers/kern_util.hpp:520-523 | Reading a field is dividing by 2^lo and keeping its width |
| BitFields.SetThenGet | OC/OC/Kexts/Lilu.kext/Contents/Resources/Headers/kern_util.hpp:520-538 | A value set in a field reads back modulo the field's width |
| BitFields.PackedFieldsAreIndependent | OC/OC/Kexts/Lilu.kext/Contents/Resources/Headers/kern_util.hpp:520-538 | Two fields that do not overlap, packed by OR, each read back what was set in them |
| BitFields.AlignedValue | OC/OC/Kexts/Lilu.kext/Contents/Resources/Headers/kern_util.hpp:466-469 | The least multiple of a power-of-two alignment not below the size, unless the addition wraps: then 0 |
| BitFields.AlignsIff | OC/OC/Kexts/Lilu.kext/Contents/Resources/Headers/kern_util.hpp:466-469 | alignValue rounds every size whose sum does not wrap up to the least multiple exactly when the alignment is a power of two |
| CioMailbox.Mailbox.CRMW | patches/thunderbolt/SSDT-TB3.dsl:1429-1467 | For all hardware: when AVND reads all ones nothing is issued and One is returned; otherwise One means exactly five attempts, by the record of all transactions each ended by a failed command or by a read-back that compares unequal, and Zero means one to five attempts of which only the last compared equal. At most 15 transactions and 150,000 polls; at every moment no other register has been written and this one only with merged values; Zero means that the bits lie inside the mask, with bits to set that the register compared equal at a moment of the call, and without an overrun in this call that it holds the merged value for good; it holds the merged value in any case if a read that is told zero does no harm |
| CioMailbox.Mailbox.CIOW | patches/thunderbolt/SSDT-TB3.dsl:1348-1379 | One transaction, recorded with its register, value and status; it fails exactly if it ran out of its 10,000 polls or TMOT is set; whatever the status, at every moment each register holds what it held, a write that was in flight before, or this one |
| CioMailbox.Mailbox.CIOR | patches/thunderbolt/SSDT-TB3.dsl:1381-1427 | One transaction, recorded with what was read, of at most 10,000 polls, all of them used before it gives up, that writes nothing; if no command was unfinished before it, success means that the register held the value at a moment of the call |
| CioMailbox.AttemptsRecord | patches/thunderbolt/SSDT-TB3.dsl:1435-1464 | From any state of the mailbox and on any hardware, the transactions of the attempts that fail are failed tries, and those up to the success end in one that works, stated on the record alone |
| CioMailbox.TargetOfSmall | patches/thunderbolt/SSDT-TB3.dsl:1348-1367 | Arguments that fit the fields of the command select exactly that register |
| CioMailbox.VerifiedMeansMerged | patches/thunderbolt/SSDT-TB3.dsl:1447-1453 | The final comparison holds of a value exactly when `Arg3` lies inside `Arg4` and inside 32 bits and the value is already merged |
| CioMailbox.MergedBits | patches/thunderbolt/SSDT-TB3.dsl:1440-1441 | Merging keeps every bit outside the mask and sets the bits inside it to `Arg3` |
| CioMailbox.ModifyIsBounded | patches/thunderbolt/SSDT-TB3.dsl:1429-1467 | At most 15 transactions and 150,000 polls, whatever the hardware does |
| CioMailbox.ModifyOnlyMerges | patches/thunderbolt/SSDT-TB3.dsl:1429-1467 | From any state of the mailbox, at every moment: no other register is written, and this one only with merged values |
| CioMailbox.ModifyFromSettled | patches/thunderbolt/SSDT-TB3.dsl:1429-1467 | From a mailbox with nothing unfinished, at every moment the register holds its old value, the merged one, or what merging zero gives; with bits to set, a success means that it compared equal at some moment |
| CioMailbox.ModifyWithoutOverrun | patches/thunderbolt/SSDT-TB3.dsl:1429-1467 | If no read of this call began while a command was unfinished: at every moment the old or the merged value, and after a success the merged one, whatever the hardware does from then on |
| CioMailbox.NoOverrunUnlessGaveUp | patches/thunderbolt/SSDT-TB3.dsl:1348-1467 | Such an overrun happens only if the code gave up on a command of this very call because its polls ran out, whatever happened in earlier calls |
| CioMailbox.ModifyOnPromptHardware | patches/thunderbolt/SSDT-TB3.dsl:1429-1467 | On hardware that carries every command out at once, the register is merged in any case and Zero is returned exactly for bits inside the mask |
| CioMailbox.LosesUnmaskedBits | patches/thunderbolt/SSDT-TB3.dsl:1381-1467 | Hardware on which a write ends late, under the read of the next attempt: that read is told zero, and the register ends with all bits outside the mask lost while Zero is returned |
| CioMailbox.OldOrMergedIff | patches/thunderbolt/SSDT-TB3.dsl:1429-1467 | For all hardware the register ends with its old or the merged value exactly when merging zero gives one of the two |
| CioMailbox.ZeroMeansMergedIff | patches/thunderbolt/SSDT-TB3.dsl:1429-1467 | For all hardware Zero means that the register holds the merged value exactly when, for bits inside the mask, merging zero gives the same and, if bits are only cleared, the register was zero |
| CioMailbox.HarmlessZeroMeansMerged | patches/thunderbolt/SSDT-TB3.dsl:1429-1467 | Under that condition a success leaves the merged value, from any mailbox with nothing unfinished |
| CioMailbox.SuccessIsWellFormed | patches/thunderbolt/SSDT-TB3.dsl:1429-1467 | Zero is returned only for bits inside the mask and inside 32 bits, from any state and on any hardware |
| CioMailbox.SucceedsForNothing | patches/thunderbolt/SSDT-TB3.dsl:1381-1467 | Hardware on which clearing bits returns Zero and no register has ever changed |
| CioMailbox.ZeroIsTrueIff | patches/thunderbolt/SSDT-TB3.dsl:1429-1467 | For all hardware Zero means that the register compared equal at some moment exactly when there are bits to set, or it compared equal before |
| RidgeConfig.Ridge.Ini | patches/thunderbolt/SSDT-TB3.dsl:676-719 | Saves every register of the bridge tree that CNHI restores, truly so on honest hardware, but for the command registers and DP2C |
| RidgeConfig.Ridge.CNHI | patches/thunderbolt/SSDT-TB3.dsl:794-969 | Against any reads: all writes are the planned ones and follow the six stages; One means all four read-backs and both link waits succeeded; Zero means that a stage was entered and failed after all its attempts, 10, 10, 10 or 100, or 2000 polls, each with a read that did not fit; and at most 19,164 bus accesses are made. Where writes are accepted, success restores every planned register but the first two bus numbers of the bridges, and those, so everything, exactly when the reads inside the last stores of their dwords told the planned values; no dword without a planned register changes. On hardware that reads truthfully as well, everything is restored, no other byte changes, and it succeeds exactly when the links are trained and the port is Intel's |
| RidgeConfig.SaveCorruptRestore | patches/thunderbolt/SSDT-TB3.dsl:676-969 | Snapshot, arbitrary corruption, restore: on success every saved register has its old value, each Command field holds 7, and DP2C holds 0 because R22C is never saved; success exactly when the links are up |
| RidgeConfig.WritesFollowGates | patches/thunderbolt/SSDT-TB3.dsl:794-969 | In any trace of CNHI a write to a unit comes only after a prefix that passed all stages before the unit's own |
| RidgeConfig.EarlierStagesPassed | patches/thunderbolt/SSDT-TB3.dsl:794-969 | A trace inside a stage has, for each earlier stage, a prefix that ends with that stage's read-back or link check succeeding |
| RidgeConfig.PlanOutcome | patches/thunderbolt/SSDT-TB3.dsl:794-969 | Over any memory, a complete trace of planned writes whose inner reads told the truth leaves each planned register with its planned value, in whatever order and however often it wrote, and every byte outside them as it was |
| RidgeConfig.LyingOutcome | patches/thunderbolt/SSDT-TB3.dsl:794-969 | Whatever the inner reads told: a complete trace leaves each planned register with its planned value, but for the first two bus numbers of each bridge, which are what the last inner read of their dword told, and every dword without a planned register as it was |
| RidgeConfig.DwordOutcome | patches/thunderbolt/SSDT-TB3.dsl:164-280 | Whatever the inner reads told, the last store into a dword decides all of it: the field has its planned bytes, the rest is what that store's read told |
| RidgeConfig.RestoredIff | patches/thunderbolt/SSDT-TB3.dsl:794-969 | After such a trace everything is restored exactly when the last inner read of each bridge's bus numbers told the planned ones |
| RidgeConfig.SuccessLosesBusNumbers | patches/thunderbolt/SSDT-TB3.dsl:794-969 | For any answer of the inner reads there is a complete trace that passes all six stages, on hardware that accepts every write, and leaves the first two bus numbers of the upstream port as answered |
| RidgeConfig.SnapshotRestored | patches/thunderbolt/SSDT-TB3.dsl:676-969 | Restoring a true snapshot of one memory into another makes the saved registers equal |
| RidgeConfig.TreeLayoutFits | patches/thunderbolt/SSDT-TB3.dsl:217-280 | The windows of the tree, on a common ECAM base, are aligned and do not overlap exactly when the buses behind the upstream port and behind DSB0 differ |
| RidgeConfig.PlannedAreDisjoint | patches/thunderbolt/SSDT-TB3.dsl:164-280 | No byte belongs to two of the registers that CNHI writes |
| RidgeConfig.RegistersByNumber | patches/thunderbolt/SSDT-TB3.dsl:676-969 | The registers written, and those saved, by their offsets and widths |
| RidgeConfig.StatusUntouched | patches/thunderbolt/SSDT-TB3.dsl:164-280 | Whatever the inner reads told, the planned writes change no byte of the vendor and link status registers that the waits read |
| RidgeConfig.Ridge.WaitForLinks | patches/thunderbolt/SSDT-TB3.dsl:974-1069 | WTLT and WTDL succeed exactly if one of at most 2000 polls reads Command 7, trained links and an Intel port, and that is the last; they fail only after 2000 polls each with a read in the trace that did not fit; on honest hardware they succeed exactly when the links are up |
| RidgeConfig.Ridge.ConfigureRootPort | patches/thunderbolt/SSDT-TB3.dsl:799-823 | Each attempt stores the registers of the stage, in order, and reads R_20 back; it is repeated until that equals the saved value, ten times at most, and fails only if all ten and the final comparison failed |
| RidgeConfig.Ridge.ConfigureUpsb | patches/thunderbolt/SSDT-TB3.dsl:826-855 | Each attempt stores the registers of the stage, in order, and reads UP19 back; it is repeated until that equals the saved value, ten times at most, and fails only if all ten and the final comparison failed |
| RidgeConfig.Ridge.ConfigureDsb | patches/thunderbolt/SSDT-TB3.dsl:866-930 | Each attempt stores the registers of the stage, in order, and reads DP19 back; it is repeated until that equals the saved value, ten times at most, and fails only if all ten and the final comparison failed |
| RidgeConfig.Ridge.ConfigureNhi | patches/thunderbolt/SSDT-TB3.dsl:938-964 | Each attempt stores the registers of the stage, in order, and reads NH10 back; it is repeated until that equals the saved value, 100 times at most, and fails only if all 100 and the final comparison failed |
| ConfigSpace.PreserveStoreIsSplice | patches/thunderbolt/SSDT-TB3.dsl:164-287 | A field store that reads and writes a whole dword (section 19.6 of the ACPI Specification 6.4) changes the bytes of the field and no other, if its read tells the truth or is not needed |
| ConfigSpace.FromToBytes | patches/thunderbolt/SSDT-TB3.dsl:164-287 | A value that fits its field reads back as itself |
| ConfigSpace.FourBytes | patches/thunderbolt/SSDT-TB3.dsl:164-287 | The bytes of a dword, lowest first |
| ConfigSpace.MMIOWindowsAreDisjoint | patches/thunderbolt/SSDT-TB3.dsl:42-49 | Equal addresses come from equal bus, device, function and offset: windows of different functions never meet (section 7.2.2 of the PCI Express Base Specification) |
| ConfigSpace.MMIODecodes | patches/thunderbolt/SSDT-TB3.dsl:42-49 | The address minus its base is the offset, 3 bits of function, 5 bits of device and the bus, in the places the ECAM layout gives them |
| PortPower.RunsAreSafe | patches/thunderbolt/SSDT-TB3.dsl:339-2216 | In every run that powers parents on before and off after their children, with RTBT and RUSB changing at any time and any hardware answers: at all times no device in D0 has its port disabled or powered down above it, and UPSB (XHC2) on means that RP01 (DSB2) has no resume mark and GPCI (GXCI) set, exactly if PCEU never misses a power or link field that is off, nor takes one for off under a child in D0 |
| PortPower.TrueRunsAreSafe | patches/thunderbolt/SSDT-TB3.dsl:339-2216 | In particular every run is safe in which PCEU reads those two fields truly |
| PortPower.StepIsSafe | patches/thunderbolt/SSDT-TB3.dsl:339-2216 | One call from a safe state leaves a safe state exactly if what PCEU reads is right where it matters |
| PortPower.NhiMarksStay | patches/thunderbolt/SSDT-TB3.dsl:1524-1635 | DSB0's resume mark is set exactly if it was initially or DSB0 ever went down, and GNHI is clear exactly if it was initially or DSB0 was ever cut off: nothing restores either, unlike RP01 and DSB2 |
| PortPower.Controller.UpsbPCED | patches/thunderbolt/SSDT-TB3.dsl:1160-1313 | For any hardware answers: GPCI set, resume marks cleared, a link taken down for the resume disabled and enabled again, in that order. It goes on from a retraining only when its reads showed the link up, and from the wait only when UPSB answered, or after a second each. The speed is raised, both ends set and the link retrained, exactly if it is not the highest and both ends can; PCIA is set exactly if that was not needed, could not be done, or the link was seen up with UPSB answering. At most 303 sleeps over its three one-second deadlines |
| PortPower.Controller.Xhc2PCED | patches/thunderbolt/SSDT-TB3.dsl:2147-2194 | For any hardware answers: GXCI set, resume marks cleared, link and power state untouched; PCIA is set exactly if it was or one of the reads of XHC2's id was not all ones, and a second has passed otherwise; a retraining ends only with the link seen up or after a second; at most 202 sleeps |
| PortPower.Controller.Poll | patches/thunderbolt/SSDT-TB3.dsl:1184-1232 | The loop ends held exactly if, since it began, reads showed what it waits for, and otherwise only when Timer has passed the deadline; it sleeps at most 101 times, counting also the sleeps of earlier loops on the same deadline, and writes nothing |
| PortPower.Controller.Check | patches/thunderbolt/SSDT-TB3.dsl:1184-1298 | The condition of each of the polling loops: it holds exactly if the reads made show it, and else they show it in no part either |
| PortPower.EverAnswered | patches/thunderbolt/SSDT-TB3.dsl:2181-2191 | Among the reads of a log a device has been seen answering exactly if one of its id was not all ones |
| PortPower.Controller.Rp01PowerOn | patches/thunderbolt/SSDT-TB3.dsl:339-352 | Reads power and link once each, and writes zero to exactly the one that reads nonzero, and the one that reads one, and nothing else, in that order; these are on then, and PRSR says whether it switched anything |
| PortPower.Controller.Dsb0PowerOn | patches/thunderbolt/SSDT-TB3.dsl:1524-1537 | As for the root port, on DSB0 |
| PortPower.Controller.Dsb2PowerOn | patches/thunderbolt/SSDT-TB3.dsl:2047-2061 | As for the root port, on DSB2 |
| PortPower.Controller.Rp01PowerOff | patches/thunderbolt/SSDT-TB3.dsl:355-393 | Cut off, with 3 and 1 written to power and link and GPCI cleared, exactly when neither RTBT nor RUSB is set at the call, and then it ends only when its reads showed the link gone or a second has passed; marked for resume in any case |
| PortPower.Controller.Dsb0PowerOff | patches/thunderbolt/SSDT-TB3.dsl:1540-1588 | Cut off, with the two writes, the same wait and GNHI cleared, exactly when RTBT is clear; marked for resume in any case |
| PortPower.Controller.Dsb2PowerOff | patches/thunderbolt/SSDT-TB3.dsl:2063-2111 | Cut off, with the two writes, the same wait and GXCI cleared, exactly when RUSB is clear; marked for resume in any case |
| PortPower.Controller.UpsbPowerOn | patches/thunderbolt/SSDT-TB3.dsl:1315-1320 | The root port is brought up as by PCED, with its waits and its speed, and GPCI is set; nothing else changes but RTBT and RUSB from outside |
| PortPower.Controller.Xhc2PowerOn | patches/thunderbolt/SSDT-TB3.dsl:2210-2216 | After a sleep of 200 ms DSB2 is woken as by PCED, with its waits and its condition for PCIA, and GXCI is set; nothing else changes but RTBT and RUSB from outside |
| PortPower.Controller.Nhi0PowerOn | patches/thunderbolt/SSDT-TB3.dsl:1631-1635 | Runs the PCED of UPSB: the root port is brought up, with its waits and its speed; DSB0 keeps its marks |
| PortPower.Controller.TBTC | patches/thunderbolt/SSDT-TB3.dsl:299-322 | Sends the command and withdraws it, and writes nothing else there; in between it reads T2PR until its low bit is set, a hundred times at most, with a sleep of 50 ms after each read but the first; the early return for all ones cannot be taken |
| CpuTopology.NumbersCoresIff | OC/OC/Kexts/Lilu.kext/Contents/Resources/Headers/kern_cpu.hpp:369-375 | Different cores have different numbers exactly when there are at most 256 cores; beyond that two cores share number 0 |
| CpuTopology.NumbersAreOnto | OC/OC/Kexts/Lilu.kext/Contents/Resources/Headers/kern_cpu.hpp:366-375 | With at most 256 cores the numbers are exactly those below the total |
| CpuTopology.NumbersFollowOrder | OC/OC/Kexts/Lilu.kext/Contents/Resources/Headers/kern_cpu.hpp:366-375 | With at most 256 cores the numbers go up with the package, and in a package with the core |
| CpuTopology.Topology.NumberToPhysicalUnique | OC/OC/Kexts/Lilu.kext/Contents/Resources/Headers/kern_cpu.hpp:369-375 | The cores of the packages before, plus the core's own number, in 8-bit arithmetic |
| CpuTopology.Topology.TotalPhysical | OC/OC/Kexts/Lilu.kext/Contents/Resources/Headers/kern_cpu.hpp:339-344 | The sum over the packages modulo 256; package 0 counts even if there are none |
| CpuTopology.Topology.TotalLogical | OC/OC/Kexts/Lilu.kext/Contents/Resources/Headers/kern_cpu.hpp:349-354 | The sum over the packages modulo 256; package 0 counts even if there are none |
| BufferFields.StoreField | patches/SSDT-TB3.dsl:487-506 | A store through CreateField replaces exactly the bits of the field in the flat bit sequence, across byte boundaries |
| BufferFields.FieldAfterStore | patches/SSDT-TB3.dsl:487-506 | The field then reads the stored value modulo its width, and disjoint fields read as before |
| BufferFields.BitOfByte | patches/SSDT-TB3.dsl:459-506 | Bit k of byte i is that byte divided by 2^k, modulo 2: the lowest bit comes first |
| BufferFields.FieldIsArithmetic | patches/SSDT-TB3.dsl:459-506 | A field is the buffer, as a little-endian number, divided by 2 to its offset, modulo 2 to its width |
| BufferFields.TPLD | patches/SSDT-TB3.dsl:487-506 | The sixteen bytes of the buffer, for all arguments; the six fields hold what was stored, modulo their widths, and every range that meets none of them is zero |
| BufferFields.GPLD | patches/SSDT-TB3.dsl:459-472 | The sixteen bytes of the buffer, for all arguments; the three fields hold what was stored, modulo their widths, and everything else is zero |
| BufferFields.TPLDBytes | patches/SSDT-TB3.dsl:487-506 | A zeroed buffer in which the six fields have been stored consists of exactly these sixteen bytes |
| BufferFields.TPLDDecodes | patches/SSDT-TB3.dsl:487-506 | A reader of the returned buffer decodes the arguments and the fixed shape, width and height (section 6.1.8 of the ACPI Specification 6.4) |
| BufferFields.TaskFile.GTFB | BIOS 1.13/ACPI/TB-Off/Disassembled/SSDT-1.dsl:47-56 | A command of any length, cut or filled to seven bytes, is written with byte 1 replaced and counted if it fits, and no other byte changes; one that does not fit changes nothing |
| BufferFields.CommandsConcatenate | BIOS 1.13/ACPI/TB-Off/Disassembled/SSDT-1.dsl:45-56 | Any number of commands that fit leave their concatenation at the start of the buffer and the rest as it was |
| BufferFields.GTF | BIOS 1.13/ACPI/TB-Off/Disassembled/SSDT-1.dsl:93-109 | Whatever was in the buffer and the counter before, three commands fill it |
| KernelPatcher.RouteVirtual | OC/OC/Kexts/Lilu.kext/Contents/Resources/Headers/kern_patcher.hpp:438-451 | Replaces the entry and hands out the old one exactly when there is a table and the entry is not the hook already; nothing else changes |
| KernelPatcher.RouteEndsIff | OC/OC/Kexts/Lilu.kext/Contents/Resources/Headers/kern_patcher.hpp:438-451 | After any installations, putting the original back included, a call through the entry ends in the original function exactly when no hook was accepted twice since the original was last in place |
| KernelPatcher.HookedAgain | OC/OC/Kexts/Lilu.kext/Contents/Resources/Headers/kern_patcher.hpp:438-451 | Installing f, g and f again, which the check for a repeated hook lets pass, never reaches the original |
| KernelPatcher.WrappingTest | OC/OC/Kexts/Lilu.kext/Contents/Resources/Headers/kern_patcher.hpp:208-224 | The comparison with the sum that wraps is exactly membership in the range of addresses; a range that reaches the end of memory has no members |
| KernelPatcher.Patcher.SolveSymbol | OC/OC/Kexts/Lilu.kext/Contents/Resources/Headers/kern_patcher.hpp:208-224 | An address is returned exactly when the symbol is known at an address of the range, and it is that one; the error is set exactly for known symbols outside it |
| KernelPatcher.Patcher.SolveMultiple | OC/OC/Kexts/Lilu.kext/Contents/Resources/Headers/kern_patcher.hpp:250-274 | True exactly when forced or all symbols are solvable; every solvable request is filled in, up to the first failure if not forced; the error is cleared after a failure |

## Left out

- ThreadLocalObject.ThreadLocal.Deinit: requires that no thread is inside a call; the code does not check it either.
- ThreadLocalProtocol.RefinesMap: assumes sequentially consistent atomics; effects of weaker memory orders are not modelled.
- CircularBufferObject.CircularBuffer.Push: starts when the lock is available; waiting for it is in `RingProtocol` only.
- EVector.EVector.Reserve: the allocator's internals are one flag, and a request of no whole element is served with an empty allocation; a vector that fills the whole address space, whose next count would wrap, is not modelled.
- EVector.EVector.PushBack: an element that lies inside the vector's own storage is not modelled.
- EVector.EVector.Erase: requires an index below the count, which the code does not check.
- CioMailbox.Mailbox.CIOW: the device latches a command when PROG is set, not partly while the fields are being set up.
- CioMailbox.Mailbox.CIOR: a read that times out, and a write, leave RDAT as it is.
- CioMailbox.Mailbox.CRMW: AVND is read once, and what it reads is an arbitrary function of all that has happened.
- RidgeConfig.Ridge.CNHI: bits that a write of one clears, and the effect of restored bus numbers on which device answers, are not modelled.
- RidgeConfig.TreeLayoutFits: the bases are those computed once when the regions are declared; the root port and the upstream port have windows elsewhere.
- PortPower.RunsAreSafe: PSTA and the link disable bit hold what was last written to them, though PCEU may read anything from them; hardware that changes them by itself is not modelled. While a method sleeps other code may change only RTBT and RUSB; other power methods do not interleave. Timer does not wrap.
- PortPower.Controller.Rp01PowerOff: `CTBT`, which only adds a `CRMW`, is left out of `_PS3`; what `UGIO` reports is arbitrary, as its switching is compiled out.
- PortPower.Controller.Nhi0PowerOn: without the call of `CTBT`.
- PortPower.Controller.UpsbPowerOn: without the two `CRMW` calls, which touch none of the modelled flags.
- CpuTopology.Topology.NumberToPhysicalUnique: package numbers that index the array of counts; the code does not check them.
- BufferFields.TaskFile.GTFB: the first argument is a buffer; integers and strings, which the interpreter would convert, are not modelled.
- KernelPatcher.RouteEndsIff: every installation of a function stores what it replaced in that function's own variable.
- KernelPatcher.Patcher.SolveSymbol: the panic on request and the error that the lookup itself may set are not modelled.
- KernelPatcher.Patcher.SolveMultiple: each request has an address variable of its own.
- `ICMD` and its wait for the connection manager: the condition at line 755 of the Thunderbolt source can be read in two ways.
- `UTLK`: its body is compiled out.
- Members declared without a body (pattern search, compression, NVRAM, Mach-O parsing, disassemblers): only comments describe them.
- The configuration file, static tables, small override tables and near-duplicate sources: data, or one branch each.
