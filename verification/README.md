# Govee adapter: verified model of its protocols and state machines

This project models, in Dafny 4.11, the parts of the ioBroker adapter for Govee devices whose correctness depends on
loops, maps, ordering and crashes, and proves what they promise.

| module | what it models |
|---|---|
| `ObjectIds`, `DeviceId`, `DeviceIdText` | object ids, the id rule with its collision ladder, the registry that gives each device one tree, and what an id is made of, character by character |
| `DeviceMove`, `DeviceCopy`, `MoveInvariant`, `MigrationRun`, `TreeMove`, `SeededRegistry`, `DeviceIdMigration` | moving device trees to new ids without a rename: every write and every delete is one step, a crash may fall between any two, and the adapter starts again afterwards |
| `DeviceRoots`, `RefusedWrites`, `RefusedStarts`, `Recovery`, `CollidingTargets` | the same when the store refuses writes and the run goes on: what is kept, when, and the loss when it is not |
| `EnumCarry` | rooms and functions of moved ids |
| `BleFrame`, `SegmentMask`, `SceneSpeed` | the frame codec: checksum, line-continuation framing, bitmask, in-place speed patch |
| `CallGate` | sliding windows over the calls let through, the wait, and the hold after a 429 |
| `ResponseHistory` | the answers kept of a device under three bounds |
| `SendBudgeted`, `CloudRetry`, `AtomicFile` | asynchronous protocols, as steps between the awaits of the source, in any interleaving |
| `DropdownLabels`, `WorkMode`, `WorkModeRules`, `GroupedRestore`, `SegmentCount` | builder, send path and read path of dropdowns; grouped against single restore; learning a segment count |
| `Decimal`, `Ascii`, `Filters`, `Options`, `TimingConstants` | printed numbers and the pigeonhole step, ASCII text, the part of a list that is asked for, optional values, shared waits |

Where the source changes state the model is a class or a method with loops, and its contract equates the new state with
a function of the old one; the properties are then proved of that function, over every run where the source runs on.
Beside the properties stand statements of what an operation computes that speak of its inputs and its result alone: in
numbers, in characters, in places of a list, id by id.

The device trees. `Db` holds the objects, the states and the aliases; `Store` executes one write at a time and follows a
plan that lets each write go through, be refused or be the last one before a crash. `Store.trace` keeps every write a
start tried with the database it left, and a `Start` is the log of one start, tree by tree: its writes lead from the
store it found to the one it left, each changing what it names and nothing else, so a statement about all points of a
log is one about every crash point. Well-formed means: one tree a device, no journal yet, no value on a
device object itself, and no other tree or object on an id the rule can hand out, which every store of version 2
satisfies (`MoveInvariant.LegacyTargetsAreFree`). The order of the object listing is arbitrary, and the order in which
one id of a length or depth is copied or deleted before another is too; the trees are handled in one order that is the
same at every start, as the source sorts them by device id and object id.

- `DeviceIdMigration.SurviveRestarts`: from any well-formed store, through any number of starts that each die at any
  write or not at all, every database ever left behind still holds every object, value and recording of every device
  tree under its old or its new id, and every alias names its own object there; one start left alone brings each device
  to exactly one tree, marked, under the id its registry holds; the next start writes nothing.
- `Recovery.SurviveRefusals`: the same with any refused writes among them, as long as no two trees that have to move
  want the same root (`RefusedWrites.Apart`, a fact of the store before the first start: the root each wants is what the
  rule gives next to the marked trees alone). Every device stands *whole* below its old root or its new one at every
  write, every alias names its own object at one of the two, nothing else of the store changes, and one start left alone
  leaves each device one whole, marked tree. A device may go back and forth between its two roots on the way; `DeviceRoots` is that protocol.
- `CollidingTargets.LoseTheSecond`: and only then. For every two trees that want the same root there is a start that
  refuses some writes, never dies, and ends without any tree of the second device: the first tree is copied and marked,
  its delete is refused, the registry frees the target, the second tree is told that target, its copy is skipped because
  of the mark, and it is deleted (src/lib/device-id-migration.ts:151-160 with src/lib/device-move.ts:221). Two devices of
  one model whose ids end in the same four characters are such a pair (`CollidingTargets.TwoOfAModelCollide`).

What the code does not keep, each with its proof:

- Conservation under a refused write, exactly when two trees want the same root (the two theorems above).
- Room and function entries of a moved tree when the process dies after the delete: the plan is kept in memory only.
  `EnumCarry.CarriedAgainIff` says exactly which enums list the new ids in the end.
- "The first occurrence keeps the original name" (src/lib/dropdown-labels.ts:5) does not hold for a name that an earlier
  repeat took. It holds for a name that is no numbered form of an earlier one (`DropdownLabels.PlainNameStays`) and
  fails for one whose original came often enough (`DropdownLabels.TakenFormIsRenamed`); where no earlier name is a form
  of another, `DropdownLabels.KeepsNameIffUntaken` says exactly when a name is kept.
- A label comes back as its own item exactly when it is not blank, reads as no other key and no earlier label folds to
  the same (`DropdownLabels.LabelResolvesIff`).
- Byte 3 of the first framed packet counts the packets only up to 255 (`BleFrame.CountIsExact`).
- `waitMs` asks for one millisecond more than needed (`CallGate.WaitIsExact`), and a limit that allows no call makes the
  wait no number, which admits every call of the counterpart (`CallGate.NoCallsAllowedAdmitsAll`).
- A push under a segment-count quirk can still end in a rebuild of the tree: the lowered count is parked before the
  quirk is looked at, and the later review does not look at it (`SegmentCount.ParkedUnderAQuirkRebuilds`). The resolved
  count stays the quirk's.

## Model

| member | source | states |
|---|---|---|
| ObjectIds.PrintParse | src/lib/device-move.ts:66-71 | splitting an id into tree root and segments loses nothing |
| ObjectIds.MovedIdIsRootChange | src/lib/device-move.ts:66-71 | the text rule of `movedId` moves exactly the ids of the tree, and changes only their root |
| ObjectIds.MovedBack | src/lib/device-move.ts:66-71 | moving an id to the target and back gives the id again |
| ObjectIds.RootFormIs | src/lib/device-id-migration.ts:82-85 | a device tree stands at one id without a dot below `devices.` or `groups.` |
| Ascii.TrimTrims | src/lib/capability-mapper.ts:525-540 | exactly the white space at the ends is trimmed off a written value |
| DeviceId.Counted | src/lib/device-id.ts:59-65 | the counter loop ends, on the first free id of the ladder, by pigeonhole |
| DeviceId.DeviceIdFor | src/lib/device-id.ts:77-88 | the id is never taken and never the reserved one, whatever is taken, and one of the forms of the rule; what these are made of is `DeviceIdText.GivenByText` |
| DeviceId.CandidateForm | src/lib/device-id.ts:77-98 | every id of the rule is a tree root without an underscore and never a reserved one |
| DeviceId.ChoiceIsStable | src/lib/device-id.ts:59-88 | the id chosen stays the choice while only other ids get taken |
| DeviceId.FreshIdIsRecorded | src/lib/device-id.ts:147-157 | a computed id belongs to no other tree, and its seed cannot fail: it is recorded |
| DeviceId.SeedKeepsInverse | src/lib/device-id.ts:129-139 | a seed is refused or adds one pair; the maps stay mutual inverses |
| DeviceId.KeepKeepsInverse | src/lib/device-id.ts:179-187 | keeping a device on its old tree keeps the maps mutual inverses |
| DeviceId.NoTwoDevicesShareATree | src/lib/device-id.ts:115-225 | under every sequence of seed, prefixFor, keepUnmoved and release no two devices share a tree |
| DeviceId.AssignedTreeIsStable | src/lib/device-id.ts:147-157 | a device's tree is the same for every later call until it is released |
| DeviceId.FailedMoveFreesTheTarget | src/lib/device-id.ts:179-187 | exactly when the device is back on its old tree, that the target is free, and that all others keep theirs |
| DeviceId.FreedTargetIsHandedOn | src/lib/device-id.ts:147-187 | the freed target goes to the next device with the same short id |
| DeviceId.DeviceIdRegistry.PrefixFor | src/lib/device-id.ts:147-157 | the registry object answers and changes as the specification says |
| DeviceId.DeviceIdRegistry.KeepUnmoved | src/lib/device-id.ts:179-187 | the registry object releases, seeds and notes as the specification says |
| DeviceIdText.ModelIs | src/lib/device-id.ts:30-39 | the model half: the letters and digits of the SKU in lower case, all and in order, one hyphen exactly where others stand between two of them, none at an end; `device` only without any |
| DeviceIdText.KeyText | src/lib/device-key.ts:21-23 | a device's key holds its SKU and every character of its id but the colons, in lower case |
| DeviceIdText.GivenByText | src/lib/device-id.ts:30-157 | a device asked for first gets model and last four letters or digits of its id, then model and all of them, then the least free number behind that, each where it is open in its folder |
| DeviceMove.HistoryIsNamedOnce | src/lib/device-move.ts:81-96 | a copied recording goes on under the id it began with, and no later copy, also one back, renames it |
| DeviceMove.CopyObjects | src/lib/device-move.ts:211-262 | wherever it stops, the store is a known point of the copy, shorter ids first and the root of a fresh copy last; at the end every object of the tree is there |
| DeviceMove.CopyStates | src/lib/device-move.ts:211-287 | the same for the values; at the end each id of the target has kept its own value, in a fill, or has its source's datum |
| DeviceMove.RetargetAliases | src/lib/device-move.ts:163-182 | the same for the aliases: each end in the old tree names the new id |
| DeviceMove.CopyDeviceTree | src/lib/device-move.ts:211-287 | wherever the copy dies, the store is one of its points; a whole copy ends in its result, marked unless it only fills, with every value arrived |
| DeviceCopy.StageIsPoint | src/lib/device-move.ts:211-287 | at every point of a copy each object, value and alias is as before or has arrived: a fill keeps every object and every value that is not null and hands settings over only where the kept datapoint has none; objects come before values, values before aliases, shorter ids before longer ones, the device object last |
| DeviceCopy.FinishedIsEnd | src/lib/device-move.ts:211-287 | at the end all of them have arrived, field by field, and at the very last a full copy is marked; a copy that was marked already only has its aliases looked at |
| DeviceCopy.CopyTree | src/lib/device-move.ts:211-287 | the copy as it runs under any plan: all it leaves at any write is such a point, and what it leaves unstopped the end |
| MoveInvariant.LegacyTargetsAreFree | src/lib/device-id.ts:59-98 | in a store of version 2 no id of the new rule is occupied |
| MoveInvariant.IsTreeIff | src/lib/device-id-migration.ts:72-104 | field by field, which objects are the root of a tree that is placed |
| MoveInvariant.InvPreserves | src/lib/device-move.ts:193-210 | the invariant means conservation: every object, value and recording lives, and an alias names its own object where it is now |
| MoveInvariant.JournalKeeps | src/lib/device-id-migration.ts:174-179 | the journal write keeps the invariant |
| MoveInvariant.CopyKeeps | src/lib/device-move.ts:211-287 | every point of a fresh or resumed copy keeps the invariant |
| MoveInvariant.CopyCompletes | src/lib/device-move.ts:211-287 | after the copy nothing of the old tree is needed |
| MoveInvariant.DeleteKeeps | src/lib/device-id-migration.ts:181-188 | every point of the delete keeps the invariant, because the root with the journal goes last |
| MoveInvariant.MarkOwnKeeps | src/lib/device-id-migration.ts:141-146 | marking a tree that already stands under its id keeps the invariant |
| MigrationRun.RemoveTree | src/lib/device-id-migration.ts:181-188 | deepest first and the root last: wherever it stops only a part without the root is gone, no id before a deeper one, and what stopped it was planned |
| MigrationRun.MoveTree | src/lib/device-id-migration.ts:174-202 | journal, copy and delete, in this order, with every point covered; a refused journal changes nothing, a refused delete leaves the whole copy |
| MigrationRun.SeedMarked | src/lib/device-id-migration.ts:122-129 | the first seeding loop over any listing is the specified one |
| MigrationRun.SeedJournals | src/lib/device-id-migration.ts:130-134 | so is the second, over the journals |
| MigrationRun.HandleTree | src/lib/device-id-migration.ts:139-162 | one tree, marked in place or moved: the store stops at a known point, the registry and the complete trees are the ones of that outcome, also after a refused write |
| MigrationRun.MigrateDeviceIds | src/lib/device-id-migration.ts:122-163 | one start under any plan is exactly the logged steps: every write, what it met and what it left, the books at the end, and how many trees moved |
| MigrationRun.RunIsChained | src/lib/device-id-migration.ts:139-202 | the logged writes of a run lead from its first store to its last, no change left out |
| TreeMove.MoveIsStopped | src/lib/device-id-migration.ts:174-202 | whatever write a move is stopped at: nothing was done, or the journal stands and the copy is on its way, or the copy has ended and only ids of the old tree are gone, deeper ones first and the root with all others |
| TreeMove.MoveHasEnded | src/lib/device-id-migration.ts:174-202 | a move that was not stopped: the copy has ended and no object of the old tree is left |
| SeededRegistry.SeedsAre | src/lib/device-id-migration.ts:122-134 | over any listing the registry begins with the marked trees without a journal and with where journals of unmarked ones lead, with nothing else, and leaves none out but for a device or a root that is recorded |
| DeviceIdMigration.MarkedAreRecorded | src/lib/device-id-migration.ts:122-129 | in a reachable store exactly the marked trees without a journal are complete, and their devices are recorded at home |
| DeviceIdMigration.JournalsAreRecorded | src/lib/device-id-migration.ts:130-134 | then the target of every interrupted move is recorded for its device |
| DeviceIdMigration.FreshIdIsFree | src/lib/device-id-migration.ts:139-148 | a target the registry computes for an unmoved device is occupied by nothing |
| DeviceIdMigration.JournalDecides | src/lib/device-id-migration.ts:130-140 | a start after the journal was written picks the same target |
| DeviceIdMigration.StartIsSound | src/lib/device-id-migration.ts:122-163 | a start that dies anywhere passes reachable stores only, converges when left alone, and does not write a quiet store |
| DeviceIdMigration.ReachableIsSound | src/lib/device-id-migration.ts:122-202 | every reachable store conserves every tree, and every alias follows its own object |
| DeviceIdMigration.ConvergedIsQuiet | src/lib/device-id-migration.ts:106-121 | after a start left alone the next one has nothing to move |
| DeviceIdMigration.SurviveRestarts | src/lib/device-id-migration.ts:122-202 | for the given plans of any starts that die anywhere: conservation at every write of every start, convergence of the one left alone, and nothing written by the next |
| DeviceRoots.PointIsGood | src/lib/device-id-migration.ts:139-202 | whatever point the handling of a root is stopped at, one of the two roots of the device is whole |
| DeviceRoots.RefusalKeepsReady | src/lib/device-id-migration.ts:151-160 | after a refused write the root that still waits can be handled safely |
| DeviceRoots.DoneKeepsReady | src/lib/device-id-migration.ts:139-150 | so it can after a tree was dealt with |
| DeviceRoots.DoneSettles | src/lib/device-id-migration.ts:139-150 | in a start without refusals one root is left of each device, marked and whole |
| RefusedWrites.DestinationsOk | src/lib/device-id.ts:77-88 | the roots the unmarked trees want are free and, when they are apart, differ |
| RefusedWrites.MoveHolds | src/lib/device-id-migration.ts:174-202 | every point of a move in either direction keeps the versions, the aliases and everything else, and takes the two roots through the protocol |
| RefusedWrites.MoveEnds | src/lib/device-id-migration.ts:174-202 | so does its end: the source gone, the target with all it had and all the source had |
| RefusedStarts.FreshIsDestination | src/lib/device-id.ts:147-157 | whatever was refused before, a device the registry does not know is told the root it wants |
| RefusedStarts.KeepKeeps | src/lib/device-id.ts:179-187 | a refused tree holds its own root for the rest of the start and no other device notices |
| RefusedStarts.SeededDevice | src/lib/device-id-migration.ts:122-137 | the seeding leaves every device recorded at a complete root, else where a journal of its own leads, else unknown |
| RefusedStarts.StepIsSafe | src/lib/device-id-migration.ts:139-162 | one tree of the loop, dealt with, refused or died in: all its points are safe, and the run goes on safely |
| RefusedStarts.SafeIsKept | src/lib/device-move.ts:193-210 | a safe store has every device whole below one of its two roots, with its aliases, and all else unchanged |
| RefusedStarts.HistoryKeepsAll | src/lib/device-id-migration.ts:122-163 | at every write of any starts with any plans, when no two trees want the same root |
| Recovery.EndIsSettled | src/lib/device-id-migration.ts:122-163 | after a start in which nothing is refused each device has exactly one tree, whole and marked |
| Recovery.SurviveRefusals | src/lib/device-id-migration.ts:122-202 | for the given plans of any starts with any refusals and deaths: everything kept at every write, and one whole marked tree a device after the start left alone |
| CollidingTargets.AskedTarget | src/lib/device-id.ts:147-187 | both colliding trees are told the same target, because the refused one is released |
| CollidingTargets.LossEnds | src/lib/device-id-migration.ts:151-160 | every log of a start under that plan ends without a tree of the second device |
| CollidingTargets.LoseTheSecond | src/lib/device-id-migration.ts:139-162 | the start as it runs: on any well-formed store with two trees that want the same root, nothing dies and a device is lost |
| CollidingTargets.TwoOfAModelCollide | src/lib/device-id.ts:77-88 | a store of version 2 with two devices of one model whose ids end alike is well-formed, and they want the same root |
| EnumCarry.CarryPlan | src/lib/enum-carry.ts:87-103 | the plan holds exactly the enums with a moved member, and in each exactly those |
| EnumCarry.Carry | src/lib/enum-carry.ts:115-172 | for any delete at all: planned enums are rewritten from what it left, no other enum is written |
| EnumCarry.CarryResult | src/lib/enum-carry.ts:115-150 | successors in, at the end, moved ids out, no added duplicate, every other freshly read member kept in its order |
| EnumCarry.TreeCarry | src/lib/enum-carry.ts:152-172 | an enum of a moved tree lists the same ids of the new tree and none of the old one |
| EnumCarry.CarryAndDie | src/lib/enum-carry.ts:115-150 | a carry that dies after any number of writes: those enums are written, the others as the delete left them |
| EnumCarry.CarriedAgainIff | src/lib/enum-carry.ts:115-150 | exactly which enums list all new ids, left so and carried again at the next start |
| EnumCarry.CarryAfterDeath | src/lib/enum-carry.ts:115-150 | the two starts as they run |
| EnumCarry.TreeFound | src/lib/enum-carry.ts:152-172 | for a device tree: the old or the new id is in what the delete left |
| BleFrame.XorChecksum | src/lib/ble-frame.ts:32-38 | the loop computes the exclusive or of the bytes |
| BleFrame.ChecksumIsParity | src/lib/ble-frame.ts:32-38 | a bit of the checksum is set exactly when an odd number of bytes have it |
| BleFrame.DecodeBleFrame | src/lib/ble-frame.ts:48-57 | accepts exactly 20 bytes whose last is the checksum of the others |
| BleFrame.OneByteChangeIsRefused | src/lib/ble-frame.ts:32-57 | any change of a single byte of an accepted frame is refused |
| BleFrame.FinishPacket | src/lib/ble-frame.ts:64-70 | the bytes, zeros up to 19, and the checksum |
| BleFrame.BuildAFramedPackets | src/lib/ble-frame.ts:86-114 | the loops build the specified packets |
| BleFrame.FramingRoundTrip | src/lib/ble-frame.ts:86-158 | stripping openings and checksums gives the payload and fewer than 19 zeros; every packet is an accepted frame |
| BleFrame.FirstPacket | src/lib/ble-frame.ts:86-158 | the header of the first packet, its count, and its mark when it is the only one |
| BleFrame.FurtherPacket | src/lib/ble-frame.ts:86-158 | prefix and number of each further packet, 0xff on the last |
| BleFrame.CountIsExact | src/lib/ble-frame.ts:101-109 | byte 3 is the packet count exactly up to 255 packets |
| BleFrame.NumbersInOrder | src/lib/ble-frame.ts:86-114 | up to 255 packets the numbers are in order and only the last is marked |
| SegmentMask.BuildSegmentBitmask | src/lib/ble-frame.ts:200-210 | exactly the bits of the given segments are set, the least bit of the first byte for segment 0 |
| SceneSpeed.ApplySceneSpeed | src/lib/ble-frame.ts:269-318 | the in-place loop computes the specified bytes; without a configuration nothing changes |
| SceneSpeed.SpeedBytesWritten | src/lib/ble-frame.ts:269-318 | in every page of at least five bytes the fifth from the end takes the level its first entry declares, as a byte, or stays; the pages follow each other as their length bytes say, and nothing else changes |
| SceneSpeed.OnlySpeedBytes | src/lib/ble-frame.ts:269-318 | same length, same pages, and only the speed bytes of pages that declare the level differ |
| SceneSpeed.LastLevelWins | src/lib/ble-frame.ts:269-318 | two levels in turn are the last alone exactly when no page keeps the first one's byte |
| SceneSpeed.InRangeLevelsOverwrite | src/lib/ble-frame.ts:269-318 | so it is for two levels that the same pages declare |
| CallGate.KeyDetermines | src/lib/call-gate.ts:146-148 | a window's key determines counterpart, index and scope, so no two limits share calls by accident |
| CallGate.Gate.WaitMs | src/lib/call-gate.ts:40-53 | the loop over the limits computes the specified wait and prunes the windows |
| CallGate.Gate.TryAdmit | src/lib/call-gate.ts:61-73 | admits exactly when the wait is zero; a refused call only prunes |
| CallGate.Gate.Admit | src/lib/call-gate.ts:81-85 | alone it delays at most once, for exactly the wait asked for, and counts once |
| CallGate.Gate.Https | src/lib/call-gate.ts:91-113 | an undeclared or held host is refused uncounted; a sent request fitted, was counted once, and a 429 holds its host for the seconds it names between 5 and 3600, a minute where it names none |
| CallGate.WaitIsLongest | src/lib/call-gate.ts:40-53 | the wait is the longest any full limit asks for |
| CallGate.WaitIsExact | src/lib/call-gate.ts:40-53 | a call that must wait fits exactly from one millisecond before its wait is over |
| CallGate.ReachableWaitIsExact | src/lib/call-gate.ts:40-85 | the same in every reachable state |
| CallGate.FitsIffRoomInWindows | src/lib/call-gate.ts:40-73 | after any run a call fits exactly when, for every limit of up to an hour, the calls let through in the window that ends now are fewer than it allows |
| CallGate.WindowSafety | src/lib/call-gate.ts:40-73 | in every run, no window of any short limit ever holds more than its number of calls |
| CallGate.RefusedCountsNothing | src/lib/call-gate.ts:61-73 | after a refused call no later decision of any counterpart differs |
| CallGate.PruneIsInvisible | src/lib/call-gate.ts:150-155 | forgetting calls out of the window changes no later decision |
| CallGate.NoCallsAllowedAdmitsAll | src/lib/call-gate.ts:47-51 | a limit of zero calls admits everything |
| CallGate.HoldLength | src/lib/call-gate.ts:120-144 | the end of a hold in milliseconds, for every answer and every earlier hold, and that the host is free exactly from it on |
| CallGate.HoldIsBounded | src/lib/call-gate.ts:139-144 | a hold lies between 5 s and an hour and never shortens an earlier one |
| CallGate.HoldNeverShrinks | src/lib/call-gate.ts:120-144 | over every run a hold's end never comes closer while it lasts |
| ResponseHistory.DeviceBuffers.AppendResponse | src/lib/diagnostics.ts:1048-1099 | the running total stays the sum over all entries, and the lists become the specified ones: the answer stored, all others kept but for the byte budget |
| ResponseHistory.AppendIsBounded | src/lib/diagnostics.ts:1048-1099 | six answers an endpoint, no two alike, 24 endpoints, the newest kept, and the bytes in the budget or it alone |
| ResponseHistory.HistoryKeepsTheRest | src/lib/diagnostics.ts:1048-1099 | after any answers a further one drops exactly its earlier copy, or the oldest of six of its endpoint, and for a 25th endpoint exactly the one stored first; all else stays in order, and within the byte budget nothing goes |
| ResponseHistory.HistoryIsBounded | src/lib/diagnostics.ts:1048-1099 | the same after any answers |
| ResponseHistory.HistoryEvictsOldestFirst | src/lib/diagnostics.ts:1078-1098 | what goes for its bytes is no newer than anything kept besides the newest |
| ResponseHistory.EvictsNoMoreThanNeeded | src/lib/diagnostics.ts:1078-1098 | an entry that an append evicted for its bytes, and with it they were over the budget |
| ResponseHistory.RepeatIsCounted | src/lib/diagnostics.ts:1049-1062 | a repeated answer replaces the earlier one and keeps its first time and its count |
| DropdownLabels.DisambiguateLabels | src/lib/dropdown-labels.ts:14-32 | the loops end, by pigeonhole, with the specified labels |
| DropdownLabels.LabelsAreUnique | src/lib/dropdown-labels.ts:14-32 | one label a name, no two alike, for every list |
| DropdownLabels.LeastFreeForm | src/lib/dropdown-labels.ts:14-32 | a label is the name where that is free, else the name with the least number from 2 on that makes it free |
| DropdownLabels.PlainNameStays | src/lib/dropdown-labels.ts:3-32 | a first occurrence that is no numbered form of an earlier name keeps its name |
| DropdownLabels.TakenFormIsRenamed | src/lib/dropdown-labels.ts:3-32 | the n-th form of a name that came more than n times before is renamed, first occurrence or not |
| DropdownLabels.KeepsNameIffUntaken | src/lib/dropdown-labels.ts:3-32 | exactly when a name is kept, from the names alone, where no earlier name is a form of another |
| DropdownLabels.SingleNameTakesAForm | src/lib/dropdown-labels.ts:3-32 | else a name that came once can take a form too: a four-element list |
| DropdownLabels.FirstOccurrenceRenamed | src/lib/dropdown-labels.ts:3-32 | for every name a three-element list renames a first occurrence |
| DropdownLabels.BuildUniqueLabelMap | src/lib/dropdown-labels.ts:45-52 | the sentinel at 0 and one key an item, in order, each with its label |
| DropdownLabels.KeysResolve | src/lib/dropdown-labels.ts:45-115 | in a built map every key resolves to its own item, as number and as text |
| DropdownLabels.LabelResolvesIff | src/lib/dropdown-labels.ts:82-115 | exactly when a written label resolves to its own item |
| DropdownLabels.LookupIsComplete | src/lib/dropdown-labels.ts:82-115 | for a number and a text: the item with that key, else for a text the first whose label reads the same, and nothing only when nothing matches |
| WorkMode.ClassifyModeLevels | src/lib/capability-mapper.ts:858-919 | the loops compute the specified shape; which it is, is `WorkModeRules.ClassifyIs` |
| WorkMode.MapWorkMode | src/lib/capability-mapper.ts:993-1087 | the definitions built are the specified ones |
| WorkMode.EveryLevelIsOffered | src/lib/capability-mapper.ts:858-919 | the level dropdown offers every level of every group |
| WorkMode.WrittenLevelFindsItsMode | src/lib/capability-mapper.ts:930-964 | the command for an offered level names a mode that owns it |
| WorkMode.LevelRoundTrip | src/lib/capability-mapper.ts:930-2031 | an offered level, written and read back, shows exactly its mode's key and its own, both in the built lists |
| WorkMode.ModeRoundTrip | src/lib/capability-mapper.ts:930-2031 | for an offered mode key: exactly when a command exists, and what both datapoints read back |
| WorkMode.ModeTakesItsOwnLevel | src/lib/capability-mapper.ts:930-2031 | a mode with a group of its own always gets a command, for the level shown if it is of the group, else its first, and both read back |
| WorkMode.ReadingsFitDefinitions | src/lib/capability-mapper.ts:1958-2046 | every reading kept fits the shape and the list of the datapoint the builder made |
| WorkModeRules.PickIs | src/lib/capability-mapper.ts:525-540 | a written value picks the first option of that value, else the first of that label in whatever case, else none |
| WorkModeRules.ClassifyIs | src/lib/capability-mapper.ts:858-919 | from the declared levels and ranges alone: a dropdown exactly when there is no range, every level has a name and no two groups share one, with exactly these levels; else a number from the least to the greatest of them, and nothing only without any |
| WorkModeRules.DefinitionsAre | src/lib/capability-mapper.ts:993-1087 | which datapoints are created, with exactly the named modes in the list of the first and the shape or the range in the second |
| WorkModeRules.CommandIs | src/lib/capability-mapper.ts:930-964 | when there is a command and what it holds: the mode of the group the level belongs to or the one picked, and of its list the level picked or the first, else a value kept inside its range, its default, or 0 |
| WorkModeRules.ReadingsAre | src/lib/capability-mapper.ts:1958-2046 | exactly which readings of a reported mode and level are kept, and in which form |
| SendBudgeted.CommandSlot.AttemptFailed | src/lib/command-router.ts:217-228 | the decision to send again, and the pause |
| SendBudgeted.EveryRunIsSafe | src/lib/command-router.ts:202-235 | at most one attempt and the retries, only after unsent failures, in the order of the writes, and no pause past the window |
| SendBudgeted.RetriesIff | src/lib/command-router.ts:202-235 | after any run a failed attempt is repeated exactly when it never reached the server, is of the newest write, is its first or second, and its pause of 1 s or 2 s ends within 10 s of the first; then the write is handed over once more |
| SendBudgeted.SettledStays | src/lib/command-router.ts:202-235 | a write that was sent or given up stays so, and nothing of it is handed over again |
| SendBudgeted.SupersededStaysSilent | src/lib/command-router.ts:202-235 | once a newer write has begun nothing of an older one is handed over |
| CloudRetry.CloudRetryLoop.Handle | src/lib/cloud-retry.ts:108-139 | the reaction to each outcome of a load |
| CloudRetry.AtMostOneTimer | src/lib/cloud-retry.ts:41-178 | in every run one pending timer at most, none once stopped, every pause in its bounds |
| CloudRetry.LoadsStartOnlyWhenWanted | src/lib/cloud-retry.ts:140-177 | in every run each load comes from a timer armed before it and starts from the one pending timer, never while connected or stopped |
| CloudRetry.NothingAfterDispose | src/lib/cloud-retry.ts:80-87 | after an unload nothing is armed, loaded or restored, whatever still arrives |
| CloudRetry.FailureRearms | src/lib/cloud-retry.ts:108-157 | a failure of a loop still wanted leaves exactly one timer |
| CloudRetry.FailureArms | src/lib/cloud-retry.ts:103-157 | what every failure does, in milliseconds: a rejected key stops the loop; any other arms one timer, after five minutes or what the answer names between 5 s and an hour, unless one is pending or none is wanted |
| CloudRetry.TimerLoads | src/lib/cloud-retry.ts:150-177 | the timer of a loop that is wanted loads when it fires, and a load that succeeds connects and restores |
| CloudRetry.StoppedStaysSilent | src/lib/cloud-retry.ts:80-93 | a stopped loop arms, loads and restores nothing until a key is accepted |
| CloudRetry.RateLimitPause | src/lib/device-manager.ts:112-121 | a 429 of the device list pauses a minute without a number of seconds, else the seconds named between 5 s and an hour |
| AtomicFile.FileWriter.WriteFileAtomic | src/lib/atomic-file.ts:31-34 | a call joins the chain behind the one before it |
| AtomicFile.EveryRunIsAtomic | src/lib/atomic-file.ts:4-43 | any interleaving of writers with crashes: in turn, own data, whole target, renames in call order; that a write lands is `AtomicFile.WriteLands` |
| AtomicFile.WriteLands | src/lib/atomic-file.ts:20-42 | from any reachable state the first call in line, granted its five steps, leaves its data in the target and has succeeded, and no other call is touched |
| AtomicFile.FailsIffRefused | src/lib/atomic-file.ts:20-42 | in any run a call has failed exactly when one of its steps was refused |
| AtomicFile.TargetIsWhole | src/lib/atomic-file.ts:6-10 | the target is its first content or the complete data of one call that was made, before and after any crash |
| AtomicFile.OneWriter | src/lib/atomic-file.ts:11-12 | no two calls use the temporary file at once |
| AtomicFile.QueueMovesOn | src/lib/atomic-file.ts:31-42 | no failure blocks the calls behind it |
| GroupedRestore.RestoreSegmentsGrouped | src/lib/device-baseline.ts:99-120 | the loop sends the specified batches in order |
| GroupedRestore.BatchesPartition | src/lib/device-baseline.ts:104-116 | one batch a look with exactly its indices, none left out |
| GroupedRestore.GroupedRestoreRefinesIff | src/lib/device-baseline.ts:85-120 | for all segments: the batches leave the strip as single writes do exactly when, for every index, its last look is the one of its looks that was captured first the latest |
| GroupedRestore.GroupedRestoreRefines | src/lib/snapshot-handler.ts:120-126 | so they do for the captures both callers pass, numbered by their place |
| GroupedRestore.RestoredLooks | src/lib/device-baseline.ts:99-120 | then every captured segment shows its colour and brightness, black and 100 where they are missing, and every other one what it showed |
| GroupedRestore.BatchMask | src/lib/ble-frame.ts:200-238 | a batch's colour mask has exactly the bits of the segments with its look |
| SegmentCount.SegmentLearner.ProcessMqttSegmentPacket | src/lib/device-manager.ts:1865-1916 | a push adopts, confirms or forwards as specified |
| SegmentCount.SegmentLearner.ReviewDeferredSegmentShrink | src/lib/device-manager.ts:1952-1963 | the masks judge a parked count |
| SegmentCount.EveryRunIsLearned | src/lib/device-manager.ts:1865-1983 | every adopted count was pushed, lies in 1 to 56, and is lower only with a complete push that is no guess or that the masks confirm |
| SegmentCount.PushDecides | src/lib/device-manager.ts:1865-1983 | every outcome of a push, from its highest index, the count in use, the quirk, its two flags and the masks: when it is ignored, adopted, learned, parked, and which of its indices are forwarded |
| SegmentCount.MasksDecide | src/lib/device-manager.ts:1952-1983 | a parked count is adopted exactly when the masks say the same and it is lower than the count in use; it is parked no longer either way |
| SegmentCount.QuirkHoldsTheCount | src/lib/device-manager.ts:1881-1886 | a valid quirk holds the resolved count through every run |
| SegmentCount.QuirkedStepAdoptsIff | src/lib/device-manager.ts:1881-1963 | exactly when a step under a quirk still adopts a count |
| SegmentCount.ParkedUnderAQuirkRebuilds | src/lib/device-manager.ts:1889-1963 | a push parked under a quirk ends in a rebuild |
| SegmentCount.SegmentCountFromSnapshotFrames | src/lib/device-manager/lookups.ts:183-211 | one more than the highest segment any frame addresses |
| SegmentCount.BuiltMaskNamesTheCount | src/lib/device-manager/lookups.ts:183-211 | a frame with the built mask of a strip names exactly its count |

## Left out

- SurviveRefusals: does not promise that a further start writes nothing, because a root that was left with mark and journal gets its mark again at every start; and it takes the order of the trees as the same at every start, as the source sorts them.
- What the adapter writes into its trees between two starts: the starts of a history follow each other directly.
- The link of a device object to its reachability state: what a copy makes of it is stated (`DeviceCopy.StageIsPoint`), but the conservation statements over whole starts do not speak of it.
- Reads that fail, log lines, and the counters of the move report: a read that fails inside a move ends it like a refused write at that place, and the model lets only writes fail; the migration stops the start when its first read fails.
- The namespace prefix of ids: every id of the adapter carries the same one, so it is dropped; ids outside the adapter stay as they are.
- The delete of an object also removes its state, as the store does it; other writers do not exist while the migration runs (src/main.ts:736-746).
- Carry: the enums are not part of the store of the migration; reads and writes of enums that fail are left out, as are the listing helper `enumsHolding` and the single-id entry `moveWithEnums`.
- Base64, JSON and regular expressions: bytes, records and parsed numbers are the inputs; a text option value carries the number it reads as.
- Letters and white space are those of ASCII where the source folds or trims text.
- Option lists and members are taken without null entries, and level and mode values are whole numbers.
- Colour conversion, the forced colour mode before a batch, and the transport of a batch: a batch sets the look of its segments.
- WorkModeRules.ClassifyIs: where one group lists a value twice, it says that the caption is that of one of the two, not that it is the later one's.
- CallGate: a call that already waits is let through although a hold begins meanwhile, as in the source; the model of whole runs has no requests beyond their steps at the gate.
- AtomicFile: one target file, since files do not share a chain; the file mode.
- SendBudgeted: one slot, since slots share nothing; the limiter behind a hand-over, which may reorder calls.
- `resolveTransport`, `toCloudValue` and `parseSegmentBatch` of the command router, music modes, temperature settings and the other capability branches: short decisions without a property over several steps.
- The rest of the diagnostics collector: logs, packets, redaction and reports.
- The packet parser of segment pushes and the learning of push reports: a push comes as its indices and its two flags.
- `rate-limiter.ts`, the reconciler, the outage tracker, the admin card and the wiring in `main.ts` are not part of this model.
