# Verified model of a field-bus gateway's control core

This project models the parts of the Multi-Bus Gateway that decide what goes
out on a field bus, in which order, and what is made of the answer, and proves
what they promise. `dafny verify dfyconfig.toml` checks the whole project.

Paths in the table are relative to the root of the gateway's repository.

## What is modelled

* **Command dispatch** (`LaneModel`, `LaneTurns`, `DispatchModel`,
  `DispatchRuns`, `DispatchOutcomes`, `LaneObject`, `DispatcherObject`). A lane per wire, round-robin over the
  devices that wait there, bounded slots per device and channel, a newer value
  taking the place of one that waits, deadlines, urgent reverts, and withdraw,
  cancel, close and stop. The condition lock makes each section one step, so
  the dispatcher is a state machine over those steps. `LaneObject.Lane` and
  `DispatcherObject.CommandDispatcher` are the objects the source updates in
  place; each method is proved to be one step of the machine, and the theorems
  are about every interleaving of steps.
* **Channels, frames, reads and the run of a command** (`Channels`,
  `ChannelFacts`, `Expressions`, `Wire`, `WriteValues`, `Frames`, `Blocks`,
  `ReadNamed`, `Params`, `Verdict`, `RunRules`, `RunFacts`). The union-find that puts commands
  on channels, the expressions of a template, the encoding of values into
  registers, the merging of writes into frames, the greedy batching of reads, the
  normalizing of parameters, and the guard, write, verify run with its verdict
  over a connection that may answer anything.
* **When coalescing is sound** (`Coalesce`, `CommandRuns`, `CoalesceLosses`). This
  joins the two: what the queue transformation of the dispatcher leaves in the
  device's registers, where each run reads its guards and scale factors from those
  registers just before it writes; that such a run is the command engine's over a
  connection that tells the truth; and the queues for which something is lost.
* **CAN signals** (`NatBits`, `CanSignal`, `CanRows`). Bit placement in both
  byte orders, extraction by shifts over whole-frame numbers, signs, the checks
  of a template row, and the overlap warnings.
* **The channel referee** (`Referee`, `Arbiter`). Which rule writes, and the
  motor protection with its sliding hour and its copy on a partner's clock.
* **Serial frames** (`Crc`, `CrcBits`, `SerialFrames`). The Modbus CRC-16 of
  "MODBUS over Serial Line Specification and Implementation Guide V1.02"
  (section 2.5.1 and Appendix B, 6.2), as a linear machine over bits, and the
  line errors it catches in frames of every length.
* **Smaller machines.** The audit log and its rotation (`Audit`), a standby
  keeping its own settings (`ConfigTree`, `KeepLocal`), alarms as alerts
  (`Alarms`, `AlarmRuns`), the alert hysteresis (`Hysteresis`), who may poll a
  bus (`BusClaims`), the throttle of linked calculations (`Throttle`), and the
  attribute document others may write too (`AttributeDoc`,
  `AttributeFacts`, `DocumentStore`).

## What turned out not to hold, and when it does

Each of these is a lemma with the exact condition, a concrete input, or both.

* Putting a newer value in the place of one that waits does not always leave
  what both in their turn would. A lane that coalesced differs exactly when the
  replacement does (`Coalesce.CoalescingIsReplacing`); and where the jobs behind
  write other cells, that is exactly when the command alone leaves something else
  in the new place, or the jobs behind do after the newer value
  (`Coalesce.ReplacingIsUpToTheCommand`). It fails in four ways:
  * a job behind changes a scale factor the value is encoded with
    (`multibus/commands.py:313-320`, `519-520`): exactly when the words differ
    (`Coalesce.ReplacingLosesOnlyWhenScaledAnew`; 6 where 60 was meant in
    `CoalesceLosses.ScaleChangeIsLost`);
  * a job behind reads what the command writes, and so goes out by the newer value
    where it was meant to by the older one (`CoalesceLosses.ReadBehindIsLost`);
  * the newer value is refused when its turn comes, and the older one is lost with
    it (`Coalesce.ReplacingLosesOnlyWhenRefused`, `Coalesce.ReplacingNeverLosesWhen`,
    `CoalesceLosses.RefusedValueIsLost`);
  * jobs behind write some of the same cells, by registers with overlapping spans,
    which `multibus/config.py:55-58` only warns about: exactly when a shared cell is
    left otherwise (`Coalesce.ReplacingLosesOnlyOnSharedCells`,
    `CoalesceLosses.OverlapIsLost`).
* Two channels can get one id: exactly when a group that names channels has the
  id that a group naming none spells out (`ChannelFacts.IdsAreExact`), which for
  names that are identifiers means that its smallest channel name is the name of
  one command alone on a channel of its own
  (`ChannelFacts.ClashIsWithOneCommand`, `ChannelFacts.IdsMayCollide`). A command
  that names its channel after itself is no such case.
* A verify rule whose expectation has no value with the call's parameters ends a
  run with an error after every frame went out. `Verdict.RunCommand` states for
  which connections, `RunRules.MayRaiseLate` for which commands there is such a
  connection, `Expressions.BreaksExactly` and `Expressions.OnlyZeroBreaks` for which
  parameters an expression has no value. The template's check
  (`multibus/device_template.py:1272-1278`) tries one sample of each parameter and
  does not exclude it: a command that expects a hundred over its value passes, and
  breaks off for exactly the value zero (`RunRules.CheckedMayRaiseLate`).
* Normalizing parameters twice can fill in what the first pass left open:
  exactly when a parameter that takes no value has an alias that is the name of
  one that takes a value (`Params.TwiceIsOnce`, `Params.AliasMayBorrow`).
* The wait told for the starts limit ends that limit only when few enough
  starts remain once those of the oldest instant are an hour old
  (`Arbiter.WaitEndsTheReason`); under fixed settings it always does
  (`Arbiter.LawfulWaitsEnd`), after the limit was lowered it may not
  (`Arbiter.LoweredLimitHoldsOn`).
* Audit lines are read back as they were written exactly when none of those
  still held has a line break of `str.splitlines` in it
  (`Audit.ReadBackIsExact`); an entry with a Unicode line separator in its
  target is written and not read back (`Audit.BrokenLinesAreMissed`,
  `Audit.SeparatorHidesAnEntry`).
* A piece between two such separators that is JSON by itself is read back as an
  entry nobody appended, and breaks off a search by user when it is no object
  (`Audit.EnclosedIsReadBack`).
* One damaged byte of an answer can pass the probe of a bridge, but only the
  function byte or the byte count, and only by stating another length
  (`SerialFrames.OneByteSlipsOnlyInTheLength`); for either there is an answer of one
  register that passes (`SerialFrames.LengthDamageMaySlip`,
  `SerialFrames.FunctionDamageMaySlip`).
* Devices saved together are not checked against one another
  (`BusClaims.SaveIsCleanWhen`, `BusClaims.SavedTogetherMayClash`).

## Model

| member | source | states |
|---|---|---|
| LaneModel.AdmitPlaces | multibus/command_dispatch.py:178-210 | admitting a job keeps the lane well formed, moves nothing but the job and the one it supersedes, and tells exactly the refused or superseded one, which had the same intent |
| LaneModel.AdmitDecides | multibus/command_dispatch.py:178-210 | when a refresh is put off, when a newer value takes the slot tail's place in the queue, when a full slot refuses, and where an admitted job waits |
| LaneModel.AdmitKeepsSlots | multibus/command_dispatch.py:178-210 | no slot of a device and channel ever exceeds its cap |
| LaneModel.DropKeeps | multibus/command_dispatch.py:97-109 | taking jobs back keeps the order of devices in step with their queues, and every other job waiting where it was |
| LaneModel.DropKeepsOrder | multibus/command_dispatch.py:97-109 | the devices that still have work keep their order, and so do the reverts |
| LaneModel.NextTakes | multibus/command_dispatch.py:111-126 | a pick takes one waiting job, leaves every other waiting, keeps the lane well formed, and finds none exactly when none waits |
| LaneTurns.WaitIsBounded | multibus/command_dispatch.py:111-126 | a device waiting at index i of the order sees at most i turns of others go by, whatever is admitted, withdrawn or reverted meanwhile |
| LaneTurns.DrainInQueueOrder | multibus/command_dispatch.py:111-126 | a drained lane starts, per device, the reverts in arrival order, then the queue in order |
| LaneTurns.RevertsDrainFirst | multibus/command_dispatch.py:111-126 | waiting reverts start before anything else |
| DispatchRuns.RunKeeps | multibus/command_dispatch.py:129-413 | every interleaving of submit, tell, withdraw, cancel, close, stop, pick, finish, free, idle-end and time keeps the dispatcher's invariant |
| DispatchRuns.EveryJobIsInOnePlace | multibus/command_dispatch.py:154-413 | in every reachable state each submitted job is in exactly one place (waiting, running, leaving, told), and is told once |
| DispatchRuns.OnlyTheRightJobsStart | multibus/command_dispatch.py:260-397 | a job starts at most once, and is told a verdict of a run exactly when it started; after close only reverts start, after stop returned nothing does |
| DispatchRuns.OneRunPerLane | multibus/command_dispatch.py:341-397 | two started jobs of one lane that are not told yet are one job |
| DispatchOutcomes.StartsInTime | multibus/command_dispatch.py:161-163 | over every run: a job that is no revert and was handed in with an age m other than zero never starts later than m after it was handed in |
| DispatchOutcomes.PickedStartsUnlessLate | multibus/command_dispatch.py:363-371 | a picked job starts there and then, exactly unless it has such an age and that time was over |
| DispatchOutcomes.ExpiredWasTooLate | multibus/command_dispatch.py:364-376 | a job told that it expired was handed in with such an age, and was picked after its time was over |
| DispatchOutcomes.OutcomesAreEarned | multibus/command_dispatch.py:154-413 | every outcome told, or about to be, was earned by an event of the run: handed in while stopping, put off or refused by what its slot held, superseded by a job of the same intent, withdrawn, cancelled or closed while it waited, picked too late, or run |
| DispatchOutcomes.SubmitTakes | multibus/command_dispatch.py:164-210 | exactly when a job handed in waits from then on, and which one job leaves for it |
| DispatchOutcomes.SubmitStarts | multibus/command_dispatch.py:165-173 | a lane's thread is started exactly for a job that waits from then on |
| DispatchOutcomes.WithdrawTakes | multibus/command_dispatch.py:236-243 | a withdrawal takes that job and no other |
| DispatchOutcomes.CancelTakes | multibus/command_dispatch.py:245-258 | a cancellation takes and tells exactly what waits for the device named, or for any |
| DispatchOutcomes.CloseTakes | multibus/command_dispatch.py:260-274 | closing takes and tells exactly what waits and is no revert |
| DispatchOutcomes.EndStopTakes | multibus/command_dispatch.py:282-286 | the end of a stop takes and tells all that waits |
| DispatchOutcomes.FlagsAre | multibus/command_dispatch.py:260-286 | it is closed, stopping or stopped exactly when it was told so, and its clock shows the time that went by |
| DispatchRuns.ServingGoesOn | multibus/command_dispatch.py:341-413 | while a job is not told, some serving step is enabled |
| DispatchRuns.EveryJobIsTold | multibus/command_dispatch.py:334-413 | in whatever order lanes and callers take their serving steps, there are exactly as many as were to come when no more is enabled, and then every job is told |
| DispatchRuns.ServingEnds | multibus/command_dispatch.py:334-413 | every run of serving steps can be carried on until none is enabled |
| DispatchRuns.NoJobIsStranded | multibus/command_dispatch.py:334-413 | from every reachable state every run of serving steps ends within three steps a job and one a lane, and leaves no submitted job untold |
| DispatchRuns.LanesAreServed | multibus/command_dispatch.py:334-397 | a lane with waiting jobs has its thread, and no slot is over its cap, in every reachable state |
| LaneObject.Lane.Remove | multibus/command_dispatch.py:97-109 | removing in place is dropping exactly that job from the lane |
| LaneObject.Lane.PopNext | multibus/command_dispatch.py:111-126 | picking in place is the model's pick |
| LaneObject.Lane.Place | multibus/command_dispatch.py:178-210 | placing in place is the model's admission |
| DispatcherObject.CommandDispatcher.Submit | multibus/command_dispatch.py:154-176 | a submission is one step: refused once stopping, else admitted, the outcome of what it displaced told outside the lock |
| DispatcherObject.CommandDispatcher.Withdraw | multibus/command_dispatch.py:236-243 | a withdrawal is one step, and answers whether the job still waited |
| DispatcherObject.CommandDispatcher.Cancel | multibus/command_dispatch.py:245-258 | a cancellation takes out exactly the waiting jobs of the device, or all |
| DispatcherObject.CommandDispatcher.Close | multibus/command_dispatch.py:260-274 | closing takes out every waiting job but the reverts |
| DispatcherObject.CommandDispatcher.EndStop | multibus/command_dispatch.py:282-286 | the end of a stop takes out everything that waits |
| DispatcherObject.CommandDispatcher.PickNext | multibus/command_dispatch.py:341-397 | the serving thread's section under the lock is the pick step, with the deadline judged at the pick |
| DispatcherObject.CommandDispatcher.Finish | multibus/command_dispatch.py:399-413 | a completion tells the running job, once |
| Channels.Forest.Find | multibus/commands.py:192-196 | find with path halving ends, answers the root, and leaves every root as it was |
| Channels.Forest.Union | multibus/commands.py:198-201 | a union joins exactly the two trees |
| Channels.TreesAreChains | multibus/commands.py:203-214 | trees of the forest are exactly the chains of commands that share a register or a channel name |
| Channels.AssignChannels | multibus/commands.py:181-227 | every command gets the id of its chain's group, every alias its target's, and one that leads to no command the id of where it leads if that was declared before it, else its own name |
| ChannelFacts.LinkedShareId | multibus/commands.py:181-227 | commands linked by a chain of shared keys get one id |
| ChannelFacts.LinkedIs | multibus/commands.py:203-214 | being linked is a chain of commands each of which writes a register, or names a channel, that the next one does |
| ChannelFacts.DifferentIdsWriteApart | multibus/commands.py:181-227 | commands with different ids write no common register |
| ChannelFacts.IdIsFirstChannel | multibus/commands.py:214-222 | the id of a group that names channels is the first of them in the order of code points |
| ChannelFacts.IdNamesTheGroup | multibus/commands.py:214-222 | the id of a group that names none is its commands' names in that order, joined |
| ChannelFacts.SameIdMeansLinked | multibus/commands.py:203-227 | commands with one id are linked, unless some group's channel is spelled like what a group naming none spells out |
| ChannelFacts.IdsAreExact | multibus/commands.py:203-227 | ids tell all unlinked commands apart exactly when there is no such spelling |
| ChannelFacts.ClashIsWithOneCommand | multibus/commands.py:203-227 | for identifiers there is one exactly when a group's smallest channel name is the name of one command alone in a group that names none |
| ChannelFacts.IdsMayCollide | multibus/commands.py:214-227 | a concrete template in which two unlinked commands get one id |
| ChannelFacts.AliasOnTargetsChannel | multibus/commands.py:185-190 | however many aliases lead to a command, they are on its channel |
| ChannelFacts.RealIs | multibus/commands.py:185-190 | where any chain of aliases leads: to the one that leads no further or, going round, to the first that is come to again |
| Frames.PlanFrames | multibus/commands.py:337-378 | the two planning loops check, encode and merge in declaration order; the first value that is refused or breaks off decides |
| Frames.ItemsAre | multibus/commands.py:342-366 | each write sends its own register's words to its own register's place |
| Frames.FirstToFailDecides | multibus/commands.py:343-366 | the first write whose register is missing, not writable, or does not take the value decides what becomes of the run |
| Frames.MergingKeepsTheMeaning | multibus/commands.py:367-378 | writing the merged frames leaves the same registers and coils as writing each item alone |
| Frames.WordsLand | multibus/commands.py:561-565 | written words land one after the other from the address on, a coil on for any word but zero, and nothing else changes |
| Frames.FramesGiveTheItemsBack | multibus/commands.py:367-378 | the frames hold the items' registers and words in order, and no two neighbours could still be merged |
| Frames.OthersGoAlone | multibus/commands.py:367-378 | only holding registers share a frame: any other frame is one item by itself |
| Coalesce.ChannelsReplace | multibus/command_dispatch.py:194-200 | on the channels of a template, jobs on another channel write none of the command's cells |
| Coalesce.ReplacingIsUpToTheCommand | multibus/command_dispatch.py:194-200 | from any memory, whatever is accepted, read or changed: replacing leaves what appending would exactly when the command alone leaves the same in either place and the jobs behind do after either value |
| Coalesce.ReplacingLosesOnlyWhenScaledAnew | multibus/commands.py:313-320 | a newer value accepted in both places may take the place exactly when the scale factors there and here encode it the same and the jobs behind leave the same after either value |
| Coalesce.ReplacingLosesOnlyWhenRefused | multibus/commands.py:561-565 | where what it reads stays, exactly when, accepted, it makes no difference to the jobs behind, or, refused, the older run would have changed nothing |
| Coalesce.ReplacingNeverLosesWhen | multibus/command_dispatch.py:194-200 | from every memory, exactly when the command writes nothing, or, wherever accepted, makes no difference to the jobs behind and, wherever refused, the older one is too |
| Coalesce.ReplacingLosesOnlyOnSharedCells | multibus/command_dispatch.py:66-76 | on any registers and channels, where no read is written behind: an accepted value exactly when the jobs behind leave every shared cell as it does, a refused one exactly when every cell of the older run is written behind or held that already |
| Coalesce.ReplacingKeepsTheMeaning | multibus/command_dispatch.py:194-200 | so an accepted newer value may take the slot tail's place where no job behind writes what it reads or reads what it writes |
| Coalesce.CoalescingIsReplacing | multibus/command_dispatch.py:178-210 | a whole lane that coalesced leaves a device, once drained, as the lane that ran both would, exactly when the replacement does from what the job finds there |
| Coalesce.CoalescingKeepsTheMeaning | multibus/command_dispatch.py:178-210 | a whole lane that coalesced leaves every device, once drained, as the lane that ran both would |
| Coalesce.KnownAre | multibus/commands.py:519-530 | what a run reads before it writes is what the device holds in the registers it asks for |
| Coalesce.NothingPlanned | multibus/commands.py:519-556 | a run that asks for a missing register, whose guards do not hold or one of whose values does not encode changes nothing |
| CommandRuns.RunLeavesTheJob | multibus/commands.py:510-593 | a run over a connection that tells what the device holds and acknowledges every write leaves what the queue's view of the job leaves |
| CoalesceLosses.ScaleChangeIsLost | multibus/commands.py:510-563 | a concrete device and queue: the scale factor changes between the two values |
| CoalesceLosses.ReadBehindIsLost | multibus/commands.py:519-563 | a concrete device and queue: a job behind is scaled by what the command writes |
| CoalesceLosses.RefusedValueIsLost | multibus/commands.py:323-334 | a concrete device and queue: the newer value is outside the register's envelope |
| CoalesceLosses.OverlapIsLost | multibus/config.py:55-58 | a concrete device and queue: two registers share a cell |
| Blocks.Greedy | multibus/commands.py:383-406 | the greedy loop covers every span within the limit, and leaves witnesses no two of which fit in one read |
| Blocks.FewestReads | multibus/commands.py:383-406 | no set of reads within the limit that covers the registers has fewer members |
| Blocks.BlocksFor | multibus/commands.py:383-406 | every register lies in one read, none longer than 125 words or the template's own limit, each from where a register begins to where one ends, no cover has fewer; or the first register that is unknown or too wide |
| ReadNamed.ReadNamed | multibus/commands.py:409-445 | each register gets the words it would have got read alone, whatever blocks it was read in; silence only when a read from one of the registers to another, within the limit, was not answered with enough words |
| Params.NormalizeParams | multibus/commands.py:230-267 | each parameter takes its own value, its first alias with one, or its default, in bounds; the first fault in order is reported |
| Params.ChosenIs | multibus/commands.py:238-250 | a parameter takes its own value, else that of the first alias that has one, else its default |
| Params.AcceptedExactly | multibus/commands.py:230-267 | a call goes through exactly when every key is a name or an alias and every value suits its bounds and list, a required one being there |
| Params.TwiceIsOnce | multibus/commands.py:230-267 | normalizing twice is normalizing once exactly when no parameter that takes no value has an alias naming one that takes a value |
| Params.OwnAliasesSuffice | multibus/commands.py:230-267 | normalizing twice is normalizing once when no alias is another parameter's name |
| Params.AliasMayBorrow | multibus/commands.py:230-267 | a concrete definition for which it is not |
| Verdict.NumericRuleHolds | multibus/commands.py:448-507 | a rule of numbers holds on a number exactly within tolerance, list and bounds |
| RunFacts.TextIsListed | multibus/commands.py:481-497 | a rule with a list holds on a text that is no number exactly when the list has it, or a code whose text it is |
| RunFacts.CodeIsExpected | multibus/commands.py:455-475 | a rule that expects a code holds on a text exactly when it is that code's |
| RunFacts.FlagMeets | multibus/commands.py:455-507 | a register that reads as True or False meets a rule of numbers as 1 or 0 would |
| Verdict.RunCommand | multibus/commands.py:510-593 | every verdict says what went out: nothing on a rejection, a dry run or an unanswered first read; exactly the frames before the failed one on a write error; every frame in order on success, mismatch and no read-back; success only with all guards on the last reading before and all rules on the reading after. A run is rejected, and breaks off before reading, before writing or after all writes, exactly on the stated commands and connections |
| Verdict.WrittenAsDeclared | multibus/commands.py:551-593 | after success, mismatch or no read-back the device holds what the declared writes, one by one, would leave |
| RunFacts.DecodedBeforeAnythingGoesOut | multibus/commands.py:453-454 | nothing goes out unless every guard's register was decoded, and no success is said unless every verify rule's was |
| RunFacts.UndecodedGuardRejects | multibus/commands.py:526-550 | a run whose guard's register is decoded in no answer is rejected and writes nothing |
| RunFacts.UnreadableRaises | multibus/commands.py:383-418 | a run that asks for a missing register, or for one too wide for a read once the device answers, breaks off and writes nothing |
| RunFacts.AnswersGoneBy | multibus/commands.py:526-580 | which answers the guards and the verify rules are judged on: the first of two tries, the next one after a failed guard, the one after that |
| RunFacts.NothingToRead | multibus/commands.py:409-415 | a command that asks for nothing is judged on an empty reading and never gives up for want of an answer |
| RunFacts.SuccessMeans | multibus/commands.py:526-593 | after a success every number asked about met its rule, before writing and as read back, and every frame was acknowledged |
| Expressions.BreaksExactly | multibus/commands.py:42-85 | evaluating breaks off exactly when a part is come to that compares what cannot be compared, takes nothing for a number, or divides by zero |
| Expressions.OnlyZeroBreaks | multibus/commands.py:54-85 | among numbers it is never refused, and breaks off exactly when a division by zero is come to |
| Expressions.ArithmeticGives | multibus/commands.py:73-79 | which value each operation gives on operands that count as numbers, True, False and numeric texts among them |
| Expressions.ComparisonTakes | multibus/commands.py:65-72 | a choice between numbers takes its first branch exactly when the comparison is true |
| Expressions.TextComparisonTakes | multibus/commands.py:65-72 | and one between texts, in the order of code points |
| RunRules.MayRaiseLate | multibus/commands.py:510-593 | a command may break off after its writes, on some connection, exactly when its registers are there and fit a read, some reading lets it through, and some reading is decoded up to a verify rule whose expectation has no value |
| RunRules.BrokenByZero | multibus/commands.py:448-460 | for an expectation of numbers that is a division by zero which is come to |
| RunRules.CheckedMayRaiseLate | multibus/device_template.py:1232-1278 | a command the template's check passes, and of whose values exactly zero can break a run off after the write |
| RunRules.OwnWriteIsVerified | multibus/commands.py:448-475 | a rule that expects the value just written holds on its read-back when it tolerates half a step, or anything when the value falls on a step |
| Wire.PackedUnpacks | multibus/encoder.py:104-138 | every number in range packs into as many words as its form has and unpacks to itself, in all three forms and four orders |
| Wire.PackedPlaces | multibus/encoder.py:64-138 | word k of a packed number is the k-th sixteen bits of its pattern from the top, or from the bottom with words swapped, and each word has its low byte first with bytes swapped |
| Wire.RangesAre | multibus/encoder.py:43-52 | the ranges of the eight forms, in numbers |
| WriteValues.ScalingIsInverse | multibus/commands.py:307-320 | scaling to raw steps and back is exact |
| WriteValues.TakenExactly | multibus/commands.py:323-365 | a register of whole numbers takes exactly the values in its envelope that round, scaled by a factor that is there, into its range |
| WriteValues.RoundedIsExact | multibus/commands.py:359-360 | rounding is to the nearest whole number, halves to the even one |
| WriteValues.CoilTakes | multibus/commands.py:353-355 | exactly nothing, zero, False and the empty text switch a coil off |
| WriteValues.FloatsTake | multibus/commands.py:357-364 | a single takes the scaled number as it is, a double rounded |
| WriteValues.NotTaken | multibus/commands.py:307-365 | what no register but a coil takes |
| WriteValues.WrittenWithinHalfAStep | multibus/commands.py:307-365 | a value written reads back within half a step, and as itself when it falls on a step |
| WriteValues.EncoderKeepsWidths | multibus/commands.py:352-366 | every write sends as many words as its register has |
| NatBits.ShrDivides | multibus/can_signal.py:140-142 | shifting right is dividing by a power of two |
| NatBits.LowRemains | multibus/can_signal.py:138-142 | masking is the remainder by a power of two |
| NatBits.BitIs | multibus/can_signal.py:114-142 | bit i is the remainder by two once divided by 2^i |
| CanSignal.FailsOutside | multibus/can_signal.py:124-137 | extraction fails exactly when a named bit is outside the frame |
| CanSignal.SignalRuns | multibus/can_signal.py:108-121 | both orders begin at the start bit; Intel goes up bit by bit, Motorola down within a byte and on with the top of the next |
| CanSignal.BitsAreRead | multibus/can_signal.py:131-142 | the i-th bit of that run is bit i of an Intel number, bit length - 1 - i of a Motorola one |
| CanSignal.TwoBytes | multibus/can_signal.py:131-142 | two whole bytes in both orders |
| CanSignal.ExtractionIsBitwise | multibus/can_signal.py:131-142 | bit i of the number is exactly the frame bit the placement names for it, in both byte orders |
| CanSignal.ExtractionIsBounded | multibus/can_signal.py:131-142 | the number has no bit beyond the signal's length |
| CanSignal.OnlyNamedBitsMatter | multibus/can_signal.py:114-142 | no other bit of the frame matters |
| CanSignal.EveryNamedBitMatters | multibus/can_signal.py:114-142 | flipping a named bit changes the number |
| CanSignal.OverlapWarnings | multibus/can_signal.py:275-295 | the loop over rows, kept per frame, gives one warning per earlier signal of the same frame that shares a bit, in order |
| CanSignal.WarningsAre | multibus/can_signal.py:275-295 | one warning for each pair of signals that share a bit of one frame, in the order of the rows, with the names of the later and the earlier one and their frame |
| CanSignal.SilentMeansDisjoint | multibus/can_signal.py:275-295 | the check is silent exactly when no two placed signals of a frame share a bit |
| CanSignal.SilentSignalsAreIndependent | multibus/can_signal.py:275-295 | then changing one signal's bits leaves every other signal of the frame its number |
| CanRows.RowErrors | multibus/can_signal.py:180-247 | exactly the faults a row has are listed |
| CanRows.FaultsMean | multibus/can_signal.py:180-247 | what each fault means, the limits in numbers |
| CanRows.FaultlessExactly | multibus/can_signal.py:180-247 | exactly which rows pass: the range of the id, the place within eight bytes, the byte order, and the length each type takes |
| CanRows.DecodesExactly | multibus/can_signal.py:151-175 | exactly when a value comes out of a frame of any length |
| CanRows.AcceptedRowsDecode | multibus/can_signal.py:151-247 | an accepted row, with a stated type or the loaders' default, decodes on every 8-byte frame to a value of its type; an integer is in its type's range and is the raw bits modulo 2^length, a float is exactly the raw bits |
| CanRows.TextIsTheNamedBytes | multibus/can_signal.py:160-168 | text is the bytes from the start bit on, in wire order |
| Referee.WinnerIsLeast | multibus/arbiter.py:32-43 | the winner is a candidate that none comes before |
| Referee.WinnerAsAsked | multibus/arbiter.py:32-43 | against every candidate: by priority, then force, then rule; with a limit, by having a value, by the lowest or highest, then priority, then rule |
| Referee.WinnerIgnoresOrder | multibus/arbiter.py:32-43 | the order in which the rules are asked does not matter |
| Referee.WinnerIsUnbeaten | multibus/arbiter.py:32-48 | a candidate wins exactly when none takes the channel from it |
| Arbiter.ChannelState.HoldS | multibus/arbiter.py:78-103 | asking answers the hold of the state it found and drops nothing but old starts |
| Arbiter.HeldExactly | multibus/arbiter.py:78-103 | exactly when a channel reached by any events is held: any write within the interval of the last one; beyond that a stop within the run time of the start, a start within the stop time of the stop or with its starts of the hour used up, and never a write that leaves the channel as it is |
| Arbiter.ReasonTold | multibus/arbiter.py:78-103 | which reason is told when several stand in the way |
| Arbiter.WaitIsLeast | multibus/arbiter.py:78-103 | the wait told is no longer than what is left of the reason |
| Arbiter.ChannelState.Reconcile | multibus/arbiter.py:105-117 | an unknown on/off is learnt without counting a start or a write |
| Arbiter.ChannelState.Note | multibus/arbiter.py:119-128 | a write is stamped, and a change of on/off with its instant and its start |
| Arbiter.WritesAreSpaced | multibus/arbiter.py:84-87 | over every run in which writes wait for their hold, any two writes are the minimum interval apart |
| Arbiter.RunsLastLongEnough | multibus/arbiter.py:90-95 | no stop comes within the minimum run time of any earlier start |
| Arbiter.StopsLastLongEnough | multibus/arbiter.py:96-99 | no start comes within the minimum stop time of any earlier stop |
| Arbiter.StartsAreLimited | multibus/arbiter.py:100-103 | no hour, wherever it begins, holds more starts than allowed |
| Arbiter.ClearStaysClear | multibus/arbiter.py:78-103 | a hold that has cleared stays clear until the next write |
| Arbiter.LookingChangesNothing | multibus/arbiter.py:68-71 | dropping old starts changes no later answer |
| Arbiter.WaitEndsTheReason | multibus/arbiter.py:78-103 | the wait is positive, and when it ends the reason given is gone; for the starts limit exactly when few enough starts remain |
| Arbiter.LawfulWaitsEnd | multibus/arbiter.py:100-103 | under fixed settings the wait for the starts limit always ends it |
| Arbiter.LoweredLimitHoldsOn | multibus/arbiter.py:100-103 | a concrete run: the limit was lowered, and the channel is still held when the wait told is over |
| Arbiter.MirrorDecidesAlike | multibus/arbiter.py:130-146 | the copy on a partner's clock answers after any further events as the original would |
| Crc.Crc16 | multibus/bus_trace.py:60-67 | the two loops compute the CRC |
| Crc.CrcOfTheExample | multibus/bus_trace.py:60-67 | the CRC of the guide's own example, the bytes 02 07, is 1241 |
| CrcBits.FeedLinear | multibus/bus_trace.py:60-67 | feeding other bits changes the register by what the differences alone would leave |
| CrcBits.TapsAre | multibus/bus_trace.py:60-67 | the polynomial is x^16 + x^15 + x^2 + 1 |
| SerialFrames.CrcFeeds | multibus/bus_trace.py:60-67 | the byte-wise computation is the bit-wise machine |
| SerialFrames.OkMeansZero | multibus/bus_trace.py:88-92 | a frame passes exactly when it leaves the register, of sixteen ones at first, at zero |
| SerialFrames.ZerosNeverPass | multibus/bus_trace.py:88-92 | no frame of zero bytes passes, whatever its length |
| SerialFrames.LeadingZerosShow | multibus/bus_trace.py:88-92 | zero bytes before a frame that passes go unnoticed exactly when they bring the sixteen ones back |
| SerialFrames.SealedSplits | multibus/bus_trace.py:88-92 | a body with its CRC splits back into unit and PDU with the check true |
| SerialFrames.OnlySealedPasses | multibus/bus_trace.py:88-92 | only the sealed form of its body passes |
| SerialFrames.UnseenDamage | multibus/bus_trace.py:88-92 | damage goes unseen exactly when it alone would leave the register at zero |
| SerialFrames.BurstsAreCaught | multibus/bus_trace.py:75-96 | damage within sixteen successive bits is caught, anywhere in a frame of any length |
| SerialFrames.SeventeenBitsMaySlip | multibus/bus_trace.py:60-67 | seventeen bits are too many |
| SerialFrames.ByteErrorsAreCaught | multibus/bus_trace.py:75-96 | one byte changed, or two neighbouring ones, CRC bytes included, is caught |
| SerialFrames.OddErrorsAreCaught | multibus/bus_trace.py:75-96 | any odd number of flipped bits is caught |
| SerialFrames.DamagedAnswersAreReported | multibus/bus_trace.py:99-141 | an answer with such damage is reported as a CRC error whatever the request, an undamaged one never |
| SerialFrames.ProbeBelievesWholeAnswers | multibus/bridges.py:237-246 | the probe believes a slave's whole frame of the length it states |
| SerialFrames.SealedAnswersAreJudged | multibus/bus_trace.py:99-141 | a slave's own frame is judged by its function code alone |
| SerialFrames.JudgedByShape | multibus/bus_trace.py:99-141 | exactly when an exchange is malformed, unanswered or a CRC error |
| SerialFrames.ProbeBelievesNoDamage | multibus/bridges.py:237-246 | the probe believes no answer damaged within sixteen bits whose stated length is intact |
| SerialFrames.ProbeBelievesSealed | multibus/bridges.py:237-246 | whatever arrived, the probe believes exactly what begins with a sealed body of the slave's, of the length it states: five bytes for an exception, five more than the byte count for an answer |
| SerialFrames.OneByteSlipsOnlyInTheLength | multibus/bridges.py:237-246 | one damaged byte passes only as function byte or byte count, and only with another length |
| SerialFrames.LengthDamageMaySlip | multibus/bridges.py:232-246 | an answer of one register whose damaged byte count passes |
| SerialFrames.FunctionDamageMaySlip | multibus/bridges.py:232-246 | an answer of one register whose damaged function byte passes |
| SerialFrames.ProbeIgnoresTheRest | multibus/bridges.py:237-246 | bytes after the stated length make no difference |
| Audit.AuditLog.Rotate | multibus/audit.py:134-147 | rotation moves every file one place and loses the oldest archive |
| Audit.AuditLog.Append | multibus/audit.py:102-147 | an append rotates exactly when the size in bytes and the line in characters exceed the limit |
| Audit.AuditLog.Recent | multibus/audit.py:151-181 | the first matching entries, newest first, of all files, one at least; or an error when a value that is no entry is asked for its user before there are enough |
| Audit.NewestAre | multibus/audit.py:159-181 | what is found is every wanted line's entry once, the newest first |
| Audit.SearchGives | multibus/audit.py:151-181 | as many as were asked for and one at least, or all there are; an error exactly when one of these is no entry and a user was asked for |
| Audit.AppendKeepsTheRest | multibus/audit.py:102-147 | one append loses exactly the oldest archive, and that exactly when the size in bytes and the line in characters exceed the limit |
| Audit.FilesAreTheNewest | multibus/audit.py:102-147 | over any number of rotations the files hold an unbroken end of the history |
| Audit.FilesAreFew | multibus/audit.py:134-147 | never more than the current file and the archives, the newest line in the current one |
| Audit.CurrentFits | multibus/audit.py:134-138 | a file outgrows the limit only by what characters weigh more than a byte, or with a single line |
| Audit.RunHoldsTheEnd | multibus/audit.py:102-147 | from no files on, that end is an end of everything appended |
| Audit.ReadBackIsExact | multibus/audit.py:159-181 | the lines are read back as they were written exactly when none still held has a break in it |
| Audit.RecentIsTheNewest | multibus/audit.py:159-181 | then what is read back is the newest matching entries of the history |
| Audit.BrokenLinesAreMissed | multibus/audit.py:159-181 | when no piece of a broken line is an entry, exactly the entries of unbroken lines are read back, and none is missed exactly when no entry looked for has a break |
| Audit.SeparatorHidesAnEntry | multibus/audit.py:102-174 | a concrete JSON line with U+2028 in its target is written and not read back |
| Audit.EnclosedIsReadBack | multibus/audit.py:159-181 | a text between two separators that is JSON by itself is read back as the only entry, or breaks off a search by user |
| ConfigTree.SetSucceeds | multibus/config_mirror.py:47-67 | a write succeeds exactly when it ends in a key of something that is there |
| ConfigTree.StepsLead | multibus/config_mirror.py:47-67 | a step leads to the value under a key, or to the first entry that goes by the id, or by "None" without one |
| ConfigTree.GetSet | multibus/config_mirror.py:47-67 | what was written is read back |
| ConfigTree.GetBeside | multibus/config_mirror.py:47-67 | everything beside the written location stays |
| ConfigTree.GetAbove | multibus/config_mirror.py:47-67 | everything above it stays, and of its kind |
| KeepLocal.Walk | multibus/config_mirror.py:33-44 | the walk finds exactly the locations a pattern names, with what is there |
| KeepLocal.OwnLeads | multibus/config_mirror.py:33-44 | this machine's locations lead through keys and through the entries that have the id named |
| KeepLocal.KeepOwn | multibus/config_mirror.py:79-87 | every kept location holds this machine's value, overlapping patterns included; every location beside them is the partner's; a named location is kept exactly when it ends in a key of something the partner has or of something kept before |
| Hysteresis.Alert.Step | multibus/bridge_diag.py:326-346 | one poll updates the counters and sends the change of the alert |
| Hysteresis.SignalsAreExact | multibus/bridge_diag.py:326-346 | a poll fires exactly when it and the judged poll before it were over the limit and the last signal was no fire; and clears exactly when both were under eight tenths of it after a fire |
| Hysteresis.SignalsAlternate | multibus/bridge_diag.py:326-346 | fires and clears alternate, a fire first |
| Alarms.AlarmTracker.Update | multibus/alarm_alerts.py:36-70 | a round of a device is a step per declared alarm, in order, and marks exactly the declared ones as seen |
| Alarms.AlarmTracker.Retain | multibus/alarm_alerts.py:72-81 | exactly the alarms of absent devices and of undeclared fields are forgotten |
| Alarms.RoundIsPerAlarm | multibus/alarm_alerts.py:36-70 | an alarm declared once takes exactly its own step |
| Alarms.OthersUntouched | multibus/alarm_alerts.py:36-70 | no other alarm changes or is spoken of |
| AlarmRuns.ClearsAreEarned | multibus/alarm_alerts.py:51-60 | a clear is sent only for an announced alarm, with no active round in its hold time, and in a minute at least, before |
| AlarmRuns.AnnouncementsAreNews | multibus/alarm_alerts.py:61-70 | an announcement has another value than the one announced before |
| AlarmRuns.AnnouncementsAreEarned | multibus/alarm_alerts.py:61-70 | the first announcement comes after the hold time without being away |
| AlarmRuns.UnknownChangesNothing | multibus/alarm_alerts.py:52-53 | a round in which the alarm is unknown sends and changes nothing |
| AlarmRuns.NoAlarmIsMissed | multibus/alarm_alerts.py:61-70 | an alarm active now and not away for its hold time stands announced with its value |
| AlarmRuns.NoClearIsMissed | multibus/alarm_alerts.py:51-60 | an alarm away for the hold time stands announced no more |
| BusClaims.Holders | multibus/bus_claims.py:131-142 | the loop names the enabled holders in configuration order, once each |
| BusClaims.HoldersAre | multibus/bus_claims.py:131-142 | exactly the enabled, not excluded devices with such a claim are named |
| BusClaims.HoldersInOrder | multibus/bus_claims.py:131-142 | once each, in the order in which the configuration first has them |
| BusClaims.SaveConflicts | multibus/bus_claims.py:161-182 | every claim of a saved device that meets an opposite claim is listed with its holders |
| BusClaims.ConflictsAre | multibus/bus_claims.py:161-182 | what is listed is exactly each enabled source on a bus of a saved device, with those who do there what it does not |
| BusClaims.ClaimsAre | multibus/bus_claims.py:119-128 | exactly the enabled sources on a bus claim it, tapped ones listening on a standby gateway |
| BusClaims.SaveIsCleanWhen | multibus/bus_claims.py:161-182 | saving enabled devices keeps buses apart exactly when the check is silent and they do not clash among themselves |
| BusClaims.NoBusIsBoth | multibus/bus_claims.py:119-182 | over every run of one-device saves that pass, removals and disablings, no bus is polled by one enabled device and listened to by another |
| BusClaims.SavedTogetherMayClash | multibus/bus_claims.py:161-182 | two concrete devices the check lets through together |
| Throttle.LinkedRuns.RunLinked | multibus/calc_engine.py:318-365 | a report evaluates, or leaves it to the one pending timer when it came with a rerun; on a device that is gone or disabled nothing happens |
| Throttle.RunKeeps | multibus/calc_engine.py:318-365 | over every run, switched on and off at will: one evaluation at a time, unforced ones half a second apart, no held report without an evaluation, a timer or a call to come |
| Throttle.ReportIsExact | multibus/calc_engine.py:318-365 | a report evaluates at once exactly when none is running and none began within half a second or it is forced; else it is held for the one timer, and when that is due |
| Throttle.HeldReportIsJudged | multibus/calc_engine.py:350-365 | a held report is judged by waiting half a second and serving the timer |
| Throttle.CallJudgesOrTrails | multibus/calc_engine.py:350-365 | a timer's call judges the report at once or leaves it to the next timer |
| DocumentStore.FileStore.Read | multibus/config_store.py:97-124 | a read is one step of the store, which follows the file or keeps the last good document |
| DocumentStore.FileStore.Mutate | multibus/config_store.py:126-160 | a change is one step of the store |
| DocumentStore.ChangesAreGuarded | multibus/config_store.py:126-142 | it is refused as broken or as a conflict exactly by the file's own state, and the file is written only when it is made |
| DocumentStore.ChangeIsMade | multibus/config_store.py:126-160 | a change is made to what the file means, and that is what the file holds from then on |
| DocumentStore.LoadedIsTrue | multibus/config_store.py:97-118 | looking at the file leaves the file's meaning, or the old document |
| DocumentStore.SavedIsTrue | multibus/config_store.py:150-160 | a saved document is what its file means exactly when it is complete |
| DocumentStore.CopyAnswersAsFile | multibus/config_store.py:97-160 | over every run of reads, writes by others and changes that keep complete documents complete, the store gives the answers of one that reads its file each time |
| AttributeDoc.CompleteMeansNormal | multibus/attributes.py:55-74 | completing gives a complete document, and changes nothing exactly on complete ones |
| AttributeDoc.EditsKeepComplete | multibus/attributes.py:346-505 | each of the service's changes leaves a complete document complete |
| AttributeFacts.EditsDoOneThing | multibus/attributes.py:346-505 | each change sets, copies or deletes the places it names, and every other place keeps what it holds |
| AttributeFacts.RefusedWhen | multibus/attributes.py:346-505 | a change is refused exactly when there is nothing of what it deletes or the mode is none of the three |
| AttributeFacts.CompletingKeeps | multibus/attributes.py:55-74 | completing loses nothing that can be used |
| AttributeFacts.CompletingSettles | multibus/attributes.py:55-74 | and what it makes of each setting |
| DocumentStore.AttributesFollowTheFile | multibus/attributes.py:102-505 | so over every run the attributes answered are those of the file, completed, or of the last one that could be read, and a change is made to those |

## Left out

- Coalesce.CoalescingKeepsTheMeaning: without deadlines or connection failures: a job that waits is run when its turn comes, and its writes are acknowledged.
- Coalesce.ReplacingIsUpToTheCommand: a register changes only by what the gateway writes; a device that changes its own registers is not covered.
- CommandRuns.RunLeavesTheJob: no write fails; what a failed one leaves on the wire is `Verdict.RunCommand`.
- ChannelFacts.SameIdMeansLinked: needs command names without the joining sign, which the template check demands of them (`multibus/device_template.py:692-694`, `1203`).
- DispatchRuns.NoJobIsStranded: says that serving steps come to an end, not that a thread takes them.
- DispatchRuns.LanesAreServed: a run that raises what is no `Exception` (a `BaseException`) ends the lane's thread while jobs wait and leaves `lane.thread` naming it; the next job admitted to the lane starts another. That is not modelled.
- Verdict.RunCommand: one answer per read of named registers; the blocks of such a read are `ReadNamed`.
- AlarmRuns.AnnouncementsAreEarned: with a fixed hold time; a template that changes it mid-way is not covered.
- KeepLocal.KeepOwn: on values; that the source puts its own subtrees into the partner's tree by reference is not captured, nor an entry whose id is not a scalar.
- ConfigTree.SetSucceeds: recursive on values where the source walks down and writes in place.
- Audit.BrokenLinesAreMissed: for lines no piece of which is JSON by itself; a piece that is, is `Audit.EnclosedIsReadBack`.
- Throttle.RunKeeps: one device; forgetting a device while an evaluation of it goes on is not covered.
- DocumentStore.CopyAnswersAsFile: a revision is taken to tell texts apart, which a shortened hash does only in practice.
- SerialFrames.ProbeBelievesNoDamage: damage that states another length can go unseen, as the two lemmas after it show.
- Dispatcher: an id names one job and is submitted once; counters, waiting for a result, `forget`, `drain`, the view of the lanes and the check of the kind are not modelled; threads and timers appear only as steps.
- Frames.PlanFrames: for any encoder; the gateway's is `WriteValues.EncoderOf`, which keeps the widths it needs.
- WriteValues.WrittenWithinHalfAStep: over reals and for whole-number registers; IEEE words are a parameter, and the rounding of a read to the decimals of its scale factor is left out (over reals a whole raw number has no others).
- Commands: the parsing of an expression's text, infinities and the run over MQTT are not modelled.
- CAN: floats stay bit patterns and text stays bytes; the checks of a whole template and log lines are not modelled.
- Referee and protection: times and values are reals; `max_starts_per_h` is a whole number.
- Serial frames: ASCII framing with its LRC, Modbus TCP, the decoded fields of a request and the ring of the trace are not modelled.
- Alarms: labels and messages; a device id with a colon in it.
- Bus claims: how a connection's bus is found out is given.
- Not modelled at all: bridge diagnosis and port following, connection specs, CAN link attributes, the CAN client's counters, the rest of the configuration, user interface, network, cryptography.
