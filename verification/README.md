# Karabo device server and devices: a verified model

A Dafny model of the core of a Karabo device server and of the devices it hosts, with
proofs of what this code keeps over whole histories of events.

**Time distribution.** A time server sends sparse ticks (id, seconds, attoseconds, period).
The server records them, forwards them to its devices, and lets a self-rearming timer call
a hook for every id in between. A device maps any point in time back to an id.
`TimeArithmetic` has the carry rules of points in time and durations, `TrainIds` the device
side, `Ticker` the server side as one uninterrupted thread sees it, and `TickerProtocol`
the same as a transition system in which slot calls, timer waits, posted and cancelled
handlers and tick bodies interleave freely; `TickerIds` says which ids its rounds are for.

**Live schema and configuration.** A device has a static schema, an injected one and the
full one, a tree of parameters, and a cache of state-dependent schemas. `HashTree` has the
tree operations (path erasure with its cascade, merge), `SchemaLayers` the three schemas,
`Configuration` the parameters under one operation, `DeviceRuns` schemas and parameters over
whole histories, `DeviceSchema` the device operations in place, and `Counterexamples` runs of
such a device that show where a property fails.

**Device map and value conversion.** `DeviceMap` has concurrent starts, removals and the
stop of devices on one map, `DeviceIds` the default device ids, `MissingConnections` the
list of missing input connections, `DeepCopy` the copy of a Hash with pointers, and
`IntegerTyping` the element type for lists of Python integers.

## What does not hold

Some properties hold on part of the inputs only. Each has its exact condition below.

- The full schema is the static one merged with the injected one, but for maximum sizes,
  unless an injection turns a node into a leaf and a later one turns it back without
  bringing all former paths along (`SchemaLayers.AppendKeepsLayered`), or a new maximum
  size is refused by `commit` after it was set (`SchemaLayers.MaxSizeKeepsLayered`). The
  comment at src/karabo/core/Device.cc:741 says that the check protects the schema; it
  runs after the attribute is set.
- An update leaves a path behind that it drops, exactly if there is a parameter at or below
  it which the erasing of the injected paths does not reach, and no new default replaces a
  node above it (`Configuration.DroppedPathOutlastsUpdate`). A leaf is not reached if the
  injection has a node with content in its place, an empty node if none of its children in
  the injection is a leaf or empty. So a leaf that is injected as a node later outlives both
  (`Counterexamples.LeafOutlivesItsSchema`), and the node of a slot with content outlives the
  slot (`Counterexamples.NodeOutlivesItsSlot`). It does not happen in histories of suitable
  operations (`DeviceRuns.UpdatesLeaveNothingBehind`), and which these are is exact for
  keeping the parameters aligned with the full schema (`DeviceRuns.RunAligns`). Appends that
  change no leaf to a node or back and inject no slot with content are suitable
  (`DeviceRuns.PlainAppendSuits`). Such updates are if, besides, each injected node that had
  content has a leaf with a value again (`DeviceRuns.PlainUpdateSuits`); without that the
  node can be lost (`Counterexamples.NodeLostOnUpdate`).
- A newly injected leaf does not get its default if one of its ancestors was a leaf before
  (`DeviceRuns.NewLeavesHoldDefaults`; `Counterexamples.NewLeafWithoutDefault`). It can hold
  the default all the same, if the parameters still had a node in place of that ancestor
  (`Counterexamples.NewLeafHeldItsDefault`).
- An entry of the device map with a strand does not always hold a non-null, initialised
  device. It does exactly if every strand goes to an entry that its own call inserted and
  that nothing removed since (`slotDeviceGone`, the stop, or the clean-up of a failed start
  of that id), or else to one that another start inserted after a removal and whose device
  has been initialised successfully by then (`DeviceMap.StrandsSoundExactlyIfJustified`).
  Otherwise the strand goes to a null device
  (`DeviceMap.RemovalDuringInitialisationLeavesNull`) or to one that is still initialising
  itself (`DeviceMap.StrandForUninitialisedDevice`).
- A start that fails with a standard exception without any text is answered as a success
  (`DeviceMap.OneReplyPerCall`, `DeviceMap.SilentFailureIsReportedAsStarted`).
- For a tick without seconds the server takes its own clock but forwards the raw tick, so
  that devices disagree with it about the ids (`Ticker.ForwardedTickAgrees`,
  `Ticker.TickWithoutSecondsDisagrees`).
- A hook belongs to the previous id for a device that already holds a tick of a later train
  (`TickerProtocol.HooksOfSteadyServer`), and with overlapping slot calls a device can end up
  with an older tick than the server (`TickerProtocol.OlderTickCanArriveLast`).
- Re-synchronising with a consistent tick moves the id of train starts before that tick
  (`TrainIds.ResyncMovesExactlyTheBoundaries`).
- Devices hear of no id at all for periods above ten minutes
  (`Ticker.SilentExactlyForHugePeriods`), and a first tick with id 0 wraps around
  (`Ticker.FirstIdZeroStalls`). The ticker is modelled for ids from 1 on.
- A list of integers can get an element type that does not hold all of them although
  another type would (`IntegerTyping.MissedTypes`, `IntegerTyping.MissedTypeExample`).
- A duplicate in the configured connections stays missing (`MissingConnections.ExactIffDistinct`).
- A copied Hash differs from its source if a key contains a separator
  (`DeepCopy.CopyIsFaithful`, `DeepCopy.SeparatorIsTakenApart`).

## Model

| member | source | states |
|---|---|---|
| TimeArithmetic.TimesIsExact | src/karabo/data/time/TimeDuration.cc:271-304 | multiplying a duration through 64-bit halves, with a recursion on the upper half, is exact multiplication of attoseconds and stays canonical |
| TimeArithmetic.ElapsedIsExact | src/karabo/data/time/Epochstamp.hh:324-337 | the elapsed duration is the absolute difference of the attoseconds, whichever point is later |
| TimeArithmetic.BeforeIsAttosOrder | src/karabo/data/time/Epochstamp.cc:290-293 | the lexicographic order of points in time is the order of their attoseconds |
| TimeArithmetic.PeriodSplitIsExact | src/karabo/core/DeviceServer.cc:404-406 | splitting a period into seconds and attoseconds loses nothing and leaves a fraction below one second |
| TimeArithmetic.WholeMicrosIsFloor | src/karabo/core/Device.cc:775-777 | seconds and microsecond fraction together are the attoseconds rounded down to microseconds |
| TrainIds.DeviceClock.SlotTimeTick | src/karabo/core/Device.cc:705-713 | the device takes over the forwarded tick as its reference |
| TrainIds.DeviceClock.GetTimestamp | src/karabo/core/Device.cc:767-790 | returns the given point in time with an id that brackets it, and 0 before the first tick |
| TrainIds.TrainIdBrackets | src/karabo/core/Device.cc:773-786 | from the reference on, the id's train has started and the next has not; before it, trains own the end instead of the start of their period; the guard gives 0 only at or before the start of train 1 |
| TrainIds.BracketsDetermineTheId | src/karabo/core/Device.cc:778-786 | the bracket admits one id only, so it is a complete specification |
| TrainIds.TrainIdIsMonotone | src/karabo/core/Device.cc:778-786 | a later point in time never gets a smaller id, also across the reference and the guard |
| TrainIds.TickStampIsNominalStart | src/karabo/core/DeviceServer.cc:402-408 | the stamp of a train is the reference plus the exact number of periods, to the attosecond |
| TrainIds.DeviceAgreesWithServer | src/karabo/core/DeviceServer.cc:402-408 | a device that holds the server's reference maps the stamp that the server computes for an id back to this id, for every id, period and fraction |
| TrainIds.ResyncMovesExactlyTheBoundaries | src/karabo/core/Device.cc:771-786 | for two consistent ticks, exactly the train starts from the first tick up to before the later one, but for the start of id 0, get one id less by the later one; every other point in time keeps its id |
| TrainIds.ResyncKeepsTheFuture | src/karabo/core/Device.cc:705-713 | a consistent later tick changes no id at or after it |
| TrainIds.LateStampIsOneBehind | src/karabo/core/DeviceServer.cc:389-408 | a stamp computed from the earlier of two consistent ticks gets, by the later one, one id less exactly if its train is before the later tick |
| TrainIds.StampAtEarlierReference | src/karabo/core/DeviceServer.cc:389-408 | a stamp computed from the later of two consistent ticks gets its own id also by the earlier one |
| Ticker.CatchUpIsTheBurst | src/karabo/core/DeviceServer.cc:414-425 | safeguards and loop together count through exactly the burst owed: min(missed, backlog) ids ending in the new one, one for the first tick, none if the id is not new |
| Ticker.BurstIsTheLastTenMinutes | src/karabo/core/DeviceServer.cc:414-425 | an id is posted exactly if it is new and the ids from it to the new one take no more than 600000000 microseconds, and at the first tick only if it is the new one itself |
| Ticker.BurstCoversAtMostTheBacklog | src/karabo/core/DeviceServer.cc:416-423 | one burst never spans more than 600000000 microseconds |
| Ticker.SkippedExactlyBeyondBacklog | src/karabo/core/DeviceServer.cc:417-423 | an id that became due is left out exactly if it lies the backlog or more behind, or before the first tick |
| Ticker.SilentExactlyForHugePeriods | src/karabo/core/DeviceServer.cc:416-424 | nothing is posted for new ids exactly if the period exceeds 600000000 microseconds |
| Ticker.DeadlineIsNextNominalStart | src/karabo/core/DeviceServer.cc:435-438 | the timer is set to the nominal start of the next id, in the nanoseconds it resolves, however often it ran since the reference |
| Ticker.NoWrapFromOneOn | src/karabo/core/DeviceServer.cc:414-423 | the 64-bit computation equals the one on naturals for ids from 1 on |
| Ticker.FirstIdZeroStalls | src/karabo/core/DeviceServer.cc:414-424 | after a first tick with id 0, which wraps, hooks are suppressed for exactly the ids below the backlog |
| Ticker.ForwardedTickAgrees | src/karabo/core/DeviceServer.cc:348-370 | a device that got the tick as forwarded agrees with the server on an id exactly if the tick has seconds, or else the server's clock is less than a period after the raw fraction (for id 0 also if it is before) |
| Ticker.TickWithoutSecondsDisagrees | src/karabo/core/DeviceServer.cc:350-354 | a concrete tick without seconds, for which a device takes train 1 for train 601 |
| Ticker.DeviceServerTicker.RecordTick | src/karabo/core/DeviceServer.cc:343-358 | stores the tick, whatever its fraction, with the local clock in place of a zero second, and grants the first call once |
| Ticker.DeviceServerTicker.SlotTimeTick | src/karabo/core/DeviceServer.cc:335-380 | ignores a zero period, forwards the raw tick, and ticks at once exactly if the timer could be cancelled or this is the first call |
| Ticker.DeviceServerTicker.CatchUp | src/karabo/core/DeviceServer.cc:410-433 | posts the burst owed, all with the stamp of the new id and the period, and moves the last id to the larger of old and new |
| Ticker.DeviceServerTicker.TimeTick | src/karabo/core/DeviceServer.cc:383-439 | does nothing for a cancelled handler; otherwise never goes behind the last external id, posts the burst and leaves one wait, for the next id at its nominal start |
| TickerProtocol.StepKeepsInv | src/karabo/core/DeviceServer.cc:335-439 | every step of every interleaving keeps the single right to tick and the account of the hooks |
| TickerProtocol.SingleTickerChain | src/karabo/core/DeviceServer.cc:335-439 | in every reachable state of a living server there is exactly one start right, wait, posted handler or running body after the first valid tick, and none before |
| TickerProtocol.ChainNeverDies | src/karabo/core/DeviceServer.cc:377-438 | once ticks have arrived, a step that completes a round or brings it closer, by the stage of the single right to tick and the ids left to post, is always possible without a further tick from outside |
| TickerProtocol.NothingSetsBack | src/karabo/core/DeviceServer.cc:335-439 | no step of anything else, in particular no further tick, takes the next round further away |
| TickerProtocol.NextRoundIsPossible | src/karabo/core/DeviceServer.cc:377-438 | from every reachable state of a ticking server, steps without any further tick complete a next round |
| TickerProtocol.BodiesNeverOverlap | src/karabo/core/DeviceServer.hh:83 | two tick bodies never coexist, nor a body with a wait or a posted handler, so the last id needs no mutex |
| TickerProtocol.HookIdsStrictlyIncrease | src/karabo/core/DeviceServer.cc:410-433 | the ids that devices hear of strictly increase over a whole history, whatever jumps and resets the time server makes |
| TickerProtocol.TraceIsTheBursts | src/karabo/core/DeviceServer.cc:395-433 | between bodies, everything posted so far is the concatenation of the bursts owed, each starting where the previous one ended |
| TickerProtocol.RoundsActUninterrupted | src/karabo/core/DeviceServer.cc:395-433 | every round posts what an uninterrupted tick body would have posted, and devices with its reference map the stamp back to its id |
| TickerProtocol.HooksUnderLaterReference | src/karabo/core/DeviceServer.cc:361-433 | in every interleaving, a device that already holds a later consistent tick sees the stamp of a hook one id behind, exactly if the hook's train is before that tick |
| TickerProtocol.TicksAreForwardedOnce | src/karabo/core/DeviceServer.cc:361-373 | in every interleaving each valid tick reaches the devices exactly once, and exactly those are missing whose call has not yet forwarded |
| TickerProtocol.SeparateCallsStayInOrder | src/karabo/core/DeviceServer.cc:343-373 | if no tick arrives while another is not yet forwarded, devices hold the tick recorded last, or the one before while that is being forwarded |
| TickerProtocol.OlderTickCanArriveLast | src/karabo/core/DeviceServer.cc:343-373 | a concrete history of two overlapping calls after which devices hold the older tick |
| TickerProtocol.HooksOfSteadyServer | src/karabo/core/DeviceServer.cc:361-433 | if all ticks lie on one schedule, whatever their order, a device holding any forwarded one sees every hook under the id of its train, or one less exactly if the tick it holds is of a later train |
| TickerIds.TimerIsForTheNextId | src/karabo/core/DeviceServer.cc:435-438 | in every interleaving, each wait, posted handler and re-arming body is for the id after that of the last completed round |
| TickerIds.RoundsAreForTheirIds | src/karabo/core/DeviceServer.cc:377-399 | every round is for the larger of its reference's id and either the id of the tick whose call started it or the one after the previous round's |
| TickerIds.TicksStartOneRound | src/karabo/core/DeviceServer.cc:377-379 | no tick starts two rounds |
| TickerIds.BodyUsesTheLastTick | src/karabo/core/DeviceServer.cc:387-400 | a body uses the tick recorded last and then ticks for the larger of that one's id and the id it began with |
| TickerIds.HooksTell | src/karabo/core/DeviceServer.cc:402-431 | every hook ever posted carries its id, the nominal start of the train whose tick posted it, and the period of the reference used |
| TickerIds.SingleTickRounds | src/karabo/core/DeviceServer.cc:335-439 | after a single tick with id n, the k-th completed round is for n + k, counted from 0 |
| TickerIds.SingleTickHooks | src/karabo/core/DeviceServer.cc:335-439 | and devices hear of exactly n, n + 1, n + 2 and so on, for periods up to 600000000 microseconds |
| TickerProtocol.RunsExtend | src/karabo/core/DeviceServer.cc:335-439 | whatever is enabled in a reachable state extends the history; the model cuts none short |
| HashTree.PathsAreTips | src/karabo/data/types/Hash.cc:397-425 | the listed paths are exactly the leaves and the empty nodes |
| HashTree.EraseRemoves | src/karabo/data/types/Hash.cc:188-234 | nothing is left at or below an erased path |
| HashTree.EraseKeepsLeaves | src/karabo/data/types/Hash.cc:188-234 | every leaf that is not at or below the erased path keeps its value |
| HashTree.EraseKeepsOthers | src/karabo/data/types/Hash.cc:188-234 | only ancestors of the erased path can disappear with it |
| HashTree.EraseAddsNothing | src/karabo/data/types/Hash.cc:188-234 | erasing creates no path and turns no leaf into a node |
| HashTree.EraseEmptiesNothing | src/karabo/data/types/Hash.cc:194-229 | the cascade leaves no node behind that became empty, nor an empty one that should have held the path |
| HashTree.ErasedPaths | src/karabo/data/types/Hash.cc:188-234 | exactly which of the listed paths erasing leaves: all but those erased and an empty node that should have held the erased path |
| HashTree.SetEmptyFind | src/karabo/data/types/Hash.cc:854-887 | setting an empty node creates exactly its ancestors and leaves everything beside them as it was |
| HashTree.MergeFind | src/karabo/data/types/Hash.cc:472-534 | leaves and attributes of the right side prevail, what only the left side has stays, unless the right side has a leaf above it |
| HashTree.CoveredIsAbsorbed | src/karabo/data/types/Hash.cc:472-534 | merging yields just the right side exactly if that has all paths of the left |
| HashTree.MergeAssociative | src/karabo/data/types/Hash.cc:472-534 | the merge is associative exactly if no leaf in the middle hides a node on the left that the right side brings back without all its paths |
| HashTree.MergeAbsorbs | src/karabo/core/Device.cc:454-465 | merging the accumulated injection again into the full schema equals merging it once, under exactly the same condition |
| SchemaLayers.SetMaxSizeFind | src/karabo/data/schema/OverwriteElement.hh:382-389 | setting a maximum size changes that attribute at that path and nothing else |
| SchemaLayers.AppendKeepsLayered | src/karabo/core/Device.cc:453-465 | appending keeps full == (static but for maximum sizes) merged with injected, exactly if it revives nothing, a condition on static, injected and appended schema |
| SchemaLayers.AppendedPrevails | src/karabo/core/Device.cc:453-465 | what is appended is in the injected and the full schema with all its attributes; the injected one keeps the rest, except below an appended leaf |
| SchemaLayers.AppendKeepsTheRest | src/karabo/core/Device.cc:453-465 | while the layers are apart, the full schema keeps the rest with all attributes, too |
| SchemaLayers.UpdateEstablishesLayered | src/karabo/core/Device.cc:571-578 | an update establishes the layers from any state, and an empty one restores the static schema |
| SchemaLayers.InjectedPrevails | src/karabo/core/Device.cc:744-748 | full and injected schema agree in kind and attributes wherever the latter has a path |
| SchemaLayers.MaxSizeKeepsLayered | src/karabo/core/Device.cc:743-749 | one overwrite keeps the layers exactly unless it is refused by the size check on an injected path that had another maximum size |
| SchemaLayers.CommitChecksSizes | src/karabo/data/schema/OverwriteElement.hh:382-389 | which new maximum sizes are accepted, by kind, value type, default, its number of items and minimum size |
| SchemaLayers.AcceptedSizeIsSet | src/karabo/core/Device.cc:743-749 | an accepted size is set at the path in the full schema, and in the injected one where it has the path, and nothing else changes |
| SchemaLayers.RefusedSizeIsSetOnFull | src/karabo/core/Device.cc:743-749 | a refused size changes nothing if it is fixed, and otherwise is set in the full schema only |
| SchemaLayers.AcceptedSizesAreSet | src/karabo/core/Device.cc:743-749 | after an accepted list each path has the last size given for it, and nothing else has changed |
| SchemaLayers.SizesAreTriedInOrder | src/karabo/core/Device.cc:743-749 | a list is worked off up to the first refused size, and no further |
| SchemaLayers.OpKeepsLayered | src/karabo/core/Device.cc:422-749 | each operation, also with several maximum sizes, keeps the layers exactly if it is proper in this sense |
| SchemaLayers.RunsKeepLayered | src/karabo/core/Device.cc:422-749 | any sequence of proper operations keeps the layers |
| SchemaLayers.OpKeepsStacked | src/karabo/core/Device.cc:422-749 | every operation, proper or not, keeps the full schema showing all injected paths in their kind, and no path that is neither static nor injected |
| SchemaLayers.UpdateForgetsHistory | src/karabo/core/Device.cc:571-578 | after any sequence of operations, proper or not, an update yields static merged with its argument, and the static schema never changes |
| SchemaLayers.SubSchemaHasTheSelected | src/karabo/data/types/Schema.cc:950-998 | the schema by rules has exactly the writable leaves and empty nodes of the full one that allow the state or are not restricted, unchanged |
| SchemaLayers.SubSchemaKeepsAttributes | src/karabo/data/types/Schema.cc:950-998 | inner nodes that it has keep their attributes as well |
| Configuration.DefaultsAt | src/karabo/data/schema/Validator.cc:282-388 | defaults are injected only at paths of the schema, as leaves where it has optional leaves with this default, never at slots |
| Configuration.DefaultsAreInjected | src/karabo/data/schema/Validator.cc:305-370 | every optional leaf with a default that is not below a slot has it injected |
| Configuration.DefaultNodesAreInjected | src/karabo/data/schema/Validator.cc:340-388 | every node, also an empty one, that is no slot and below none is injected |
| Configuration.AcceptsExactlyTheKnown | src/karabo/data/schema/Validator.cc:206-279 | an internal update is accepted exactly if all its paths are known, of the same kind and not below a slot |
| Configuration.FittingPasses | src/karabo/data/schema/Validator.cc:206-279 | an update that fits the schema passes unchanged |
| Configuration.ValidatedKeeps | src/karabo/data/schema/Validator.cc:206-279 | an accepted update keeps all paths and values, but for empty nodes at slots |
| Configuration.ClearOneMore | src/karabo/core/Device.cc:509-525 | erasing one more path and restoring its deepest missing static ancestor keeps the account of what the clearing did at every path |
| Configuration.StaticLeavesSurvive | src/karabo/core/Device.cc:505-525 | no static leaf value is lost or changed by the clearing, although erasing cascades |
| Configuration.ClearedHas | src/karabo/core/Device.cc:505-525 | what is there after the clearing, for every path, from what is known before: static paths that were there or lie above erased ones, and of all others those with a spared path at or below them |
| Configuration.DroppedPathOutlastsClearing | src/karabo/core/Device.cc:505-525 | a path of the old injection that is neither static nor injected again survives the clearing exactly if a parameter at or below it is not reached by erasing the injected paths: for any parameters and any order |
| Configuration.DroppedPathOutlastsUpdate | src/karabo/core/Device.cc:505-588 | it survives the whole update exactly if, besides, no new default replaces a node above it |
| Configuration.LeftLeafKeepsValue | src/karabo/core/Device.cc:505-588 | a leaf that survives so keeps its value |
| Configuration.AppendPreservesValues | src/karabo/core/Device.cc:456-476 | a leaf of the full schema before and after an append keeps its value, also when injected again with another default |
| Configuration.UpdatePreservesValues | src/karabo/core/Device.cc:507-588 | the same for an update, through clearing and defaults |
| Configuration.NewLeafGetsDefault | src/karabo/core/Device.cc:469-476 | a leaf new to the full schema holds its default after an injection, but below a path that was a leaf it stays what it was: for any parameters |
| Configuration.UpdatedLeafHoldsDefault | src/karabo/core/Device.cc:530-588 | after an update it holds its default exactly if no path above it was a leaf, or the parameters had that value before the update |
| DeviceRuns.DefaultsAlign | src/karabo/data/schema/Validator.cc:282-388 | the defaults of a schema follow its paths and kinds and have all its nodes with content exactly if all slots are empty nodes |
| DeviceRuns.SetKeepsAligned | src/karabo/core/Device.cc:367-386 | an accepted update keeps the parameters aligned with the full schema in this sense |
| DeviceRuns.InjectionAligns | src/karabo/core/Device.cc:456-476 | an injection leaves them aligned exactly if no parameter stays where a leaf becomes a node, none where a node becomes a leaf without default, and nodes with content are kept or arrive |
| DeviceRuns.AppendAligns | src/karabo/core/Device.cc:453-476 | this for an append, from the state before it |
| DeviceRuns.UpdateAligns | src/karabo/core/Device.cc:505-588 | this for an update, from the state before it |
| DeviceRuns.PlainAppendSuits | src/karabo/core/Device.cc:453-476 | an append that changes no path from leaf to node or back and has no slot with content keeps the parameters aligned |
| DeviceRuns.PlainUpdateSuits | src/karabo/core/Device.cc:505-588 | so does an update, if besides each injected node that had content has a leaf with a value again |
| DeviceRuns.RunAligns | src/karabo/core/Device.cc:367-753 | over any history of appends, updates, maximum sizes and settings the parameters stay aligned exactly as long as all injections suit |
| DeviceRuns.UpdatesLeaveNothingBehind | src/karabo/core/Device.cc:505-588 | in such a history, no update leaves a path behind that it drops, neither leaf nor node |
| DeviceRuns.NewLeavesHoldDefaults | src/karabo/core/Device.cc:456-588 | after any history, a new leaf holds its default exactly if no path above it was a leaf or the parameters had that value; the latter cannot be in a history of suitable operations |
| DeviceSchema.Device.constructor | src/karabo/core/Device.cc:951-961 | a fresh device has the static schema as its full one and nothing injected |
| DeviceSchema.Device.SetNoLock | src/karabo/core/Device.cc:367-386 | an update is refused without effect, or merged and announced if there is anything in it |
| DeviceSchema.Device.StripLeaves | src/karabo/core/Device.cc:470-474 | erasing the previous leaves from the defaults removes those and leaves all other leaves as they are |
| DeviceSchema.Device.AppendSchema | src/karabo/core/Device.cc:422-489 | the new schemas, the emptied cache, the parameters merged with the stripped defaults, and the two signals; setting the defaults never fails for an unknown path |
| DeviceSchema.Device.UpdateSchema | src/karabo/core/Device.cc:492-601 | the same with cleared parameters and the schemas replaced |
| DeviceSchema.Device.ClearInjected | src/karabo/core/Device.cc:505-525 | what the clearing leaves at every path, for any order of the injected paths |
| DeviceSchema.Device.EraseAndRestore | src/karabo/core/Device.cc:511-524 | the inner loop ends and restores the longest missing static prefix |
| DeviceSchema.Device.InternalAppendSchemaMultiMaxSize | src/karabo/core/Device.cc:726-753 | checks up front without any effect, then overwrites one path after the other until one is refused, and announces the schema only on success |
| DeviceSchema.Device.OverwriteOne | src/karabo/core/Device.cc:743-749 | one overwrite on full and injected schema, with what is left behind when it is refused |
| DeviceSchema.Device.GetStateDependentSchema | src/karabo/core/Device.cc:1250-1267 | cached or not, the result is what the current full schema gives for the state, and the cache stays coherent |
| Counterexamples.RevivalBreaksLayers | src/karabo/core/Device.cc:453-465 | a concrete append after which the full schema lacks a static path that it should have |
| Counterexamples.RefusedMaxSizeBreaksLayers | src/karabo/core/Device.cc:743-749 | a concrete refused maximum size that stays in the full schema only |
| Counterexamples.LeafOutlivesItsSchema | src/karabo/core/Device.cc:505-511 | a run of a device that ends with an empty schema and the parameter x |
| Counterexamples.NodeOutlivesItsSlot | src/karabo/core/Device.cc:505-511 | a run that ends with an empty schema and the node that held a slot |
| Counterexamples.NewLeafWithoutDefault | src/karabo/core/Device.cc:466-476 | a run after which a newly injected leaf with default has no parameter |
| Counterexamples.NewLeafHeldItsDefault | src/karabo/core/Device.cc:466-476 | a run that leaves the parameters not aligned, after which a new leaf below an old one holds its default |
| Counterexamples.NodeLostOnUpdate | src/karabo/core/Device.cc:505-588 | a run in which an update without any of these changes loses the parameters' node |
| DeviceMap.DeviceServerMap.Instantiate | src/karabo/core/DeviceServer.cc:559-624 | map, reply and thread count after one uninterrupted start, for every course and failure it can take |
| DeviceMap.DeviceServerMap.SlotDeviceGone | src/karabo/core/DeviceServer.cc:660-668 | removes the entry of the device, if any |
| DeviceMap.DeviceServerMap.StopDeviceServer | src/karabo/core/DeviceServer.cc:468-480 | empties the map |
| DeviceMap.StepKeepsAccounted | src/karabo/core/DeviceServer.cc:559-624 | every step of interleaved calls keeps the account of replies, outcomes and threads |
| DeviceMap.OneReplyPerCall | src/karabo/core/DeviceServer.cc:559-624 | in every history each finished call has replied exactly once, positively exactly if it assigned a strand or failed with a standard exception without text, and threads equal the base count plus the calls in flight |
| DeviceMap.LoudFailureIsReported | src/karabo/core/DeviceServer.cc:597-622 | in every interleaving, a start that fails with any other exception never replies positively, and if its device was in the map it replies only after a clean-up that leaves no entry for the id |
| DeviceMap.StepKeepsMapSound | src/karabo/core/DeviceServer.cc:567-616 | undisturbed steps keep every entry owned by its call until it has its strand, and then initialised |
| DeviceMap.StrandMeansInitialised | src/karabo/core/DeviceServer.cc:590-595 | in histories without a removal during a start, an entry with a strand holds a non-null, initialised device |
| DeviceMap.SecondStartIsRejected | src/karabo/core/DeviceServer.cc:571-616 | once a start finds its id in the map, none of its later steps touches the map, in any interleaving, and it replies once and negatively |
| DeviceMap.StepKeepsStrandsSound | src/karabo/core/DeviceServer.cc:590-595 | the only step that can break the entries with strands is assigning one, exactly if the entry holds no initialised device then |
| DeviceMap.EntryHistory | src/karabo/core/DeviceServer.cc:567-668 | what an entry holds after any interleaving: exactly the device that was there and was not removed, or the one inserted since the last removal |
| DeviceMap.OwnEntryUnlessRemoved | src/karabo/core/DeviceServer.cc:569-616 | from its insertion on, a call finds its own device in its entry exactly as long as no removal, stop or clean-up of that id occurs |
| DeviceMap.StrandsSoundExactlyIfJustified | src/karabo/core/DeviceServer.cc:567-668 | over any history, disturbed or not, entries with a strand always hold non-null, initialised devices exactly if each strand goes to the call's own entry, not removed since its insertion, or to one brought by a later start that has succeeded to initialise |
| DeviceMap.StrandFindsDevice | src/karabo/core/DeviceServer.cc:590-595 | after any history, a strand goes to a non-null, initialised device exactly under this condition on the events before |
| DeviceMap.RemovalDuringInitialisationLeavesNull | src/karabo/core/DeviceServer.cc:577-595 | a concrete history that ends with a strand on a null device |
| DeviceMap.StrandForUninitialisedDevice | src/karabo/core/DeviceServer.cc:577-595 | a concrete history that ends with a strand on a device that is still initialising itself |
| DeviceMap.SilentFailureIsReportedAsStarted | src/karabo/core/DeviceServer.cc:596-624 | a concrete history with a positive reply for a device that was never created |
| DeviceIds.DeviceIdGenerator.GenerateDefaultDeviceId | src/karabo/core/DeviceServer.cc:677-687 | counts the class up and joins domain, class and count |
| DeviceIds.DomainIsShortened | src/karabo/core/DeviceServer.cc:680-685 | a server id of several tokens that ends in the process id is shortened to its first token and the process id |
| DeviceIds.DomainIsServerId | src/karabo/core/DeviceServer.cc:680-685 | any other server id but the bare process id is taken as it is |
| DeviceIds.DecimalReadsBack | src/karabo/core/DeviceServer.cc:678 | the index is written in decimal digits that read back as the count, without leading zero |
| DeviceIds.DefaultIdIsInjective | src/karabo/core/DeviceServer.cc:686 | class and count can be read back from an id, also for classes with underscores |
| DeviceIds.IdsAreDistinct | src/karabo/core/DeviceServer.cc:677-687 | over any sequence of requests all ids differ |
| MissingConnections.InputChannelStatus.TrackConnection | src/karabo/core/Device.cc:1079-1093 | one status event on the list: added at the end if not in it, or removed at its first place; transient ones ignored |
| MissingConnections.ListIsExact | src/karabo/core/Device.cc:1072-1093 | from a list without duplicates, after any events the list has no duplicates and holds exactly the connections that were last DISCONNECTED and not CONNECTED since, or configured and neither yet |
| MissingConnections.ExactIffDistinct | src/karabo/core/Device.cc:1072-1093 | the list is exact after all event sequences exactly if the configuration has no duplicates |
| DeepCopy.DeepCopyR | src/karabind/Wrapper.cc:960-998 | the loops compute the copy function, and terminate for acyclic pointers |
| DeepCopy.CopyIsSelfContained | src/karabind/Wrapper.cc:960-998 | a copy holds no pointer at any depth and no key with a separator, whatever the source |
| DeepCopy.CopyIsFaithful | src/karabind/Wrapper.cc:960-998 | the copy stands for the dereferenced source, in order, attributes and values, exactly if no key has a separator, and keeps doing so whatever later happens behind the source's pointers |
| DeepCopy.CopyIsEntrywise | src/karabind/Wrapper.cc:960-998 | with plain keys, every entry of the source becomes one entry with its key and attributes, leaves stay and pointers become what they point to |
| DeepCopy.TokensJoin | src/karabo/data/types/StringTools.hh:847-888 | the tokens of a path, joined by the separator, are the path again |
| DeepCopy.SeparatorIsTakenApart | src/karabind/Wrapper.cc:960-998 | a concrete Hash with a separator in a key and its different copy |
| DeepCopy.CopyIsIdempotent | src/karabind/Wrapper.cc:960-998 | copying a faithful copy changes nothing |
| IntegerTyping.BroadestType | src/karabind/Wrapper.cc:551-563 | the loop with its early exit finds the largest element type, which holds all elements exactly under a condition on the list |
| IntegerTyping.ChosenTypeFits | src/karabind/Wrapper.cc:407-442 | that condition: all elements within 64 bits, and next to a negative one none that needs the 64th bit, and none that needs UINT32 unless another needs INT64 |
| IntegerTyping.ChosenTypeIsLowest | src/karabind/Wrapper.cc:407-442 | no type of lower rank holds all elements |
| IntegerTyping.ChosenTypeIsUnique | src/karabind/Wrapper.cc:551-563 | being the largest of the element types determines the chosen type |
| IntegerTyping.MissedTypes | src/karabind/Wrapper.cc:694-706 | a fitting type is missed exactly for lists that mix negative elements with some that need UINT32, all within those two types |
| IntegerTyping.MissedTypeExample | src/karabind/Wrapper.cc:694-706 | a concrete list for which the chosen type does not fit although INT64 would |

## Left out

- TrainIds.DeviceAgreesWithServer: is about one reference for both sides; `Ticker.ForwardedTickAgrees` has the server's and the forwarded one.
- TickerProtocol.RoundsActUninterrupted: is about the reference of the round; `TickerProtocol.HooksOfSteadyServer` has a device with any other.
- Ticker.DeviceServerTicker.SlotTimeTick: requires ids from 1 on and a fraction below one second; id 0 is covered by the 64-bit lemmas, and a fraction of a second or more is not what a time server sends.
- Ticker.DeviceServerTicker.CatchUp: posts one hook per id, not one per device with a strand, because the devices present at that moment do not influence the ids.
- TickerProtocol.SingleTickerChain: time itself is not modelled there, a wait may expire at any moment. Forwarding is one step for all devices.
- TickerProtocol.StepKeepsInv: the destructor is enabled only when no slot call and no tick body holds the server, as the weak pointers in the bound handlers ensure.
- HashTree.MergeFind: the order of keys is not modelled for schemas and parameters, nor are tables with row indices in paths or nodes that carry a class id.
- SchemaLayers.SubSchemaHasTheSelected: access levels are left out, because the device never restricts them here.
- Configuration.AcceptsExactlyTheKnown: checks of values (types, ranges, options) are left out, only the structure of updates is validated.
- Configuration.FittingPasses: the same.
- Configuration.DefaultsAt: the schema node of an output channel, at which injection stops early, is left out with the channels.
- DeviceRuns.RunAligns: the first parameters are aligned by assumption, as defaults with accepted values on top are (`DefaultsAlign`, `SetKeepsAligned`); setting values without validation is left out.
- DeviceSchema.Device.SetNoLock: values are not checked and time stamps are left out.
- DeviceSchema.Device.UpdateSchema: as for AppendSchema, channels, time stamps and aliases are left out.
- DeviceSchema.Device.InternalAppendSchemaMultiMaxSize: recreating output channels is left out.
- DeviceSchema.Device.AppendSchema: creating and removing input and output channels, time stamps of parameters and aliases are left out.
- DeviceMap.OneReplyPerCall: exceptions that are not standard exceptions are left out, and threads are counted when an instantiate call asks for them, although the event loop adds and removes them later.
- DeviceMap.DeviceServerMap.StopDeviceServer: the cancelled timer and the killing of the devices are left out.
- DeepCopy.DeepCopyR: keys that end with an index in brackets and null pointers are left out, and pointers must not form cycles, for which the source does not terminate.
- IntegerTyping.BroadestType: the conversion of the elements after the choice is left out; of the two places that contain this loop, one is modelled.
- DeviceIds.IdsAreDistinct: the counter is a natural number without wrap-around.
- Broker, signals on the wire, logging, plugins, the event loop and the GUI side are not part of this model.
