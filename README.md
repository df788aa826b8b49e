# Reaction-ensemble Monte Carlo move and analysis framework, in Dafny

This project models the core of a Monte Carlo simulation package for
molecular systems. Three parts are modelled.

1. **The speciation move.** This is `SpeciationMove`, the reaction-ensemble move.
   - `_move` draws a reaction and a direction. It checks that the consumed
     species can be deleted and the produced species inserted. It then
     performs the proposal in place:
     - an optional same-slot swap of one atom's species;
     - atomic deletions, which exchange particles in both the trial space and
       the other space;
     - molecular deletions, with their bond energy added;
     - atomic insertions;
     - molecular insertions, relocated and with their bond energy subtracted;
     - the records of the touched groups, sorted by group index.
   - `bias` is the energy term beyond the Hamiltonian.
   - `_accept` and `_reject` keep the acceptance statistics per reaction and
     the reservoir counter.
   - `_to_json` reports the statistics.
2. **The move framework.** This covers:
   - the private hooks every move gives (`_move`, `_accept`, `_reject`,
     `bias`);
   - the mean-squared-displacement bookkeeping of the three displacement
     moves;
   - the weighted move draw of the `Propagator`;
   - the accepted/trial state pair of `MCSimulation`.
3. **The analysis framework.** This covers:
   - the sampling schedule every analysis shares (`sample`, `from_json`,
     `to_json`);
   - the dispatch of `CombinedAnalysis` from configuration keys to analyses;
   - three analyses that walk the group layout: `Density`'s counts,
     `SanityCheck`'s layout check and `QRtraj`'s frame.

## How the model is built

The configuration state is a `Space` class:
- `p` is an `array<Particle>`, updated in place.
- `groups` is a `seq<Group>`. A group owns the slots `[begin, begin+capacity)`, and its active particles are the first `size` of them.

`SpeciationMove` is a class holding:
- the trial space and the other space;
- the reaction library;
- `trialprocess` (the drawn reaction as an index), `lnK`, `bondenergy` and `forward`;
- `accmap`.

Its `Move` changes both spaces in place: `IterSwap` on the two arrays, and
`Deactivate`/`Activate` on the groups. It is proved against module
`Proposal`, which gives the same proposal as pure functions on values. The
main facts are:
- `Move` yields exactly what `Proposal.Propose` computes from the state
  before the call. That is the error when it throws, the unchanged change
  and state when it gives up, and the new change, particles, groups and
  bond energy otherwise.
- About those functions it is proved that:
  - the error happens exactly when the first failing check is that of an
    atomic species without exactly one group;
  - a new state comes exactly when the reaction is realizable;
  - a new state changes the groups by the reaction's stoichiometry and
    nothing else;
  - the change records are sorted and hold exactly the records pushed;
  - when the two spaces agreed, they then differ only in slots the records
    name, provided the swap cannot relabel an atom of an atomic group that
    the reaction deletes from (`Proposal.SwapClear`). That covers every
    reaction without a swap or without atomic deletions, and a swap inside a
    molecule while an ion's atomic group shrinks.
    `Proposal.SwapThenDeleteGap` exhibits an input outside it where the
    alignment fails.

Every random draw and every floating-point quantity comes from a `Draws`
value. The index t numbers the model's random operations in program order,
not the generator's draws: one operation may stand for several of the
program's draws (a random position for the three of `randompos`, a
relocation for `randompos`, `ranunit` and a `slump()`). Each result is an
arbitrary function of t and its other arguments, so the lemmas hold for
every generator. `pick(t, n)` is an index below n. Random positions,
rotations and bond energies are opaque functions.

The molecular deletion and insertion loops (`src/speciation.cpp:109-126`,
`148-174`) call `findMolecules` once per entry and draw from the list it
returns at each step. The source of `findMolecules` is not part of this
model. The model assumes that the list is a view that sees the
deactivations and activations of the earlier steps, so each step draws from
the groups that are still fully active, or still not fully active.
`Speciation.SpeciationMove.DropGroups`, `Speciation.SpeciationMove.FillGroups`,
`Proposal.DropRunIsDrop` and `Proposal.FillRunIsFill` rest on this
assumption.

The deletion loop at `src/speciation.cpp:99` exchanges the drawn atom with
the last active one only when their distance is above 1. The model keeps
that condition as written. `Proposal.TurnDeactivates` states what follows:
when the drawn atom is the second to last, the last atom is deactivated and
the drawn one stays active.

## Model

| member | source | states |
|---|---|---|
| Speciation.SpeciationMove.Move | src/speciation.cpp:18-181 | An empty reaction list throws "no reactions". Otherwise: the result, both particle vectors, the groups and the bond energy are exactly what `Proposal.Propose` gives from the state before the call; the drawn reaction, its ln K and the direction are recorded; the statistics are unchanged. |
| Speciation.SpeciationMove.MoveWith | src/speciation.cpp:20-178 | Once reaction k is drawn: the reaction, its ln K and draw 1's direction are recorded, and the result and the new state are what `Proposal.ProposeWith` gives for that reaction and direction. |
| Speciation.SpeciationMove.RecordDraw | src/speciation.cpp:20-23 | `trialprocess`, `lnK` and `forward` hold the drawn reaction, its ln K and the drawn direction. |
| Speciation.SpeciationMove.Trial | src/speciation.cpp:24-178 | First the checks in program order, then the mutation phases. The outcome and new state are those of `ProposeWith`: an error, a return with nothing changed, or the proposed change and state. |
| Speciation.SpeciationMove.ScreenReaction | src/speciation.cpp:24-56 | The verdict is that of `Proposal.Screen`. An empty reservoir gives up, then the delete checks run, then the addition checks. |
| Speciation.SpeciationMove.CheckRemovable | src/speciation.cpp:27-40 | The loop returns at the first failing delete check. Its verdict is `Proposal.CheckRemovals`'s, which is feasible exactly when every entry can be deleted. |
| Speciation.SpeciationMove.CheckInsertable | src/speciation.cpp:41-56 | Likewise for the addition checks: feasible exactly when every entry can be inserted, counting capacity for atomic groups and not fully active groups for molecules. |
| Speciation.SpeciationMove.SwapStep | src/speciation.cpp:58-78 | With no active atom of the consumed species there is no record and nothing changes. Otherwise this space becomes `Proposal.SwapAtom`'s state, with its one record: one slot relabelled at the same position, with the internal and dNswap flags. |
| Speciation.SpeciationMove.WriteSlot | src/speciation.cpp:76 | `*ait = p`: the relabelled particle is stored at its slot of this space. Every other slot of this space and the whole other space keep their particles. |
| Speciation.SpeciationMove.Perform | src/speciation.cpp:58-178 | Nothing happens exactly when `Proposal.Apply` aborts (a swap finds no atom). Otherwise the spaces and bond energy become `Apply`'s state, and the change has `dN` set and the records sorted in. |
| Speciation.SpeciationMove.Mutation | src/speciation.cpp:82-176 | The deletions of the consumed side and then the insertions of the produced side leave both spaces as `Proposal.Mutate` describes, and return its records. |
| Speciation.SpeciationMove.DeleteSide | src/speciation.cpp:83-128 | The deletion loop over the consumed side, in list order, ends in `Proposal.Removals`'s state and records. |
| Speciation.SpeciationMove.DeleteStep | src/speciation.cpp:83-128 | One turn of the deletion loop: the head entry is deleted. The entries left stay deletable and in sync with the other space, and deleting them gives the same `Proposal.Removals` state as the whole list did. |
| Speciation.SpeciationMove.DeleteEntry | src/speciation.cpp:84-127 | One consumed entry: the atomic branch or the molecular branch by the species' kind, ending in `Proposal.RemoveEntry`'s state and records. |
| Speciation.SpeciationMove.DeleteAtoms | src/speciation.cpp:85-107 | The deletion of an atomic entry: `Proposal.RemoveAtoms`'s state, on both spaces. |
| Speciation.SpeciationMove.DeactivateAtoms | src/speciation.cpp:89-107 | The n deactivations on the group and its twin, then the sorted offsets pushed as one atomic record: the state `Proposal.ShrinkInto` gives. |
| Speciation.SpeciationMove.SortOffsets | src/speciation.cpp:106 | `std::sort` of a record's offsets (here and at line 145): offsets that are a permutation of lo..hi-1 come out as lo..hi-1 in ascending order. |
| Speciation.SpeciationMove.ShrinkGroup | src/speciation.cpp:94-105 | The n turns on the group and its twin leave both vectors, and the recorded offsets, as `Proposal.ShrinkAtoms` gives them. The group loses n active slots. |
| Speciation.SpeciationMove.ShrinkOnce | src/speciation.cpp:95-104 | One turn: both vectors exchange the same two slots at `TurnSlots`, addressed in the other space from its group end. The last active slot is deactivated and its offset returned. |
| Speciation.SpeciationMove.IterSwap | src/speciation.cpp:100-101 | `std::iter_swap`: the vector afterwards is the old one with the two slots exchanged, and nothing else changed. |
| Speciation.SpeciationMove.DeleteMols | src/speciation.cpp:108-127 | The deletion of a molecular entry: `Proposal.RemoveMols`'s state, this space only. |
| Speciation.SpeciationMove.DropGroups | src/speciation.cpp:109-126 | n deletions with the selection taken afresh. The groups become `Proposal.Drop`'s and the records `DropRecords`'s; each molecule's bond energy is added before its deactivation. |
| Speciation.SpeciationMove.DropLoop | src/speciation.cpp:110-126 | After n turns the groups, the records and the added bond energy are those of `Proposal.DropRun` after n steps. |
| Speciation.SpeciationMove.DropOne | src/speciation.cpp:111-125 | One turn: a fully active group drawn from the current selection, its bond energy added before it is deactivated, and its whole-group record. The state afterwards is `Proposal.DropRun` one step further. |
| Speciation.SpeciationMove.Offsets | src/speciation.cpp:123-124 | The offsets of a whole-group record (here and at lines 169-170) are exactly 0..capacity-1 in order. |
| Speciation.SpeciationMove.AddSide | src/speciation.cpp:130-176 | The insertion loop over the produced side ends in `Proposal.Insertions`'s state and records. |
| Speciation.SpeciationMove.AddStep | src/speciation.cpp:130-176 | One turn of the insertion loop: the head entry is inserted. The entries left stay insertable, and inserting them gives the same `Proposal.Insertions` state as the whole list did. |
| Speciation.SpeciationMove.AddEntry | src/speciation.cpp:131-175 | One produced entry: the atomic branch or the molecular branch by the species' kind, ending in `Proposal.InsertEntry`'s state and records. |
| Speciation.SpeciationMove.AddAtoms | src/speciation.cpp:132-146 | The insertion of an atomic entry: `Proposal.InsertAtoms`'s state. |
| Speciation.SpeciationMove.ActivateAtoms | src/speciation.cpp:133-146 | The n activations, then the sorted offsets pushed as one atomic record: the state `Proposal.GrowInto` gives. |
| Speciation.SpeciationMove.GrowGroup | src/speciation.cpp:138-144 | n activations at the group's end, each slot given a random position. The group grows by n and the offsets are size..size+n-1. |
| Speciation.SpeciationMove.AddMols | src/speciation.cpp:147-175 | The insertion of a molecular entry: `Proposal.InsertMols`'s state. |
| Speciation.SpeciationMove.FillGroups | src/speciation.cpp:148-174 | n insertions with the selection taken afresh. Groups, particles and records are `Proposal.Fill`'s, `FillParticles`' and `FillRecords`'; each molecule's bond energy is subtracted after its relocation. |
| Speciation.SpeciationMove.FillOne | src/speciation.cpp:150-171 | Step N of the insertion loop: the state afterwards is `Proposal.FillRun` one step further, with one more record and the bond energy lowered by that step's. |
| Speciation.SpeciationMove.FillStep | src/speciation.cpp:150-171 | One insertion: a group that is not fully active drawn from the current selection, activated whole, relocated, its bond energy subtracted, and its record. Groups, particles and records become `Proposal.FillNext`'s. |
| Speciation.SpeciationMove.RelocateGroup | src/speciation.cpp:151-158 | Every slot of the group up to `trueend()` gets its placed position and keeps its other properties; every other slot is unchanged (`Proposal.Relocate`). |
| Speciation.SpeciationMove.SetOther | src/speciation.cpp:17 | The other space is the one given. |
| Speciation.SpeciationMove.Bias | src/speciation.cpp:182-186 | Forward gives the bond energy minus ln K; backward gives it plus ln K. |
| Speciation.SpeciationMove.Accept | src/speciation.cpp:187-192 | One accepted sample for the drawn reaction. Its reservoir moves by one against the direction. The error comes exactly when a canonic reservoir went negative, after both updates, so a reservoir that was non-negative and passed the `empty` check never throws (`Speciation.ConsumeKeepsReservoir`). `accmap` still tallies the decisions. |
| Speciation.SpeciationMove.Reject | src/speciation.cpp:193 | One rejected (0) sample for the drawn reaction, and nothing else changes. `accmap` still tallies the decisions. |
| Speciation.TalliesCount | src/speciation.cpp:187-193 | The statistics hold an entry exactly for the reactions decided on. Its count is their number of attempts and its sum the number accepted. |
| Speciation.ConsumeKeepsReservoir | src/speciation.cpp:189-191 | A canonic reservoir that starts non-negative and passed the `empty` check stays non-negative, so `_accept` then does not throw. |
| Speciation.SpeciationMove.ToJson | src/speciation.cpp:6-16 | The report is `ReactionReport` of the statistics: one key "reactions", holding per reaction name its attempts and its rounded acceptance. |
| Speciation.ReportCounts | src/speciation.cpp:13-14 | Reported from statistics that tally the decisions, each reaction's entry is its number of attempts and its accepted share. |
| Speciation.SpeciationMove.constructor | src/speciation.cpp:195-198 | Bound to the trial space, with no other space, no drawn reaction, empty statistics, the name "rcmc" and the reference "doi:10/fqcpg3". |
| Proposal.Propose | src/speciation.cpp:18-180 | It throws "no reactions" exactly when the list is empty. Otherwise it is `ProposeWith` for the reaction of draw 0 and the direction of draw 1. |
| Proposal.ProposeWith | src/speciation.cpp:24-178 | A throw is always the one-group-per-atomic error. A proposed state keeps the vector length and the group layout, and stays consistent with the species tables. |
| Proposal.ProposeWithOutcome | src/speciation.cpp:24-56 | The proposal yields a new state exactly when the reaction is realizable. It throws exactly when, in the program's check order, the first failing check is that of an atomic species without exactly one group. |
| Proposal.ProposeWithProposed | src/speciation.cpp:58-178 | A proposed state changes the groups by the stoichiometry and nothing else. The change keeps `dV` and `all` and sets `dN`, and its records are sorted and are the old plus the pushed ones. When both spaces agreed, they differ only in recorded slots, provided `SwapClear` holds: no active atom of the swap's consumed species lies in an atomic group that the consumed side names. |
| Proposal.ApplyProposed | src/speciation.cpp:58-177 | The same facts for the phases after the checks, under the same `SwapClear` condition for the alignment. |
| Proposal.ApplyAligned | src/speciation.cpp:58-178 | When the two spaces agreed and `SwapClear` holds, a proposed state leaves them different only in slots the change's sorted records name. |
| Proposal.NoAtomicClear | src/speciation.cpp:83-107 | A consumed side with no atomic species satisfies `SwapClear` for every swap. |
| Proposal.SwappedSlotClear | src/speciation.cpp:58-78 | Under `SwapClear`, the one slot the swap relabels is the only difference between two spaces that agreed, and no atomic group of the consumed side holds it active. |
| Proposal.RemovalsKeepSlot | src/speciation.cpp:83-128 | The deletions leave alone a slot that no atomic group of the consumed side holds active, in both spaces. Two spaces that differed at most there still differ at most there. |
| Proposal.RemoveEntryKeepsSlot | src/speciation.cpp:85-107 | The same for one entry: an atomic deletion exchanges only slots of its own group, and the same ones in both spaces. |
| Proposal.TurnedAgree | src/speciation.cpp:97-102 | Turns at the same slots on both vectors, all away from a given slot, keep two vectors that differed at most at that slot differing at most there. |
| Proposal.MutateSlotAligned | src/speciation.cpp:83-176 | When the spaces differ at most in one recorded slot that the consumed side's atomic groups do not hold active, the mutation phases leave them different only in recorded slots. |
| Proposal.Screen | src/speciation.cpp:24-56 | A feasible verdict implies a non-empty reservoir, every entry deletable and every entry insertable. |
| Proposal.CheckRemovalsMisdefined | src/speciation.cpp:27-40 | The delete checks report a definition error exactly when the first failing entry is an atomic species without exactly one group. |
| Proposal.CheckInsertionsMisdefined | src/speciation.cpp:41-56 | Likewise for the addition checks. |
| Proposal.SwapAtom | src/speciation.cpp:58-78 | There is no proposal exactly when `findAtoms` finds no atom of the consumed species. Otherwise one active atom of it becomes the produced species' template particle, at the same position and in this space only, recorded as that one group-relative index. |
| Proposal.SwapAtomNoAtom | src/speciation.cpp:63-65 | The swap phase gives up exactly when no active slot holds an atom of the consumed species. |
| Proposal.Relabel | src/speciation.cpp:58-78 | The swap phase aborts exactly for a swap that finds no atom. It keeps the groups, and leaves the spaces aligned with its one record. |
| Proposal.TurnDeactivates | src/speciation.cpp:97-104 | A turn moves the drawn atom to the last active slot, unless it is second to last, in which case nothing moves. No other slot changes. |
| Proposal.ShrinkRecordsRange | src/speciation.cpp:103-106 | Sorted, the offsets an atomic deletion records are exactly the deactivated ones, size-n..size-1. |
| Proposal.ShrinkFrame | src/speciation.cpp:94-105 | An atomic deletion moves only active slots of its group, in either space, and only permutes each vector. |
| Proposal.DropCount | src/speciation.cpp:109-126 | Molecular deletion empties exactly n fully active groups of the species. |
| Proposal.DropShape | src/speciation.cpp:109-126 | Molecular deletion only empties groups of the species, and no other group changes. |
| Proposal.DropRecordsWhole | src/speciation.cpp:119-125 | Every record of a molecular deletion names a whole, fully active group of the species. |
| Proposal.DropRunIsDrop | src/speciation.cpp:110-126 | When the delete check passed, the loop's n steps, each re-reading the selection, are exactly `Drop`, `DropRecords` and `DropBond`. |
| Proposal.FillCounts | src/speciation.cpp:148-174 | Molecular insertion makes exactly n more groups of the species fully active. |
| Proposal.FillShape | src/speciation.cpp:148-174 | Molecular insertion only fills groups of the species, and no other group changes. |
| Proposal.FillRecordsWhole | src/speciation.cpp:165-171 | Every record of a molecular insertion names a whole group of the species that was not fully active. |
| Proposal.FillParticlesAligned | src/speciation.cpp:150-158 | Molecular insertion changes only positions, and only in the slots of the groups it records. |
| Proposal.FillRunIsFill | src/speciation.cpp:149-174 | When the addition check passed, the loop's n steps are exactly `Fill`, `FillParticles`, `FillRecords` and `FillBond`. |
| Proposal.RemovalsConsume | src/speciation.cpp:83-128 | The deletions shrink each atomic group and each molecular species by what the consumed side names, and nothing else. |
| Proposal.InsertionsProduce | src/speciation.cpp:130-176 | The insertions grow each atomic group and each molecular species by what the produced side names, and nothing else. |
| Proposal.MutateBalanced | src/speciation.cpp:83-176 | The mutation phases change the groups by the stoichiometry and nothing else. When the spaces agreed, or no atomic species is deleted, the spaces differ only in recorded slots (`MutateSlotAligned` covers a swapped slot outside the deleted atomic groups). |
| Proposal.SwapThenDeleteGap | src/speciation.cpp:58-105 | A concrete input outside `SwapClear` where alignment fails: a swap relabels an atom of an atomic group, and a deletion from that same group draws slot 0. The relabelled particle moves to slot 0, which no record names. |
| Changes.SortGroups | src/speciation.cpp:178 | `std::sort` of the records: ordered by group index, and a permutation of the input. |
| Changes.SortAtomsRange | src/speciation.cpp:106 | Sorting offsets that hold exactly the run lo..hi-1 yields that run in ascending order. |
| Space.Space.Deactivate | src/speciation.cpp:104 | The group's active tail from `first` becomes inactive. No particle moves and no other group changes. |
| Space.Space.Activate | src/speciation.cpp:139 | The group's inactive slots up to `last` join its active prefix. No particle moves and no other group changes. |
| Space.FindMolecules | src/speciation.cpp:28 | Only indices of groups with the molecule id that the selection admits. `FindMoleculesComplete` adds that all of them are listed, in increasing order. |
| Space.FindMoleculesComplete | src/speciation.cpp:36-37 | Every group with the molecule id that the selection admits is listed. |
| Space.FindAtoms | src/speciation.cpp:63 | Only active slots whose particle has the atom id. `FindAtomsComplete` adds that every such slot is listed. |
| Space.FindAtomsComplete | src/speciation.cpp:63 | Every active slot whose particle has the atom id is listed. |
| Space.ActiveWithIdComplete | src/speciation.cpp:63 | Within one group, every active slot whose particle has the atom id is listed. |
| Space.FindAtomsEmpty | src/speciation.cpp:63-65 | `findAtoms` finds nothing exactly when no active slot holds a particle with the atom id. |
| Space.FindGroupContaining | src/speciation.cpp:67 | The first group whose active range holds the slot. |
| Moves.DisplacementMove.Move | src/moveWithoutPBC.h:161-166 | `_move` (declared here and at lines 205 and 373) leaves the squared displacement of its proposal in the `_sqd` field (lines 161, 187 and 368), which `_accept` then adds. The `_move` bodies are not in the modelled header; the contract follows the field's comment, "squared displacement". |
| Moves.DisplacementMove.Accept | src/moveWithoutPBC.h:167 | One more `msqd` sample, the squared displacement of the proposal, and the history of verdicts extended by it. |
| Moves.DisplacementMove.Reject | src/moveWithoutPBC.h:168 | One more `msqd` sample of 0, and the history extended by a rejection. |
| Moves.MsqdCounts | src/moveWithoutPBC.h:374-375 | `msqd` counts every accepted and every rejected proposal, and sums exactly the accepted displacements. |
| Moves.Propagator.Sample | src/moveWithoutPBC.h:435-441 | The end position exactly when there is no move. Otherwise the drawn move, which the weights' distribution puts on one of them. |
| Moves.MCSimulation.constructor | src/moveWithoutPBC.h:462-463 | Two distinct states, with distinct spaces and particle vectors, built alike from the same input. |
| Moves.AccessorsIgnoreTrial | src/moveWithoutPBC.h:472-477 | `pot()`, `space()` and `particles()` read only the accepted state: two simulations sharing it agree on all three. |
| Analysis.Analysisbase.Sample | src/analysis.cpp:22-34 | One call advances the counters as `Schedule.Tick` does and returns whether `_sample` runs. |
| Analysis.TickCounts | src/analysis.cpp:22-34 | Each call counts one more step in total and in the period. It samples exactly when the period elapses after the skipped steps, and then only once. |
| Analysis.NeverFires | src/analysis.cpp:25 | With unbounded counters, a period that is not positive never samples. |
| Analysis.NeverRuns | src/analysis.cpp:22-34 | With a period that is not positive, no number of calls takes a sample. |
| Analysis.RunFromStart | src/analysis.cpp:22-34 | From fresh counters n calls leave the period counter at n mod steps and the total at n. They take one sample for every multiple of the period among 1..n that is above nskip. |
| Analysis.Analysisbase.FromJson | src/analysis.cpp:36-38 | "nstep" and "nskip", each 0 when absent, or the type error. When "nskip" fails, the period is already set. |
| Analysis.Configure | src/analysis.cpp:37-38 | It fails exactly when either value is not a number. A missing key gives 0, and "nstep"'s error comes first. |
| Analysis.DefaultNeverSamples | src/analysis.cpp:37 | An analysis configured without "nstep" never samples. |
| Analysis.SanityDefaultNeverSamples | src/analysis.cpp:653-657 | `SanityCheck` reads "nstep" with -1 as its fallback, so unconfigured it never samples. |
| Analysis.Analysisbase.ToJson | src/analysis.cpp:42-58 | The entry under the analysis's name is what `_to_json` left (`null` for a new entry it did not touch). It is left as it is until the analysis has sampled or has a reference. After that it is the `Report` object built over it, and the write throws when the entry is neither `null` nor an object. Every other key is kept. |
| Analysis.UnsampledReportIsNull | src/analysis.cpp:42-58 | An analysis whose period is not positive, with no reference and a base `_to_json`, leaves `null` under its name however many steps were run. This is an unconfigured `SanityCheck`. |
| Analysis.Report | src/analysis.cpp:46-55 | Once sampled, "nstep" and "samples" are added, "nskip" when positive, and "relative time" above 1%. "reference" comes when set. Every other key is the analysis's own. |
| Analysis.KindOfKnown | src/analysis.cpp:324-359 | Sanity check of the model's copy of the key table: `KindOf` is defined exactly on the eighteen keys. |
| Analysis.KeyOfKnown | src/analysis.cpp:324-359 | Sanity check of the model's copy of the key table: `KeyOf` and `KindOf` agree on every entry. |
| Analysis.KindOfInjective | src/analysis.cpp:324-359 | Sanity check of the model's copy of the key table: no two keys map to the same analysis. |
| Analysis.UnknownRejected | src/analysis.cpp:362-363 | A configuration array holding an object whose object-valued key is outside the table yields the "unknown analysis" error. |
| Analysis.KnownObjectAdds | src/analysis.cpp:320-362 | A configuration object whose object-valued keys are all known adds one analysis per such key. |
| Analysis.AddObjectGrows | src/analysis.cpp:323-359 | The analyses an object adds come after those already added. |
| Analysis.CombinedAnalysis.Build | src/analysis.cpp:317-368 | The constructor's loops visit the array's elements in order and each object's members in key order. The result is `Analyses` of the configuration: the error for an unknown object-valued key, or for `key()` on an array holding an object. |
| Analyses.Density.Sample | src/analysis.cpp:479-502 | Every atom id of an atomic group's slots gets the count of its active atoms. Every molecular group's id gets the count of its non-empty groups. |
| Analyses.Density.Zeroed | src/analysis.cpp:483-489 | A zero count for exactly those keys. |
| Analyses.Density.ZeroGroup | src/analysis.cpp:484-488 | One group of the first loop: an atomic group adds a zero for the id of every slot up to `trueend()`, a molecular group a zero for its own id. All counts stay zero. |
| Analyses.Density.Counted | src/analysis.cpp:496-502 | Counted from zeroed maps, the keys stay and the counts are those of the layout. |
| Analyses.Density.CountGroup | src/analysis.cpp:497-502 | One group of the second loop: an atomic group adds its active atoms of each id, and a non-empty molecular group one to its own id. No key is added. |
| Analyses.Density.CountAtoms | src/analysis.cpp:498-499 | The active slots of one atomic group: each id's count grows by the number of its active atoms in the group, and no key is added. |
| Analyses.CountedAreKeys | src/analysis.cpp:483-502 | Counting never creates a key: every id it counts was zeroed first. |
| Analyses.AtomCountFindAtoms | src/analysis.cpp:496-499 | `Natom` counts no more than `findAtoms` finds, and exactly that when every group is atomic. |
| Analyses.NmolIsActive | src/analysis.cpp:501-502 | `Nmol` counts the active molecules that `findMolecules` lists when each molecular group of the id is full or empty and no atomic group carries it. |
| Analyses.SanityCheck.CheckLayout | src/analysis.cpp:628-634 | The loops' verdict is `Layout`: out of range, out of sync, or unfinished, at the first slot that fails. |
| Analyses.SanityCheck.Sample | src/analysis.cpp:617-652 | With no group the check never runs. Otherwise the verdict is the layout check's. |
| Analyses.WalkCases | src/analysis.cpp:629-634 | The walk passes exactly when the slots are i..n-1. It is unfinished exactly on a proper prefix of those, and out of range exactly when they run past the vector. |
| Analyses.LayoutPasses | src/analysis.cpp:628-634 | The check passes exactly when the groups' slots, in group order, are 0..n-1. |
| Analyses.TiledPasses | src/analysis.cpp:628-634 | Groups laid back to back over the whole vector pass the check. |
| Analyses.QRtraj.WriteFrame | src/analysis.cpp:297-305 | The frame written is `Frame` of the space. |
| Analyses.GroupFrame | src/analysis.cpp:298-303 | One entry per slot up to `trueend()`: the charge and half the sigma of an active slot, and zeros for an inactive one. |
| Analyses.FrameAt | src/analysis.cpp:297-304 | Slot j of group gi is the entry after the capacities of the groups before it. |
| Analyses.TiledFrame | src/analysis.cpp:297-304 | Over groups that tile the vector, the frame lines up with it. Each particle gets its own entry when active and zeros otherwise. |
| JSON.IntValue | src/analysis.cpp:37 | `value(key, fallback)` read as an integer: the fallback when absent, an integer as is, a float truncated toward zero, a boolean as 0 or 1, and a type error otherwise. |
| JSON.Trunc | src/analysis.cpp:38 | C++'s float-to-integer conversion truncates toward zero. |

## Left out

- Floating point and geometry. Positions, rotations, boundary wrapping and bond energies are opaque values from `Draws`, and nothing computes with them. This leaves out:
  - the mass-centre assertion at `src/speciation.cpp:172-173`;
  - `Density`'s volume averages, histograms and densities (`src/analysis.cpp:491-494`, `500`, `504` on);
  - `SanityCheck`'s container-collision check (`621-626`) and mass-centre check (`636-650`).
- Randomness. `slump` becomes the caller-supplied `Draws`. Its index t numbers the model's random operations, not the generator's draws, and each result is an arbitrary function of t, so the model does not follow the generator's sequence of numbers.
- Files, streams and timers. These cover:
  - the files analyses open and write (`QRtraj` returns its frame as a sequence of entries);
  - the `.pqr` dump;
  - the run-time share, given as a parameter `time`.
- `_round`/`_roundjson`, which are a parameter `round`.
- The Movebase public wrappers `move`, `accept`, `reject`, `from_json` and `to_json`, and the counters `cnt`, `accepted` and `rejected`. Their definitions are not in the modelled headers; the hooks they call are modelled.
- `metropolis`, `drift`, `init` and `State::sync`, which are declared at `src/moveWithoutPBC.h:452-480`. Their bodies are not part of this model.
- The JSON reading of `State` and `MCSimulation`. The model builds both states from the same particles and groups.
- The displacement moves' `_move`, `_to_json` and `_from_json`, which are geometry. Their bodies are not part of this model: `src/moveWithoutPBC.h` only declares them (lines 164-166, 203-205, 371-373). Only the `_sqd` bookkeeping is modelled, in `Moves.DisplacementMove.Move`, taken from the fields' comment "squared displacement".
- `ParallelTempering` and the other moves and analyses of the repository.
- `SpeciationMove::_from_json`, which does nothing (`src/speciation.h:40`).
- The constructors of the analyses. Their own options, file names and I/O errors are not modelled. Only `SanityCheck`'s "nstep" fallback of -1 is, in `Analysis.SanityDefaultNeverSamples`.
- Error messages. Each error is a datatype value. In particular, the re-throw at `src/analysis.cpp:365-367` adds a message and `usageTip` to the error, and the model keeps only the error's kind.
- Counter widths. The declarations of the `Analysisbase` counters are not part of this model, so their widths are unknown. The model assumes unbounded counters: no wrap-around, and no overflow, which for a signed `int` counter is undefined behaviour after 2^31 calls. `Analysis.NeverFires`, `Analysis.NeverRuns` and `Analysis.SanityDefaultNeverSamples` ("never samples" for a period that is not positive) rest on this assumption. The `unsigned long` counters of the moves are unbounded integers too.
- Pointers. `trialprocess` is an index into the reaction library rather than a pointer, and the library is a field of the move rather than a global vector.
- Speciation.SpeciationMove.Move: it requires that the other space have the same groups and vector length as the trial space. The program assumes this without checking it (`src/speciation.cpp:88`, "implies that new and old are in sync").
- Speciation.SpeciationMove.constructor: it requires a well-formed reaction library. A swap reaction must have exactly one atom species on each side, which the program only asserts (`src/speciation.cpp:61-62`, `77`).
- Proposal.ProposeWithProposed: the alignment of the two spaces with the change's records is stated only under `SwapClear`, that is, when no active atom of the swap's consumed species lies in an atomic group the consumed side names. Outside it, the alignment depends on which atom is drawn, and `Proposal.SwapThenDeleteGap` exhibits an input where it fails.
- Proposal.ApplyProposed: the same `SwapClear` condition as `Proposal.ProposeWithProposed`.
- Proposal.MutateBalanced: its alignment clause covers two spaces that agreed, or no atomic deletion. A swapped slot outside the deleted atomic groups is covered by `Proposal.MutateSlotAligned`.
- Analyses.SanityCheck.CheckLayout: groups that end before the vector does are reported as `Unfinished`, from the assertion at `src/analysis.cpp:634`. With assertions compiled out the program passes such a layout.
- Analysis.Analysisbase.ToJson: `own` stands for whatever the analysis's `_to_json` leaves under its name, including members that were already there. The outer `j` is taken to be an object, whose `operator[]` cannot throw.
- Space.GroupsOk: it requires every molecular group to own at least one slot (a molecule has at least one atom). The program never checks this.
- Changes.SortGroups: `std::sort` (`src/speciation.cpp:178`) is not stable, so records with the same group index, such as the swap's and an atomic deletion's in one group, may come out in either order. The model fixes one order. `Speciation.SpeciationMove.Move`'s "exactly `Propose`" therefore describes one of the results the program may give, and they differ only in the order of records with equal group indices.
- The group layout helpers of the space (`findMolecules`, `findAtoms`, `findGroupContaining`, `activate`, `deactivate`) and the reaction data (`empty`, `Molecules2Add`). Their sources are not part of this model, so they are modelled from their uses in `src/speciation.cpp` and `src/analysis.cpp`.
