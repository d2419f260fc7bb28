# Transition: overlapping lines, undo history, numeric-id objects, schedule duplication

A Dafny model of four sequential components of the Transition transit-planning
platform, with proofs of what they promise.

- **Overlapping lines** (`overlapping_lines.dfy`, module `OverlappingLines`).
  On a map of transit paths, lines that share street segments are fanned out
  side by side. The model follows the algorithm's four steps:
  - find the segments shared by each pair of lines and group the lines by segment;
  - classify each member line as running along the segment or against it;
  - offset the members by multiples of three metres and splice each offset
    segment back into the member's own line;
  - drop coordinates that have a NaN component.

  The feature collection is the class `Layer`, whose methods change its lines
  in place. The geometry primitives `lineOverlap` and `lineOffset` are function
  parameters.
- **Undo/redo history** (`history_tracker.dfy`, module `History`). A bounded
  list of snapshots with a cursor, as a class whose methods are proved against
  a value-level `Timeline`. Recording cuts the redo branch, appends, then drops
  the oldest snapshots beyond `maxCount`.
- **Objects with a numeric id** (`base_object.dfy`, module `BaseObjects`). This
  file covers:
  - construction defaults for `id`, `uuid` and `is_frozen`;
  - the frozen guard on `set` and `mergeAttributes`;
  - validation with a cached verdict and error list;
  - the one-way deleted mark;
  - cloned attributes and reads with a default.
- **Schedule duplication** (`schedule_duplicator.dfy`, module `Schedules`). A
  copy of a schedule with every period detached and its path ids remapped, and
  every trip re-linked to its period.

`js_values.dfy` (module `JsValues`) holds what the last three share:
- JavaScript values and their truthiness;
- attribute records, in which a missing key reads as undefined.

## Model

| member | source | states |
|---|---|---|
| OverlappingLines.Reverse | packages/chaire-lib-common/src/services/geodata/ManageOverlappingLines.ts:78 | the reversed copy has the same length and position k holds the element at the mirrored position |
| OverlappingLines.FirstMatchFromIsLeftmost | packages/chaire-lib-common/src/services/geodata/ManageOverlappingLines.ts:99-118 | the scan's match from position i is a full in-bounds componentwise match, and no earlier position from i matches; no result means no position matches |
| OverlappingLines.SpliceWindow | packages/chaire-lib-common/src/services/geodata/ManageOverlappingLines.ts:95-118 | splicing keeps the line's length; it overwrites exactly the leftmost matching window with the offset line's first coordinates and leaves every other position alone; with no match the line is unchanged |
| OverlappingLines.WindowMatches | packages/chaire-lib-common/src/services/geodata/ManageOverlappingLines.ts:100-110 | the forEach flag stays true exactly when every coordinate of the segment lies inside the line from position i and equals the line's coordinate there |
| OverlappingLines.Layer.ReplaceCoordinate | packages/chaire-lib-common/src/services/geodata/ManageOverlappingLines.ts:89-119 | the nested scan-and-overwrite loops leave line `lineId` equal to its splice and every other line untouched |
| OverlappingLines.LookupFromFacts | packages/chaire-lib-common/src/services/geodata/ManageOverlappingLines.ts:136-137 | the search returns a position from the start point whose entry has the segment as key, or reports that no entry from the start point has it |
| OverlappingLines.LookupFacts | packages/chaire-lib-common/src/services/geodata/ManageOverlappingLines.ts:136-137 | `has`/`get` on the Map: the entry found has the segment as key, and none is found only when no entry has it |
| OverlappingLines.SetAddFacts | packages/chaire-lib-common/src/services/geodata/ManageOverlappingLines.ts:137 | `Set.add` keeps earlier members, in order, as a prefix; it adds exactly the new element, at the end when it is new, and keeps members distinct |
| OverlappingLines.AddPairKeepsSound | packages/chaire-lib-common/src/services/geodata/ManageOverlappingLines.ts:134-138 | recording one segment of an overlapping pair keeps keys distinct and every set sound (at least two distinct valid lines, each sharing the segment) |
| OverlappingLines.AddPairGrows | packages/chaire-lib-common/src/services/geodata/ManageOverlappingLines.ts:136-137 | recording one segment only grows the Map (every key stays at its position and every set keeps its members as a prefix) and records the pair under that segment |
| OverlappingLines.AddFirstKeepsSound | packages/chaire-lib-common/src/services/geodata/ManageOverlappingLines.ts:134-138 | recording the first k reported segments of a pair keeps the Map sound |
| OverlappingLines.AddFirstGrows | packages/chaire-lib-common/src/services/geodata/ManageOverlappingLines.ts:134-138 | recording the first k reported segments of a pair only grows the Map |
| OverlappingLines.AddFirstRecords | packages/chaire-lib-common/src/services/geodata/ManageOverlappingLines.ts:134-138 | after the first k reported segments of a pair, each of them is recorded with both lines |
| OverlappingLines.PairOverlapRecorded | packages/chaire-lib-common/src/services/geodata/ManageOverlappingLines.ts:129-138 | after a pair's whole overlap, every segment reported for the pair is recorded with both lines, and the Map only grew |
| OverlappingLines.AddOverlaps | packages/chaire-lib-common/src/services/geodata/ManageOverlappingLines.ts:134-138 | the loop over one pair's overlap is the in-order fold recording each reported segment, whose soundness, growth and recording the AddFirst lemmas prove |
| OverlappingLines.AddRowOfPairs | packages/chaire-lib-common/src/services/geodata/ManageOverlappingLines.ts:128-139 | the inner loop is the in-order fold over j > i of the pair folds |
| OverlappingLines.AddRowKeepsSound | packages/chaire-lib-common/src/services/geodata/ManageOverlappingLines.ts:128-139 | the inner loop keeps the Map sound |
| OverlappingLines.AddRowGrows | packages/chaire-lib-common/src/services/geodata/ManageOverlappingLines.ts:128-139 | the inner loop only grows the Map |
| OverlappingLines.AddRowRecords | packages/chaire-lib-common/src/services/geodata/ManageOverlappingLines.ts:128-139 | after the inner loop up to j, every pair (i, b) with i < b < j is recorded |
| OverlappingLines.FindUpToSound | packages/chaire-lib-common/src/services/geodata/ManageOverlappingLines.ts:127-140 | after the first i outer iterations the Map is sound |
| OverlappingLines.FindUpToRecords | packages/chaire-lib-common/src/services/geodata/ManageOverlappingLines.ts:127-140 | after the first i outer iterations every pair (a, b) with a < i and a < b is recorded |
| OverlappingLines.FindOverlapingLines | packages/chaire-lib-common/src/services/geodata/ManageOverlappingLines.ts:121-142 | the Map built is exactly the reference fold over the pairs i < j in lexicographic order and each pair's segments in reported order, so the keys are in first-insertion order and each set lists its lines in insertion order |
| OverlappingLines.FindRefSound | packages/chaire-lib-common/src/services/geodata/ManageOverlappingLines.ts:121-142 | the reference Map has distinct keys; every set has at least two distinct valid lines, each sharing the key; for every pair a < b each reported segment's set holds both |
| OverlappingLines.ClassifyIsFirstTouch | packages/chaire-lib-common/src/services/geodata/ManageOverlappingLines.ts:154-163 | the direction is decided by the first vertex equal to either endpoint; it is forward exactly when that vertex equals the first point (so the first point wins a tie); it is absent exactly when no vertex touches an endpoint |
| OverlappingLines.DirectionsAtMostMembers | packages/chaire-lib-common/src/services/geodata/ManageOverlappingLines.ts:147-164 | a group never has more directions than member lines |
| OverlappingLines.DirectionsPairWithMembers | packages/chaire-lib-common/src/services/geodata/ManageOverlappingLines.ts:147-169 | when every member touches an endpoint, direction k is member k's classification |
| OverlappingLines.ManageOverlapingSegmentsData | packages/chaire-lib-common/src/services/geodata/ManageOverlappingLines.ts:144-173 | one group per Map entry, in key order, with the entry's segment, its members in insertion order and the members' directions |
| OverlappingLines.ApplyMembersKeepsLineLengths | packages/chaire-lib-common/src/services/geodata/ManageOverlappingLines.ts:71-85 | offsetting a group's members never changes any line's coordinate count |
| OverlappingLines.ApplyGroupsKeepsLineLengths | packages/chaire-lib-common/src/services/geodata/ManageOverlappingLines.ts:67-86 | offsetting all groups never changes any line's coordinate count |
| OverlappingLines.ApplyMembersLeavesOthers | packages/chaire-lib-common/src/services/geodata/ManageOverlappingLines.ts:71-85 | offsetting the first k members leaves every line that is not among them unchanged |
| OverlappingLines.ApplyMembersAtMember | packages/chaire-lib-common/src/services/geodata/ManageOverlappingLines.ts:71-85 | after member j, member j's line is its original coordinates with member j's offset segment spliced in |
| OverlappingLines.ApplyMembersLaterKeep | packages/chaire-lib-common/src/services/geodata/ManageOverlappingLines.ts:71-85 | with distinct members, later members leave member j's line as member j left it |
| OverlappingLines.ApplyMembersPerLine | packages/chaire-lib-common/src/services/geodata/ManageOverlappingLines.ts:71-85 | with distinct members, each member line becomes its own splice and lines outside the group are unchanged; this is the corrected orientation, which the loop as written matches when every member but the last runs forward |
| OverlappingLines.SameDirectionFansOut | packages/chaire-lib-common/src/services/geodata/ManageOverlappingLines.ts:69-83 | a later member running the same way as an earlier one is offset at least three metres further |
| OverlappingLines.FirstOfDirectionNotOffset | packages/chaire-lib-common/src/services/geodata/ManageOverlappingLines.ts:69-83 | a member gets offset 0 exactly when no earlier member of its group runs the same way (the two counters are independent and start at 0) |
| OverlappingLines.MemberSegmentStartsWhereMemberMeetsIt | packages/chaire-lib-common/src/services/geodata/ManageOverlappingLines.ts:73-82 | for a member whose direction is its classification, the segment it is handed has the segment's length and starts at the vertex at which its line first touches an endpoint |
| OverlappingLines.ForwardMemberAfterBackwardIsSkippedAsWritten | packages/chaire-lib-common/src/services/geodata/ManageOverlappingLines.ts:78-82 | as written, a forward member after a backward one is handed the reversed segment and its line a -> b is left unchanged; the intended segment would have been spliced |
| OverlappingLines.SegmentAsWrittenParity | packages/chaire-lib-common/src/services/geodata/ManageOverlappingLines.ts:78-82 | as written, a member gets its intended orientation exactly when an even number of earlier members run backward |
| OverlappingLines.AsWrittenMembersAgree | packages/chaire-lib-common/src/services/geodata/ManageOverlappingLines.ts:71-85 | when every member has an even number of earlier backward members, the loop as written gives the same lines as the corrected one |
| OverlappingLines.AsWrittenGroupsAgree | packages/chaire-lib-common/src/services/geodata/ManageOverlappingLines.ts:66-87 | when that holds for every group, applyOffset as written gives the same layer as the corrected one |
| OverlappingLines.EvenBackwardForcesForward | packages/chaire-lib-common/src/services/geodata/ManageOverlappingLines.ts:78-82 | in such a group every member before the last runs forward, so no backward member precedes them |
| OverlappingLines.EvenBackwardBeforeIffForwardPrefix | packages/chaire-lib-common/src/services/geodata/ManageOverlappingLines.ts:78-82 | a group has that shape exactly when every member but the last runs forward |
| OverlappingLines.ApplyMembersAsWrittenKeepsLineLengths | packages/chaire-lib-common/src/services/geodata/ManageOverlappingLines.ts:69-85 | as written, offsetting a group's members never changes any line's coordinate count, whatever the order of directions |
| OverlappingLines.ApplyGroupsAsWrittenKeepsLineLengths | packages/chaire-lib-common/src/services/geodata/ManageOverlappingLines.ts:66-87 | as written, offsetting all groups never changes any line's coordinate count |
| OverlappingLines.ApplyMembersAsWrittenLeavesOthers | packages/chaire-lib-common/src/services/geodata/ManageOverlappingLines.ts:69-85 | as written, offsetting the first k members leaves every line that is not among them unchanged |
| OverlappingLines.ApplyMembersAsWrittenAtMember | packages/chaire-lib-common/src/services/geodata/ManageOverlappingLines.ts:72-82 | as written, member j's line after member j is its original coordinates spliced with the offset of the segment in the orientation the earlier backward members left it |
| OverlappingLines.Layer.ApplyGroup | packages/chaire-lib-common/src/services/geodata/ManageOverlappingLines.ts:69-85 | the inner loop leaves the layer as the in-order offsetting of the group's classified members, each oriented by its own direction |
| OverlappingLines.Layer.ApplyOffset | packages/chaire-lib-common/src/services/geodata/ManageOverlappingLines.ts:66-87 | the loops with their two counters give group by group, member by member, the splice of each member's offset segment at its counter distance, with each member oriented by its own direction |
| OverlappingLines.Clean | packages/chaire-lib-common/src/services/geodata/ManageOverlappingLines.ts:59-61 | the filtered line is never longer than the line |
| OverlappingLines.CleanMembers | packages/chaire-lib-common/src/services/geodata/ManageOverlappingLines.ts:59-61 | a coordinate survives exactly when it is in the line and neither component is NaN (Infinity is kept) |
| OverlappingLines.CleanAppend | packages/chaire-lib-common/src/services/geodata/ManageOverlappingLines.ts:59-61 | filtering distributes over concatenation, so the kept coordinates stay in order |
| OverlappingLines.CleanKeepsCleanLines | packages/chaire-lib-common/src/services/geodata/ManageOverlappingLines.ts:57-64 | a line without NaN is unchanged, and cleaning is idempotent |
| OverlappingLines.Layer.CleanLines | packages/chaire-lib-common/src/services/geodata/ManageOverlappingLines.ts:57-64 | every line becomes its filtered self; the number of lines is unchanged |
| OverlappingLines.Layer.ManageOverlappingLines | packages/chaire-lib-common/src/services/geodata/ManageOverlappingLines.ts:48-55 | the groups are the reference Map's entries in order, each with the entry's segment and lines; they are sound, with distinct segments and directions from their members; every reported overlap of a pair is a group holding both lines; the layer ends as the cleaned result of offsetting those groups |
| History.Start | packages/chaire-lib-common/src/utils/objects/HistoryTracker.ts:23-29 | a fresh history holds only the initial value: it is current, nothing can be undone or redone, and nothing has changed |
| History.RecordKeepsInvariant | packages/chaire-lib-common/src/utils/objects/HistoryTracker.ts:76-90 | recording keeps at most `maxCount` snapshots (or the single one) and, with a positive bound, the cursor on a snapshot |
| History.RecordMakesCurrent | packages/chaire-lib-common/src/utils/objects/HistoryTracker.ts:79-89 | the recorded value becomes current, redo becomes impossible and the length is capped at `maxCount`; a bound of 0 empties the history |
| History.RecordDropsOldest | packages/chaire-lib-common/src/utils/objects/HistoryTracker.ts:86-89 | only the oldest snapshots are dropped; the kept ones are the most recent up to the old cursor, in order |
| History.RecordThenUndo | packages/chaire-lib-common/src/utils/objects/HistoryTracker.ts:76-90 | with room for two snapshots, undoing a record returns and restores the value that was current before it |
| History.UndoThenRedo | packages/chaire-lib-common/src/utils/objects/HistoryTracker.ts:47-54 | a successful undo followed by redo restores the timeline and returns the value that was current |
| History.RedoThenUndo | packages/chaire-lib-common/src/utils/objects/HistoryTracker.ts:47-54 | a successful redo followed by undo restores the timeline and returns the value that was current |
| History.CanUndoRedoAgree | packages/chaire-lib-common/src/utils/objects/HistoryTracker.ts:35-54 | canRedo holds exactly when redo returns a value; canUndo too, except on an emptied history, where it holds while undo returns nothing |
| History.UndoRedoKeepInvariant | packages/chaire-lib-common/src/utils/objects/HistoryTracker.ts:47-54 | undo and redo only move the cursor and keep the invariant |
| History.ResetRestoresInitial | packages/chaire-lib-common/src/utils/objects/HistoryTracker.ts:67-70 | after a reset nothing has changed, and with room for two snapshots the reset can itself be undone |
| History.AttributeChangeIsChange | packages/chaire-lib-common/src/utils/objects/HistoryTracker.ts:99-106 | a changed attribute implies a changed object |
| History.HistoryTracker.constructor | packages/chaire-lib-common/src/utils/objects/HistoryTracker.ts:23-29 | the tracker starts as the fresh history of the initial value with the given bound |
| History.HistoryTracker.CanUndo | packages/chaire-lib-common/src/utils/objects/HistoryTracker.ts:35 | the result is whether the cursor is off the first snapshot |
| History.HistoryTracker.CanRedo | packages/chaire-lib-common/src/utils/objects/HistoryTracker.ts:41 | the result is whether the cursor is off the last snapshot |
| History.HistoryTracker.Undo | packages/chaire-lib-common/src/utils/objects/HistoryTracker.ts:47 | the state and result are the timeline's undo; the invariant is kept |
| History.HistoryTracker.Redo | packages/chaire-lib-common/src/utils/objects/HistoryTracker.ts:53-54 | the state and result are the timeline's redo; the invariant is kept |
| History.HistoryTracker.Current | packages/chaire-lib-common/src/utils/objects/HistoryTracker.ts:60 | the result is the snapshot at the cursor, absent for an emptied history |
| History.HistoryTracker.Record | packages/chaire-lib-common/src/utils/objects/HistoryTracker.ts:76-90 | the cut, push and shift loop yield the timeline's record; the invariant is kept |
| History.HistoryTracker.ShiftOldest | packages/chaire-lib-common/src/utils/objects/HistoryTracker.ts:86-89 | the loop drops exactly the oldest snapshots beyond `undoCount` and moves the cursor back by as many |
| History.HistoryTracker.Reset | packages/chaire-lib-common/src/utils/objects/HistoryTracker.ts:67-70 | reset records the initial value and returns it |
| History.HistoryTracker.HasChanged | packages/chaire-lib-common/src/utils/objects/HistoryTracker.ts:99-106 | without an attribute: whether current differs from the initial value; with one: whether the history holds more than one snapshot and that attribute differs |
| BaseObjects.PrepareAttributes | packages/chaire-lib-common/src/utils/objects/BaseObjectWithNumericId.ts:70-79 | a falsy id becomes -1, a falsy uuid the fresh one, `is_frozen` its truthiness; all other attributes are kept and no other key is added |
| BaseObjects.IsFrozen | packages/chaire-lib-common/src/utils/objects/BaseObjectWithNumericId.ts:81-83 | `isFrozen()`: `is_frozen` is exactly `true`; after construction this is the truthiness of the given `is_frozen` (NewIffNoId) |
| BaseObjects.IsNew | packages/chaire-lib-common/src/utils/objects/BaseObjectWithNumericId.ts:137-139 | `isNew()`: the id is exactly -1; after construction this holds exactly for a falsy or -1 id (NewIffNoId) |
| BaseObjects.NewIffNoId | packages/chaire-lib-common/src/utils/objects/BaseObjectWithNumericId.ts:137-139 | a constructed object is new exactly when it was given a falsy id or -1, and frozen exactly when `is_frozen` was truthy |
| BaseObjects.PrepareIdempotent | packages/chaire-lib-common/src/utils/objects/BaseObjectWithNumericId.ts:70-79 | preparing prepared attributes changes nothing |
| BaseObjects.Merge | packages/chaire-lib-common/src/utils/objects/BaseObjectWithNumericId.ts:67 | the keys are the union; each update value overrides, except that an undefined value does not override an existing key |
| BaseObjects.MergeFreezing | packages/chaire-lib-common/src/utils/objects/BaseObjectWithNumericId.ts:62-68 | merging `is_frozen: false` unfreezes; merging nothing about it keeps the frozen state |
| BaseObjects.ClonedAttributes | packages/chaire-lib-common/src/utils/objects/BaseObjectWithNumericId.ts:154-167 | without deleting specifics the copy is the attributes; with it, id and uuid are gone, truthy dates are gone, and every other key is kept with its value |
| BaseObjects.CloneIsNew | packages/chaire-lib-common/src/utils/objects/__tests__/BaseObjectWithNumericId.test.ts:59-66 | constructing from a clone without specifics gives a new object with the fresh uuid, the same frozen state and the same other attributes |
| BaseObjects.CloneKeepingSpecifics | packages/chaire-lib-common/src/utils/objects/__tests__/BaseObjectWithNumericId.test.ts:68-75 | constructing from a full clone gives back the same attributes, id and uuid included |
| BaseObjects.GetOrDefault | packages/chaire-lib-common/src/utils/objects/BaseObjectWithNumericId.ts:169-175 | a non-blank value is returned as stored; a blank one (null, undefined, '') gives the default when there is one; with no default the stored value is returned |
| BaseObjects.BaseObject.constructor | packages/chaire-lib-common/src/utils/objects/BaseObjectWithNumericId.ts:37-44 | the attributes are the prepared ones; the object starts not valid, without errors and not deleted |
| BaseObjects.BaseObject.Set | packages/chaire-lib-common/src/utils/objects/BaseObjectWithNumericId.ts:85-94 | fails with the path's message exactly when frozen and the path is not `is_frozen`, changing nothing; otherwise the path reads as the value and every other key as before |
| BaseObjects.BaseObject.MergeAttributes | packages/chaire-lib-common/src/utils/objects/BaseObjectWithNumericId.ts:62-68 | fails with the merge message exactly when frozen and the update does not set `is_frozen` to false, changing nothing; otherwise the attributes become the merge |
| BaseObjects.BaseObject.Validate | packages/chaire-lib-common/src/utils/objects/BaseObjectWithNumericId.ts:118-123 | the validator's verdict is returned and stored, and its errors are stored |
| BaseObjects.BaseObject.GetErrors | packages/chaire-lib-common/src/utils/objects/BaseObjectWithNumericId.ts:125-127 | returns the stored errors |
| BaseObjects.BaseObject.IsDeleted | packages/chaire-lib-common/src/utils/objects/BaseObjectWithNumericId.ts:129-131 | returns the deleted mark |
| BaseObjects.BaseObject.SetDeleted | packages/chaire-lib-common/src/utils/objects/BaseObjectWithNumericId.ts:133-135 | sets the deleted mark and changes nothing else; no method clears it |
| Schedules.Remap | packages/transition-common/src/services/schedules/ScheduleDuplicator.ts:36-41 | a truthy (non-empty) string id whose mapped value exists and is truthy is replaced by that value; any other id is left as it is; an empty mapping changes nothing |
| Schedules.DuplicateTrip | packages/transition-common/src/services/schedules/ScheduleDuplicator.ts:44-48 | the trip is linked to the period's id, its path id remapped, and its other attributes kept |
| Schedules.DuplicatePeriod | packages/transition-common/src/services/schedules/ScheduleDuplicator.ts:33-50 | the period gets schedule id -1 and remapped path ids, keeps its other attributes, and keeps its trips in order, each linked to the period and with its path id remapped |
| Schedules.DuplicateSchedule | packages/transition-common/src/services/schedules/ScheduleDuplicator.ts:22-54 | the header is the clone without specifics, with service and line replaced only when given; the periods keep their number and order and each is duplicated |
| Schedules.EmptyMappingKeepsPathIds | packages/transition-common/src/services/schedules/ScheduleDuplicator.ts:36-48 | with an empty mapping no path id of a period or trip changes |
| Schedules.TripsPointAtTheirPeriod | packages/transition-common/src/services/schedules/ScheduleDuplicator.ts:42-45 | every trip of a duplicated period points at that period's id, which duplication keeps |

## Left out

- `lineOverlap` and `lineOffset` (turf) are function parameters. The model assumes that `lineOffset` returns at least as many coordinates as it is given. It also assumes that `lineOverlap` never reports an empty segment. With a shorter offset line, the source would write `undefined` coordinates.
- Floating-point coordinates: a component is finite, infinite or NaN, and `===` is strict equality on those. No arithmetic is modelled.
- The Map key is `JSON.stringify` of the segment feature. The model keys on the segment's coordinates by structural equality. It therefore does not capture that JSON turns NaN and the infinities into `null`, nor that the feature's properties take part in the key.
- `getLinesInView` and `isInBounds`: a viewport filter over point-in-polygon, outside the offsetting core.
- OverlappingLines.Layer.ApplyOffset: models the evidently intended orientation of each member's segment, not the in-place reversal the loop performs (see Findings). The loop as written is `ApplyGroupsAsWritten`, built on `SegmentAsWritten`; `AsWrittenGroupsAgree` proves the two equal when, in every group, every member but the last runs forward.
- OverlappingLines.Layer.ApplyOffset: the model does not capture that the backward branch mutates `overlapArray[i].geoData` (line 80). No step after `applyOffset` reads the array, because `manageOverlappingLines` discards it once the offsetting is done. Within `applyOffset` the reversal does matter, since line 72 re-reads the reversed segment; that is the Findings row, modelled by `ApplyGroupsAsWritten`.
- OverlappingLines.Layer.ApplyGroup: states the corrected orientation, handing each backward member a fresh reversed copy of the segment; the loop as written reverses the group's one segment in place (lines 72 and 78-80), which is `ApplyMembersAsWritten`, equal to it when every member but the last runs forward (`AsWrittenMembersAgree`).
- OverlappingLines.ApplyMembersAtMember: states the corrected orientation; the as-written counterpart is `ApplyMembersAsWrittenAtMember`, which splices `SegmentAsWritten` instead.
- OverlappingLines.ApplyMembersPerLine: states the corrected orientation; for the loop as written it holds through `AsWrittenMembersAgree` when every member but the last runs forward.
- OverlappingLines.MemberSegmentStartsWhereMemberMeetsIt: states the corrected orientation; as written, a member's segment starts at the endpoint it meets first only when an even number of earlier members run backward (`SegmentAsWrittenParity`).
- OverlappingLines.Layer.ManageOverlappingLines: states its final layer against the corrected `ApplyGroups`; the source's own layer is `ApplyGroupsAsWritten`, equal to it when every group has only forward members before its last one (`AsWrittenGroupsAgree`).
- The feature objects are not modelled as shared: `applyOffset` copies `lineOffset`'s coordinate objects into the lines by reference. Only their values are modelled.
- HistoryTracker: `maxCount` is a natural number; a negative bound would make the trimming loop run forever. The default of 10 is the caller's to pass.
- JsValues: numbers are integers (`Number(n: int)`), with `NaN` as its own case; fractional numbers, `Infinity` and `-Infinity` are not modelled. Only truthiness and equality of numbers matter to the modelled code.
- History: `cloneDeep` and `isEqual` become value copy and `==`, since snapshots are values.
- BaseObject: attribute paths are single keys. Nested lodash paths in `set`, `get` and `merge`, and deep merging of nested objects, are not modelled. Objects and arrays are values compared by tag.
- BaseObject: the uuid generator is replaced by a fresh value the caller supplies. The subclass's `_validate` is a function parameter.
- BaseObject: `clone` (a reflective constructor call) is modelled by the lemmas that construct from cloned attributes. The display-name methods and the `id`/`uuid`/`attributes` getters are left out.
- Schedules: `Schedule.ts` is not part of this model. So its override of cloned attributes, its constructor and the `async` wrapper are left out. The duplicate is the attribute record it would be built from. Numeric path ids are not converted to string keys.

## Findings

| source | as written | input that shows it | evidently intended | confidence | as-written member | corrected member |
|---|---|---|---|---|---|---|
| packages/chaire-lib-common/src/services/geodata/ManageOverlappingLines.ts:78-82 | the backward branch reverses the group's own segment in place, because `reverseLine` is the same object as `segment`; every later member of the group then sees the orientation the earlier backward members left | a group on segment a -> b whose first member runs backward and whose second runs forward along a line a -> b: the forward member is handed b -> a, which does not occur in its line, so it is not offset | each member is handed the segment in its own orientation: forward members the segment, backward members its reverse | not executed | OverlappingLines.ForwardMemberAfterBackwardIsSkippedAsWritten | OverlappingLines.Layer.ApplyOffset |
