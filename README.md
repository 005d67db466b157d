# To-many relationship state, modelled in Dafny

This project models the list logic of a to-many relationship in a client-side
record cache (`ManyRelationship` in
`packages/record-data/addon/-private/relationships/state/has-many.ts`). A
relationship field keeps two ordered lists of record references:

- `canonicalState`, the last state the server confirmed, in server order;
- `currentState`, what local code sees, unsaved edits included, in local order.

Each list is mirrored by a membership set (`canonicalMembers`, `members`).
The methods edit these lists in place with JavaScript `splice`, `push` and
`indexOf`. `flushCanonical` rebuilds the local list from the canonical one and
keeps new, unsaved local records. `computeChanges` replaces the canonical side
by a target list. `getData` reports the local list as identifiers.

Files:

- `optional.dfy` (module `Optional`): `Option`, for arguments and fields that may be `undefined`.
- `records.dfy` (module `Records`): record references (an identifier plus a fixed `isNew` flag) and resource identifiers.
- `array_ops.dfy` (module `ArrayOps`): the JavaScript array operations on sequences. `IndexOf` is `indexOf`, `InsertAt` is `splice(idx, 0, x)` with the index clamped to the length, `RemoveAt` is `splice(i, 1)`. Also the "no duplicates" and "set of elements" views, with lemmas about all of them.
- `reconcile.dfy` (module `Reconcile`): the merge computed by `flushCanonical` (`NewLocals`, `Merge`) and what the add loop of `computeChanges` makes of a canonical list (`AddEachAt`, which from an empty list is `Dedup`), with their properties.
- `has_many.dfy` (module `HasMany`): the class `ManyRelationship`. Its fields are the ones the source updates. Each method states the exact new value of every field in terms of the old ones. The class invariant `Valid()` says each set holds exactly the elements of its list and no list repeats a record. It is preserved wherever the source keeps it.

The base relationship class is not part of this model. Each call into it
(`super.*`, `removeCanonicalRecordData`, `updateRecordDatasFromAdapter`) is
replaced by the effect it is assumed to have. These are assumptions, not
proved behaviour:

- `super.addCanonicalRecordData` adds the record to `canonicalMembers`.
- `super.removeCanonicalRecordDataFromOwn` deletes it from `canonicalMembers`.
- `super.removeAllCanonicalRecordDatasFromOwn` clears `canonicalMembers`.
- `super.addRecordData` adds the record to `members`.
- `super.removeRecordDataFromOwn` deletes it from `members`.
- `super.removeCompletelyFromOwn` deletes it from both sets.
- `super.flushCanonical` makes `members` the elements of the new `currentState`.
- `removeCanonicalRecordData(r, i)` calls `removeCanonicalRecordDataFromOwn(r, i)` when `r` is a canonical member.
- `updateRecordDatasFromAdapter(list)` sets `hasAnyRelationshipData` and then calls `computeChanges(list)`.
- `super.addCanonicalRecordData`, `super.addRecordData`, `super.removeCanonicalRecordDataFromOwn` and `removeCanonicalRecordData` leave `hasAnyRelationshipData` unchanged. So do the other base-class calls above, except `updateRecordDatasFromAdapter`.

Change notifications sent to the store are counted in `changeNotifications`.

Quirks of the code the model keeps:

- `removeRecordDataFromOwn` computes its index as `idx || indexOf(record)` (has-many.ts:141). A non-zero `idx` therefore removes that position and notifies even when the record is absent, and `idx = 0` behaves like no index.
- `removeCanonicalRecordDataFromOwn` and `removeRecordDataFromOwn` remove the position `idx` they are given without checking that it holds the record (has-many.ts:85, :147). Such a removal with a wrong index leaves a list and its membership set disagreeing. Every other operation preserves the invariant `Valid()`.
- `computeChanges` removes member `i` of `canonicalMembers.toArray()` at canonical position `i`, then adds target record `i` at position `i` (has-many.ts:161, :164). When the lists and sets agreed beforehand, the removals empty the canonical list and each add is an append. Otherwise the removals take out only the first `|canonicalMembers|` positions, and the adds insert into what is left. The model states both cases.
- The polymorphic type check of `addRecordData` is a debug assertion in the code (has-many.ts:63). The model treats it as an error outcome.

## Model

| member | source | states |
|---|---|---|
| `HasMany.ManyRelationship.constructor` | packages/record-data/addon/-private/relationships/state/has-many.ts:22-36 | Both lists and both sets start empty, no data has been received, no notification has been sent, and the invariant holds. |
| `HasMany.ManyRelationship.AddCanonicalRecordData` | packages/record-data/addon/-private/relationships/state/has-many.ts:38-48 | A canonical member is ignored and nothing changes. Otherwise the canonical list gets the record at `idx` (clamped to the end), or at the end when there is no `idx`, and the record joins the canonical members. The local side and the notification count do not change. The invariant is preserved. |
| `HasMany.ManyRelationship.AddRecordData` | packages/record-data/addon/-private/relationships/state/has-many.ts:57-74 | A present member gives `Pass` with nothing changed and no notification. A record of a type the relationship does not accept gives `TypeMismatch` with nothing changed. Otherwise the local list gets the record at `idx` (default: the end), the record joins `members`, and exactly one notification is sent. The canonical side does not change. The invariant is preserved. |
| `HasMany.ManyRelationship.RemoveCanonicalRecordDataFromOwn` | packages/record-data/addon/-private/relationships/state/has-many.ts:76-89 | A record that is not a canonical member changes nothing. For a member, the element at `idx` is removed, or the first occurrence when there is no `idx`, and the record leaves the canonical members. The invariant is preserved when there is no `idx`, or when `idx` holds the record. |
| `HasMany.ManyRelationship.RemoveAllCanonicalRecordDatasFromOwn` | packages/record-data/addon/-private/relationships/state/has-many.ts:91-96 | Afterwards the canonical list and the canonical members are empty, and the local side is untouched. |
| `HasMany.ManyRelationship.RemoveCompletelyFromOwn` | packages/record-data/addon/-private/relationships/state/has-many.ts:99-110 | The first occurrence of the record is removed from both lists, and the record leaves both sets. One notification is sent exactly when the record was on the local list. Under the invariant the record is gone from both lists and the invariant still holds. |
| `HasMany.ManyRelationship.FlushCanonical` | packages/record-data/addon/-private/relationships/state/has-many.ts:112-136 | The local list becomes `Merge(canonical, old local)`: the canonical list, then the new local records it lacks, in local order. `members` matches the new list, the canonical side is unchanged, exactly one notification is sent, and the invariant is preserved. |
| `HasMany.ManyRelationship.RemoveRecordDataFromOwn` | packages/record-data/addon/-private/relationships/state/has-many.ts:139-152 | The record leaves `members`. The index is the non-zero `idx` if given, else `indexOf`. When that index is -1 the local list and the notification count stay unchanged. Otherwise that position is removed and one notification is sent. Under the invariant, removing a non-member without a non-zero `idx` changes nothing at all. |
| `HasMany.ManyRelationship.NotifyRecordRelationshipAdded` | packages/record-data/addon/-private/relationships/state/has-many.ts:154-156 | Sends exactly one change notification and changes nothing else. |
| `HasMany.ManyRelationship.ComputeChanges` | packages/record-data/addon/-private/relationships/state/has-many.ts:158-166 | The canonical members always end up as the target's elements. From a state where the invariant holds, the canonical list becomes the target with later duplicates dropped (`Dedup`), for any enumeration order of the members, and the invariant still holds. From any other state, the list is `AddEachAt` of what the removals leave: the canonical list without its first `|canonicalMembers|` positions. The local side is unchanged. |
| `HasMany.ManyRelationship.RemoveEachDownward` | packages/record-data/addon/-private/relationships/state/has-many.ts:160-162 | Removing member `i` at position `i`, for `i` from the last down to 0, empties the canonical members. It removes exactly the first `|members|` positions of the canonical list, clamped to its length. |
| `HasMany.ManyRelationship.AddEachAtPosition` | packages/record-data/addon/-private/relationships/state/has-many.ts:163-165 | Starting with no canonical members, adding target record `i` at position `i` for each `i` makes the members the target's elements and the list `AddEachAt` of the old list. |
| `HasMany.ManyRelationship.NotifyHasManyChange` | packages/record-data/addon/-private/relationships/state/has-many.ts:185-189 | Sends exactly one change notification and changes nothing else. |
| `HasMany.ManyRelationship.GetData` | packages/record-data/addon/-private/relationships/state/has-many.ts:191-208 | `data` is present exactly when relationship data has been received. It then has the local list's length and order, and element `i` is the identifier of local record `i`. `links` and `meta` are passed through. |
| `HasMany.ManyRelationship.UpdateData` | packages/record-data/addon/-private/relationships/state/has-many.ts:210-225 | Marks data as received. The canonical members become the resolved records, or none when no list is given. From a state where the invariant holds, the canonical list becomes the deduplicated resolved list and the invariant is kept. From any other state, the canonical list is as `ComputeChanges` states. The local side is unchanged. |
| `HasMany.MembersToArray` | packages/record-data/addon/-private/relationships/state/has-many.ts:159 | The result lists every canonical member exactly once, in an unspecified order. |
| `HasMany.ResolveAll` | packages/record-data/addon/-private/relationships/state/has-many.ts:215-222 | The resolved list has the input's length, and element `i` is the resolver's record for identifier `i`. |
| `HasMany.RemovalKeepsMirror` | packages/record-data/addon/-private/relationships/state/has-many.ts:76-89 | Removing a member at its index, or at its first occurrence, from a duplicate-free list leaves a duplicate-free list whose elements are the old set minus that member. |
| `HasMany.GetDataThenUpdate` | packages/record-data/addon/-private/relationships/state/has-many.ts:191-225 | Resolving the identifiers `getData` reports, and deduplicating them as `updateData` does, gives back the local list. This holds when the resolver maps each local record's identifier back to that record. |
| `ArrayOps.IndexOf` | packages/record-data/addon/-private/relationships/state/has-many.ts:82 | The result is -1 exactly when the element is absent. Otherwise it is a position that holds the element, with no earlier occurrence. |
| `ArrayOps.InsertAt` | packages/record-data/addon/-private/relationships/state/has-many.ts:43 | The list grows by one. The new element sits at the clamped index, the elements before it keep their positions, and the ones after it move up by one. |
| `ArrayOps.RemoveAt` | packages/record-data/addon/-private/relationships/state/has-many.ts:85 | Removing an index inside the list shortens it by one. Removing past the end changes nothing. |
| `ArrayOps.RemoveAtShifts` | packages/record-data/addon/-private/relationships/state/has-many.ts:147 | After removing index `i`, elements before `i` keep their positions and elements after it move down by one. |
| `ArrayOps.RemoveDownStep` | packages/record-data/addon/-private/relationships/state/has-many.ts:160-162 | One step of the downward removal loop keeps the positions below the current index and those from the member count on. |
| `ArrayOps.RemoveFirst` | packages/record-data/addon/-private/relationships/state/has-many.ts:103-107 | An absent element leaves the list as it is. A present one shortens the list by one. |
| `ArrayOps.InsertAtEnd` | packages/record-data/addon/-private/relationships/state/has-many.ts:163-165 | Inserting at or past the end is appending. |
| `ArrayOps.RemoveAtIsRemoveFirst` | packages/record-data/addon/-private/relationships/state/has-many.ts:81-85 | In a duplicate-free list, removing the index that holds `x` is removing the first occurrence of `x`. |
| `ArrayOps.DistinctCard` | packages/record-data/addon/-private/relationships/state/has-many.ts:159-162 | A duplicate-free list has as many distinct elements as positions, so the member array and the canonical list have the same length. |
| `ArrayOps.InsertAtElems` | packages/record-data/addon/-private/relationships/state/has-many.ts:43 | Inserting adds exactly the inserted element to the set of elements, even when it was already present. |
| `ArrayOps.InsertFresh` | packages/record-data/addon/-private/relationships/state/has-many.ts:38-47 | Inserting an absent record keeps the list duplicate-free. The element set gains exactly that record. |
| `ArrayOps.RemoveMember` | packages/record-data/addon/-private/relationships/state/has-many.ts:84-87 | Removing a position of a duplicate-free list keeps it duplicate-free. The element set loses exactly the removed element. |
| `ArrayOps.RemoveFirstDistinct` | packages/record-data/addon/-private/relationships/state/has-many.ts:103-109 | Removing the first occurrence of `x` from a duplicate-free list leaves it duplicate-free, without `x`, and otherwise with the same elements. |
| `ArrayOps.IndexOfInserted` | packages/record-data/addon/-private/relationships/state/has-many.ts:38-46 | `indexOf` finds a freshly inserted record exactly at the clamped index where it was put. |
| `ArrayOps.RemoveInserted` | packages/record-data/addon/-private/relationships/state/has-many.ts:43 | Removing the position just inserted at restores the original list, so insertion keeps every other element in order. |
| `ArrayOps.RemoveFirstUndoesInsert` | packages/record-data/addon/-private/relationships/state/has-many.ts:38-87 | Adding an absent canonical record and then removing it without an index gives back the original canonical list. |
| `Reconcile.NewLocals` | packages/record-data/addon/-private/relationships/state/has-many.ts:117-124 | A record passes the filter exactly when it is on the local list, is new, and is not canonical. The result is no longer than the local list. |
| `Reconcile.Merge` | packages/record-data/addon/-private/relationships/state/has-many.ts:113-125 | The merged list starts with the whole canonical list. A record is in it exactly when it is canonical, or is a new local record. So new local-only records survive and persisted records missing from canonical are dropped. |
| `Reconcile.NewLocalsAppend` | packages/record-data/addon/-private/relationships/state/has-many.ts:117-124 | The filter distributes over concatenation, so kept entries stay in their original relative order. |
| `Reconcile.NewLocalsDistinct` | packages/record-data/addon/-private/relationships/state/has-many.ts:117-124 | Filtering a duplicate-free local list gives a duplicate-free list. |
| `Reconcile.MergeDistinct` | packages/record-data/addon/-private/relationships/state/has-many.ts:112-135 | The merge of two duplicate-free lists is duplicate-free. |
| `Reconcile.MergeIdempotent` | packages/record-data/addon/-private/relationships/state/has-many.ts:112-135 | A second flush with the same canonical list yields the same local list. |
| `Reconcile.MergeKeepsNewLocals` | packages/record-data/addon/-private/relationships/state/has-many.ts:115-125 | A local list made of the canonical list followed by new records the server does not know survives a flush unchanged. |
| `Reconcile.FlushExamples` | packages/record-data/addon/-private/relationships/state/has-many.ts:112-135 | Canonical [a, b] with local [a, b, n], `n` new, flushes to [a, b, n]. Canonical [a] with local [a, x], `x` persisted, flushes to [a]. |
| `Reconcile.Dedup` | packages/record-data/addon/-private/relationships/state/has-many.ts:163-165 | The add loop's result has no duplicates, has exactly the target's elements, and is no longer than the target. |
| `Reconcile.AddEachAt` | packages/record-data/addon/-private/relationships/state/has-many.ts:163-165 | The add loop applied to a list: its elements are the list's plus the target's, and it grows by at most the target's length. |
| `Reconcile.AddEachAtStep` | packages/record-data/addon/-private/relationships/state/has-many.ts:164 | One step of the add loop: target record `j` is inserted at position `j` exactly when it did not occur earlier in the target. |
| `Reconcile.AddEachAtFromEmpty` | packages/record-data/addon/-private/relationships/state/has-many.ts:158-166 | From an empty canonical list, the add loop builds exactly the deduplicated target, so every insertion is an append. |
| `Reconcile.DedupDistinct` | packages/record-data/addon/-private/relationships/state/has-many.ts:158-166 | A duplicate-free target is reproduced exactly, so replacing with a duplicate-free list yields that list. |
| `Reconcile.DedupKeepsFirstOrder` | packages/record-data/addon/-private/relationships/state/has-many.ts:163-165 | When `x` first occurs before `y` in the target, `x` comes before `y` in the canonical list. |
| `Records.Identifiers` | packages/record-data/addon/-private/relationships/state/has-many.ts:194 | Element `i` of the result is the identifier of record `i`, and the result has the same length. |
| `Records.ResolveEach` | packages/record-data/addon/-private/relationships/state/has-many.ts:216-222 | Element `i` of the result is the resolver's record for identifier `i`, and the result has the same length. |
| `Records.ResolveIdentifiers` | packages/record-data/addon/-private/relationships/state/has-many.ts:191-222 | If the resolver maps each record's identifier back to that record, resolving the identifiers of a list gives back the list. |

## Left out

- The base relationship class is not part of this model. Its effects on the membership sets, on the loaded flag and on `computeChanges` are the assumptions listed above. Its inverse-side bookkeeping is not modelled, nor its scheduling of a later flush.
- `inverseDidDematerialize` and `notifyManyArrayIsStale`, with the `CUSTOM_MODEL_CLASS` flag that chooses between two store calls. They depend on unseen base-class behaviour and only notify.
- Notifications are only counted. Their arguments (model name, id, client id, key) and the store they go to are not modelled.
- Extra notifications the base class may send from `super.addRecordData` through `notifyRecordRelationshipAdded` are not counted in `AddRecordData`.
- `payload._relationship` in `getData`, the `_willUpdateManyArray` and `_pendingManyArrayUpdates` fields, and the commented-out many-array code.
- `links` and `meta` are opaque strings. The base class sets them, so here they are plain fields that nothing in the model assigns after construction.
- Negative `idx` values, which `splice` counts from the end, are outside the model. Indices are `nat`.
- The record resolver is a total function parameter, so a resolution failure that throws out of `updateData` is not modelled.
- The iteration order of `canonicalMembers.toArray()` is left open. The results are proved for every order.
- The polymorphic type check is a debug-only assertion over schema metadata. The model checks the record's model name against a fixed set of accepted names, and also in production builds, where the real check is stripped.
- HasMany.ManyRelationship.ComputeChanges: never sets the loaded flag. A fresh relationship therefore still reports no `data` after `computeChanges([])`. Only `UpdateData`, through `updateRecordDatasFromAdapter`, makes `getData` report `data` as `Some([])`.
- Record identity is the value of a `RecordRef` (identifier and `isNew`), not object identity as in `indexOf` and the member sets. A record that is saved, gaining a server id and losing `isNew`, becomes a different record in the model. So the model does not capture a record staying in a relationship across a save.
