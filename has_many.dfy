/**
 * The state of one to-many relationship field: the canonical list (the last
 * state the server confirmed) and the current list (what local code sees,
 * unsaved edits included), each mirrored by a membership set.
 *
 * The base relationship class is not part of this model. Where a method of
 * the to-many class calls into it, the model performs only the effect that
 * call is assumed to have on the membership sets, the loaded flag and the
 * notification count, and says so at the call.
 */
module HasMany {
  import opened Optional
  import opened ArrayOps
  import opened Records
  import opened Reconcile

  /** The error a local add can raise. */
  datatype RelationshipError = TypeMismatch(modelName: string)

  /** How a local add ended: accepted (including the no-op for a present member), or rejected with an error. */
  datatype Outcome = Pass | Fail(error: RelationshipError)

  /**
   * What `getData` hands out: `data` is present only once relationship data
   * has been received, and `links`/`meta` only when they are set.
   */
  datatype RelationshipPayload = RelationshipPayload(
    data: Option<seq<ResourceIdentifier>>,
    links: Option<string>,
    meta: Option<string>)

  /**
   * `canonicalMembers.toArray()`: the members of a set as a list. The set's
   * iteration order is not part of the model, so the order is left open.
   */
  method MembersToArray(memberSet: set<RecordRef>) returns (list: seq<RecordRef>)
    ensures NoDups(list)
    ensures Elems(list) == memberSet
  {
    list := [];
    var rest := memberSet;
    while rest != {}
      invariant NoDups(list)
      invariant Elems(list) !! rest
      invariant Elems(list) + rest == memberSet
      decreases rest
    {
      var x :| x in rest;
      list := list + [x];
      rest := rest - {x};
    }
  }

  /**
   * The loop of `updateData` that resolves each incoming identifier to a
   * record through the store's resolver, which is a parameter here.
   */
  method ResolveAll(data: seq<ResourceIdentifier>, resolve: ResourceIdentifier -> RecordRef)
    returns (recordDatas: seq<RecordRef>)
    ensures |recordDatas| == |data|
    ensures forall i :: 0 <= i < |data| ==> recordDatas[i] == resolve(data[i])
  {
    recordDatas := [];
    var i := 0;
    while i < |data|
      invariant 0 <= i <= |data|
      invariant |recordDatas| == i
      invariant forall k :: 0 <= k < i ==> recordDatas[k] == resolve(data[k])
    {
      recordDatas := recordDatas + [resolve(data[i])];
      i := i + 1;
    }
  }

  class ManyRelationship {
    /** The model names the declared related type accepts (itself and its polymorphic subtypes). */
    const acceptedModelNames: set<string>

    /** Server truth, in server order. */
    var canonicalState: seq<RecordRef>
    /** What local code sees, in local display order. */
    var currentState: seq<RecordRef>
    var canonicalMembers: set<RecordRef>
    var members: set<RecordRef>
    /** Whether relationship data has ever been received. */
    var hasAnyRelationshipData: bool
    var links: Option<string>
    var meta: Option<string>
    /** How many change notifications have been sent to the store. */
    var changeNotifications: nat

    /** Each membership set holds exactly the elements of its list, and neither list repeats a record. */
    ghost predicate Valid()
      reads this
    {
      && NoDups(canonicalState) && canonicalMembers == Elems(canonicalState)
      && NoDups(currentState) && members == Elems(currentState)
    }

    constructor (acceptedModelNames: set<string>)
      ensures Valid()
      ensures this.acceptedModelNames == acceptedModelNames
      ensures canonicalState == [] && currentState == []
      ensures canonicalMembers == {} && members == {}
      ensures !hasAnyRelationshipData && links == None && meta == None
      ensures changeNotifications == 0
    {
      this.acceptedModelNames := acceptedModelNames;
      canonicalState := [];
      currentState := [];
      canonicalMembers := {};
      members := {};
      hasAnyRelationshipData := false;
      links := None;
      meta := None;
      changeNotifications := 0;
    }

    /** `notifyHasManyChange`: one notification to the store. */
    method NotifyHasManyChange()
      modifies this
      ensures changeNotifications == old(changeNotifications) + 1
      ensures canonicalState == old(canonicalState) && currentState == old(currentState)
      ensures canonicalMembers == old(canonicalMembers) && members == old(members)
      ensures hasAnyRelationshipData == old(hasAnyRelationshipData)
      ensures links == old(links) && meta == old(meta)
    {
      changeNotifications := changeNotifications + 1;
    }

    /** `notifyRecordRelationshipAdded`: a change notification. */
    method NotifyRecordRelationshipAdded()
      modifies this
      ensures changeNotifications == old(changeNotifications) + 1
      ensures canonicalState == old(canonicalState) && currentState == old(currentState)
      ensures canonicalMembers == old(canonicalMembers) && members == old(members)
      ensures hasAnyRelationshipData == old(hasAnyRelationshipData)
      ensures links == old(links) && meta == old(meta)
    {
      NotifyHasManyChange();
    }

    /**
     * Adds a record to the canonical side, at `idx` (clamped to the end) or
     * at the end; a record that is already a canonical member is ignored.
     */
    method AddCanonicalRecordData(recordData: RecordRef, idx: Option<nat>)
      modifies this
      ensures recordData in old(canonicalMembers) ==> unchanged(this)
      ensures recordData !in old(canonicalMembers) ==>
        && canonicalState == InsertAt(old(canonicalState), idx.GetOr(|old(canonicalState)|), recordData)
        && canonicalMembers == old(canonicalMembers) + {recordData}
      ensures currentState == old(currentState) && members == old(members)
      ensures hasAnyRelationshipData == old(hasAnyRelationshipData)
      ensures links == old(links) && meta == old(meta)
      ensures changeNotifications == old(changeNotifications)
      ensures old(Valid()) ==> Valid()
    {
      if recordData in canonicalMembers {
        return;
      }
      if idx.Some? {
        canonicalState := InsertAt(canonicalState, idx.value, recordData);
      } else {
        canonicalState := canonicalState + [recordData];
      }
      // base class: adds the record to the canonical members
      canonicalMembers := canonicalMembers + {recordData};
      if old(Valid()) {
        InsertFresh(old(canonicalState), idx.GetOr(|old(canonicalState)|), recordData);
      }
    }

    /**
     * Adds a record to the local side, at `idx` (clamped to the end) or at the
     * end, and notifies; a present member is ignored without a notification,
     * and a record of a type the relationship does not accept is rejected
     * before anything changes.
     */
    method AddRecordData(recordData: RecordRef, idx: Option<nat>) returns (outcome: Outcome)
      modifies this
      ensures recordData in old(members) ==> outcome == Pass && unchanged(this)
      ensures recordData !in old(members) && recordData.identifier.modelName !in acceptedModelNames ==>
        outcome == Fail(TypeMismatch(recordData.identifier.modelName)) && unchanged(this)
      ensures recordData !in old(members) && recordData.identifier.modelName in acceptedModelNames ==>
        && outcome == Pass
        && currentState == InsertAt(old(currentState), idx.GetOr(|old(currentState)|), recordData)
        && members == old(members) + {recordData}
        && changeNotifications == old(changeNotifications) + 1
      ensures canonicalState == old(canonicalState) && canonicalMembers == old(canonicalMembers)
      ensures hasAnyRelationshipData == old(hasAnyRelationshipData)
      ensures links == old(links) && meta == old(meta)
      ensures old(Valid()) ==> Valid()
    {
      if recordData in members {
        return Pass;
      }
      if recordData.identifier.modelName !in acceptedModelNames {
        return Fail(TypeMismatch(recordData.identifier.modelName));
      }
      // base class: adds the record to the local members
      members := members + {recordData};
      var at := idx.GetOr(|currentState|);
      currentState := InsertAt(currentState, at, recordData);
      if old(Valid()) {
        InsertFresh(old(currentState), at, recordData);
      }
      NotifyHasManyChange();
      outcome := Pass;
    }

    /**
     * Removes a canonical member from the canonical side: the element at
     * `idx` when one is given, else the record's first occurrence. A record
     * that is not a canonical member is ignored.
     */
    method RemoveCanonicalRecordDataFromOwn(recordData: RecordRef, idx: Option<nat>)
      modifies this
      ensures recordData !in old(canonicalMembers) ==> unchanged(this)
      ensures recordData in old(canonicalMembers) ==>
        && canonicalMembers == old(canonicalMembers) - {recordData}
        && canonicalState == if idx.Some? then RemoveAt(old(canonicalState), idx.value)
                             else RemoveFirst(old(canonicalState), recordData)
      ensures currentState == old(currentState) && members == old(members)
      ensures hasAnyRelationshipData == old(hasAnyRelationshipData)
      ensures links == old(links) && meta == old(meta)
      ensures changeNotifications == old(changeNotifications)
      ensures old(Valid()) && (idx.Some? ==> idx.value < |old(canonicalState)| && old(canonicalState)[idx.value] == recordData)
        ==> Valid()
    {
      if recordData !in canonicalMembers {
        return;
      }
      if NoDups(canonicalState) && canonicalMembers == Elems(canonicalState)
        && (idx.Some? ==> idx.value < |canonicalState| && canonicalState[idx.value] == recordData)
      {
        RemovalKeepsMirror(canonicalState, canonicalMembers, recordData, idx);
      }
      var i: int;
      if idx.Some? {
        i := idx.value;
      } else {
        i := IndexOf(canonicalState, recordData);
      }
      if i > -1 {
        canonicalState := RemoveAt(canonicalState, i);
      }
      // base class: deletes the record from the canonical members
      canonicalMembers := canonicalMembers - {recordData};
    }

    /** Empties the canonical side: both the canonical list and the canonical members. */
    method RemoveAllCanonicalRecordDatasFromOwn()
      modifies this
      ensures canonicalState == [] && canonicalMembers == {}
      ensures currentState == old(currentState) && members == old(members)
      ensures hasAnyRelationshipData == old(hasAnyRelationshipData)
      ensures links == old(links) && meta == old(meta)
      ensures changeNotifications == old(changeNotifications)
      ensures old(Valid()) ==> Valid()
    {
      // base class (called before and after): clears the canonical members
      canonicalMembers := {};
      canonicalState := [];
    }

    /**
     * Removes a record from the local side (the element at a non-zero `idx`,
     * else the record's first occurrence) and notifies. Nothing changes and
     * nothing is sent when the record is absent and no non-zero index is
     * given: an index of 0 counts as no index.
     */
    method RemoveRecordDataFromOwn(recordData: RecordRef, idx: Option<nat>)
      modifies this
      ensures members == old(members) - {recordData}
      ensures
        var index := if idx.Some? && idx.value != 0 then idx.value else IndexOf(old(currentState), recordData);
        && (index == -1 ==> currentState == old(currentState) && changeNotifications == old(changeNotifications))
        && (index != -1 ==> currentState == RemoveAt(old(currentState), index)
                            && changeNotifications == old(changeNotifications) + 1)
      ensures canonicalState == old(canonicalState) && canonicalMembers == old(canonicalMembers)
      ensures hasAnyRelationshipData == old(hasAnyRelationshipData)
      ensures links == old(links) && meta == old(meta)
      ensures old(Valid()) && recordData !in old(members) && (idx.None? || idx.value == 0) ==> unchanged(this)
      ensures old(Valid()) && (idx.Some? && idx.value != 0 ==> idx.value < |old(currentState)| && old(currentState)[idx.value] == recordData)
        ==> Valid()
    {
      ghost var before := currentState;
      if members == Elems(before) && recordData !in members {
        assert recordData !in before;
        assert members - {recordData} == members;
      }
      // base class: deletes the record from the local members
      members := members - {recordData};
      var index := if idx.Some? && idx.value != 0 then idx.value else IndexOf(currentState, recordData);
      if index == -1 {
        return;
      }
      currentState := RemoveAt(currentState, index);
      if NoDups(before) && index < |before| && before[index] == recordData {
        RemoveAtIsRemoveFirst(before, index, recordData);
      }
      if NoDups(before) {
        RemoveFirstDistinct(before, recordData);
      }
      NotifyHasManyChange();
    }

    /**
     * Removes every trace of a record on both sides; a notification is sent
     * exactly when the record was on the local list.
     */
    method RemoveCompletelyFromOwn(recordData: RecordRef)
      modifies this
      ensures canonicalMembers == old(canonicalMembers) - {recordData}
      ensures members == old(members) - {recordData}
      ensures canonicalState == RemoveFirst(old(canonicalState), recordData)
      ensures currentState == RemoveFirst(old(currentState), recordData)
      ensures changeNotifications == old(changeNotifications) + if recordData in old(currentState) then 1 else 0
      ensures hasAnyRelationshipData == old(hasAnyRelationshipData)
      ensures links == old(links) && meta == old(meta)
      ensures old(Valid()) ==> Valid() && recordData !in canonicalState && recordData !in currentState
    {
      // base class: deletes the record from both membership sets
      canonicalMembers := canonicalMembers - {recordData};
      members := members - {recordData};
      var canonicalIndex := IndexOf(canonicalState, recordData);
      if canonicalIndex != -1 {
        canonicalState := RemoveAt(canonicalState, canonicalIndex);
      }
      RemoveRecordDataFromOwn(recordData, None);
      if old(Valid()) {
        RemoveFirstDistinct(old(canonicalState), recordData);
        RemoveFirstDistinct(old(currentState), recordData);
      }
    }

    /**
     * Makes the local list the canonical list followed by the new local
     * records the canonical list lacks, in their local order, and notifies.
     */
    method FlushCanonical()
      modifies this
      ensures currentState == Merge(old(canonicalState), old(currentState))
      ensures members == Elems(currentState)
      ensures canonicalState == old(canonicalState) && canonicalMembers == old(canonicalMembers)
      ensures changeNotifications == old(changeNotifications) + 1
      ensures hasAnyRelationshipData == old(hasAnyRelationshipData)
      ensures links == old(links) && meta == old(meta)
      ensures old(Valid()) ==> Valid()
    {
      var toSet := canonicalState;
      var newRecordDatas := NewLocals(currentState, toSet);
      toSet := toSet + newRecordDatas;
      currentState := toSet;
      // base class: the local members are recomputed to match the new local list
      members := Elems(currentState);
      if old(Valid()) {
        MergeDistinct(old(canonicalState), old(currentState));
      }
      NotifyHasManyChange();
    }

    /**
     * Replaces the canonical side by a target list: every canonical member is
     * removed at its position in the member list, walking positions from the
     * last down, and then target record `i` is added at position `i`.
     *
     * The removals take out the first `|canonicalMembers|` positions of the
     * canonical list (all of it when it is shorter), and the adds then
     * insert into what is left. When the lists and sets agreed beforehand,
     * nothing is left, and the canonical list ends up as the target with
     * later duplicates dropped, whatever the order in which the canonical
     * members are enumerated.
     */
    method ComputeChanges(recordDatas: seq<RecordRef>)
      modifies this
      ensures canonicalMembers == Elems(recordDatas)
      ensures old(Valid()) ==> Valid() && canonicalState == Dedup(recordDatas)
      ensures !old(Valid()) ==>
        canonicalState == AddEachAt(old(canonicalState)[Clamp(|old(canonicalMembers)|, |old(canonicalState)|)..], recordDatas)
      ensures currentState == old(currentState) && members == old(members)
      ensures hasAnyRelationshipData == old(hasAnyRelationshipData)
      ensures links == old(links) && meta == old(meta)
      ensures changeNotifications == old(changeNotifications)
    {
      var memberList := MembersToArray(canonicalMembers);
      DistinctCard(memberList);
      RemoveEachDownward(memberList);
      AddEachAtPosition(recordDatas);
      if old(Valid()) {
        DistinctCard(old(canonicalState));
        assert old(canonicalState)[Clamp(|memberList|, |old(canonicalState)|)..] == [];
        AddEachAtFromEmpty(recordDatas);
      }
    }

    /**
     * The removal loop of `computeChanges`: for `i` from the last position of
     * the member list down to 0, removes member `i` at canonical position
     * `i`. This takes out the first `|memberList|` canonical positions.
     */
    method RemoveEachDownward(memberList: seq<RecordRef>)
      requires NoDups(memberList) && Elems(memberList) == canonicalMembers
      modifies this
      ensures canonicalMembers == {}
      ensures canonicalState == old(canonicalState)[Clamp(|memberList|, |old(canonicalState)|)..]
      ensures currentState == old(currentState) && members == old(members)
      ensures hasAnyRelationshipData == old(hasAnyRelationshipData)
      ensures links == old(links) && meta == old(meta)
      ensures changeNotifications == old(changeNotifications)
    {
      ghost var start := canonicalState;
      ghost var rest := start[Clamp(|memberList|, |start|)..];
      var i := |memberList| - 1;
      while i >= 0
        invariant -1 <= i < |memberList|
        invariant canonicalState == start[..Clamp(i + 1, |start|)] + rest
        invariant canonicalMembers == Elems(memberList[..i + 1])
        invariant currentState == old(currentState) && members == old(members)
        invariant hasAnyRelationshipData == old(hasAnyRelationshipData)
        invariant links == old(links) && meta == old(meta)
        invariant changeNotifications == old(changeNotifications)
      {
        ElemsPrefixStep(memberList, i);
        assert memberList[i] !in memberList[..i];
        RemoveDownStep(start, |memberList|, i);
        // base class `removeCanonicalRecordData`: for a canonical member,
        // delegates to `removeCanonicalRecordDataFromOwn` with the same index
        RemoveCanonicalRecordDataFromOwn(memberList[i], Some(i));
        i := i - 1;
      }
    }

    /**
     * The add loop of `computeChanges`: adds target record `i` to the
     * canonical side at position `i`, for each `i` in turn. Starting from no
     * canonical members, the result is `AddEachAt` of the canonical list.
     */
    method AddEachAtPosition(recordDatas: seq<RecordRef>)
      requires canonicalMembers == {}
      modifies this
      ensures canonicalMembers == Elems(recordDatas)
      ensures canonicalState == AddEachAt(old(canonicalState), recordDatas)
      ensures currentState == old(currentState) && members == old(members)
      ensures hasAnyRelationshipData == old(hasAnyRelationshipData)
      ensures links == old(links) && meta == old(meta)
      ensures changeNotifications == old(changeNotifications)
    {
      var j := 0;
      while j < |recordDatas|
        invariant 0 <= j <= |recordDatas|
        invariant canonicalState == AddEachAt(old(canonicalState), recordDatas[..j])
        invariant canonicalMembers == Elems(recordDatas[..j])
        invariant currentState == old(currentState) && members == old(members)
        invariant hasAnyRelationshipData == old(hasAnyRelationshipData)
        invariant links == old(links) && meta == old(meta)
        invariant changeNotifications == old(changeNotifications)
      {
        ElemsPrefixStep(recordDatas, j);
        AddEachAtStep(old(canonicalState), recordDatas, j);
        AddCanonicalRecordData(recordDatas[j], Some(j));
        j := j + 1;
      }
      assert recordDatas[..j] == recordDatas;
    }

    /**
     * The payload of the relationship: `data` is present exactly when data
     * has been received, and then lists the identifiers of the local list in
     * its order.
     */
    function GetData(): (payload: RelationshipPayload)
      reads this
      ensures payload.data.Some? <==> hasAnyRelationshipData
      ensures payload.data.Some? ==>
        && |payload.data.value| == |currentState|
        && forall i :: 0 <= i < |currentState| ==> payload.data.value[i] == currentState[i].identifier
      ensures payload.links == links && payload.meta == meta
    {
      RelationshipPayload(
        if hasAnyRelationshipData then Some(Identifiers(currentState)) else None,
        links,
        meta)
    }

    /**
     * Takes an incoming list of identifiers (or its absence, which means an
     * empty list), resolves each to a record, marks data as received and
     * replaces the canonical side by the resolved list.
     */
    method UpdateData(data: Option<seq<ResourceIdentifier>>, resolve: ResourceIdentifier -> RecordRef)
      modifies this
      ensures hasAnyRelationshipData
      ensures var resolved := if data.Some? then ResolveEach(data.value, resolve) else [];
        && canonicalMembers == Elems(resolved)
        && (old(Valid()) ==> Valid() && canonicalState == Dedup(resolved))
        && (!old(Valid()) ==>
              canonicalState == AddEachAt(old(canonicalState)[Clamp(|old(canonicalMembers)|, |old(canonicalState)|)..], resolved))
      ensures currentState == old(currentState) && members == old(members)
      ensures links == old(links) && meta == old(meta)
      ensures changeNotifications == old(changeNotifications)
    {
      var recordDatas: seq<RecordRef>;
      if data.None? {
        // an absent list reaches `computeChanges` as its default, the empty list
        recordDatas := [];
      } else {
        recordDatas := ResolveAll(data.value, resolve);
        assert recordDatas == ResolveEach(data.value, resolve);
      }
      // base class `updateRecordDatasFromAdapter`: marks data as received,
      // then replaces the canonical side
      hasAnyRelationshipData := true;
      ComputeChanges(recordDatas);
    }
  }

  /**
   * Removing a member from a list its set mirrors, at the member's index or
   * at its first occurrence, keeps the mirror exact and the list free of
   * duplicates.
   */
  lemma RemovalKeepsMirror(s: seq<RecordRef>, memberSet: set<RecordRef>, x: RecordRef, idx: Option<nat>)
    requires NoDups(s) && memberSet == Elems(s)
    requires idx.Some? ==> idx.value < |s| && s[idx.value] == x
    ensures var r := if idx.Some? then RemoveAt(s, idx.value) else RemoveFirst(s, x);
      NoDups(r) && Elems(r) == memberSet - {x}
  {
    if idx.Some? {
      RemoveAtIsRemoveFirst(s, idx.value, x);
    }
    RemoveFirstDistinct(s, x);
  }

  /**
   * Feeding the identifiers `getData` reports back through `updateData`
   * makes the canonical list equal the local list, provided the resolver
   * maps each local record's identifier back to that record.
   */
  lemma GetDataThenUpdate(rel: ManyRelationship, resolve: ResourceIdentifier -> RecordRef)
    requires rel.Valid() && rel.hasAnyRelationshipData
    requires forall r :: r in rel.currentState ==> resolve(r.identifier) == r
    ensures rel.GetData().data.Some?
    ensures Dedup(ResolveEach(rel.GetData().data.value, resolve)) == rel.currentState
  {
    var s := rel.currentState;
    ResolveIdentifiers(s, resolve);
    DedupDistinct(s);
  }

  /**
   * A relationship that has received no data reports no `data`; after an
   * update without a list it reports an empty list.
   */
  method LoadedScenario(resolve: ResourceIdentifier -> RecordRef) {
    var rel := new ManyRelationship({});
    assert rel.GetData().data == None;
    rel.UpdateData(None, resolve);
    assert rel.GetData().data == Some([]);
  }

  /** Replacing the canonical list [a, b, c] by [c, a] leaves exactly [c, a], and `b` is no longer a canonical member. */
  method ReplaceScenario(rel: ManyRelationship, a: RecordRef, b: RecordRef, c: RecordRef)
    requires a != b && b != c && a != c
    requires rel.Valid() && rel.canonicalState == [a, b, c]
    modifies rel
  {
    rel.ComputeChanges([c, a]);
    DedupDistinct([c, a]);
    assert rel.canonicalState == [c, a];
    assert a in rel.canonicalMembers && c in rel.canonicalMembers && b !in rel.canonicalMembers;
  }
}
