/**
 * The status tag mirrors the status field and the assignee tag the last claim, in every
 * interleaving in which no event-only write straddles a transition's write on its item.
 */
module Mirror {
  import opened Types
  import opened Lifecycle
  import opened Protocol
  import opened Safety

  // ---- the condition on runs ----

  /** Label k is a write of the document by the call it names. */
  predicate Writes(calls: seq<Op>, store: Store, labels: seq<Label>, k: nat)
    requires k < |labels| && Runs(calls, labels)
  {
    !labels[k].fault && At(calls, store, labels, k).threads[labels[k].call].Writing?
  }

  predicate TransitionWrites(calls: seq<Op>, store: Store, labels: seq<Label>, k: nat, x: Id)
    requires k < |labels| && Runs(calls, labels)
  {
    Writes(calls, store, labels, k) && IsTransition(calls[labels[k].call]) && Target(calls, labels[k]) == x
  }

  predicate EventWrites(calls: seq<Op>, store: Store, labels: seq<Label>, k: nat, x: Id)
    requires k < |labels| && Runs(calls, labels)
  {
    Writes(calls, store, labels, k) && IsEventOnly(calls[labels[k].call]) && Target(calls, labels[k]) == x
  }

  /** Call i had its snapshot, not yet written, when a transition on its item wrote at step j. */
  predicate WrittenUnder(calls: seq<Op>, store: Store, labels: seq<Label>, i: nat, j: nat)
    requires i < |calls| && j < |labels| && Runs(calls, labels)
  {
    TransitionWrites(calls, store, labels, j, calls[i].id) && At(calls, store, labels, j).threads[i].Writing?
  }

  /** No event-only write of item x at k rests on a snapshot taken before a transition's write of x at j < k. */
  ghost predicate NoStraddle(calls: seq<Op>, store: Store, labels: seq<Label>, x: Id)
    requires Runs(calls, labels)
  {
    forall j: nat, k: nat | j < k < |labels| && EventWrites(calls, store, labels, k, x) ::
      !WrittenUnder(calls, store, labels, labels[k].call, j)
  }

  // ---- what an event-only write must not disturb ----

  /** The lifecycle events of a log, in order. */
  function LifeEvents(log: seq<Event>): seq<Event> {
    if log == [] then []
    else
      var last := log[|log| - 1];
      LifeEvents(log[..|log| - 1]) + (if KindOf(last.dataType) == Activity then [] else [last])
  }

  lemma LifeEventsSnoc(log: seq<Event>, e: Event)
    ensures LifeEvents(log + [e]) == LifeEvents(log) + (if KindOf(e.dataType) == Activity then [] else [e])
  {
    assert (log + [e])[..|log|] == log;
  }

  /**
   * The part of a document only transitions change: the status and, when callers' own events stay off
   * the lifecycle type names, the lifecycle events. `log` says whether the events are part of it.
   */
  predicate SameLife(d: Doc, d': Doc, log: bool) {
    d.status == d'.status && (log ==> LifeEvents(d.events) == LifeEvents(d'.events))
  }

  lemma EventOnlyKeepsLife(op: Op, item: Item, stamp: Time, log: bool)
    requires IsEventOnly(op) && (log && op.AddEvent? ==> KindOf(op.event.dataType) == Activity)
    ensures SameLife(item.doc, After(op, item, stamp).doc, log)
  {
    KindAppended(op, stamp);
    LifeEventsSnoc(item.doc.events, Stamped(EventOf(op), stamp));
  }

  /** The snapshot and the stored document have the same life, or a transition wrote in between. */
  ghost predicate SnapshotFresh(calls: seq<Op>, store: Store, labels: seq<Label>, n: nat, i: nat, log: bool)
    requires n <= |labels| && Runs(calls, labels) && i < |calls|
  {
    var s := At(calls, store, labels, n);
    s.threads[i].Writing? && IsEventOnly(calls[i]) ==>
      || (calls[i].id in s.store && SameLife(s.threads[i].snapshot.doc, s.store[calls[i].id].doc, log))
      || exists j: nat :: j < n && WrittenUnder(calls, store, labels, i, j)
  }

  /** One step, on the thread and slot of another call on the same item. */
  lemma StepLife(op: Op, th: Thread, slot: Option<Entity>, l: Label, log: bool)
    requires InProgram(op, th)
    requires log && op.AddEvent? ==> KindOf(op.event.dataType) == Activity
    requires th.Writing? && IsEventOnly(op) && !l.fault ==> slot.Some? && SameLife(th.snapshot.doc, slot.value.doc, log)
    ensures var (th', slot') := Step(op, th, slot, l);
      && (th'.Writing? && !th.Writing? ==> slot'.Some? && th'.snapshot.doc == slot'.value.doc)
      && (th.Writing? ==> !th'.Writing?)
      && (slot.Some? && !(th.Writing? && !l.fault && IsTransition(op)) ==>
            slot'.Some? && SameLife(slot.value.doc, slot'.value.doc, log))
  {
    StepShape(op, th, slot, l);
    if th.Writing? && IsEventOnly(op) {
      EventOnlyKeepsLife(op, th.snapshot, l.stamp, log);
    }
  }

  lemma {:induction false} SnapshotsStayFresh(calls: seq<Op>, store: Store, labels: seq<Label>, n: nat, i: nat, log: bool)
    requires n <= |labels| && Runs(calls, labels) && i < |calls|
    requires (log ==> OwnEventsArePlain(calls, calls[i].id)) && NoStraddle(calls, store, labels, calls[i].id)
    ensures SnapshotFresh(calls, store, labels, n, i, log)
    decreases n, 0
  {
    hide Exec;
    if n > 0 {
      SnapshotsStayFresh(calls, store, labels, n - 1, i, log);
      WritesOnFreshSnapshot(calls, store, labels, n - 1, calls[i].id, log);
      SnapshotsMatch(calls, store, labels, n - 1);
      FreshStep(calls, store, labels, n - 1, i, log);
    }
  }

  /** The snapshot an event-only call is about to write has the life of the stored document. */
  lemma {:induction false} WritesOnFreshSnapshot(calls: seq<Op>, store: Store, labels: seq<Label>, k: nat, x: Id, log: bool)
    requires k < |labels| && Runs(calls, labels)
    requires (log ==> OwnEventsArePlain(calls, x)) && NoStraddle(calls, store, labels, x)
    ensures Target(calls, labels[k]) == x ==> FreshWrite(calls, At(calls, store, labels, k), labels[k], log)
    decreases k, 1
  {
    if Target(calls, labels[k]) == x {
      SnapshotsStayFresh(calls, store, labels, k, labels[k].call, log);
      assert FreshWrite(calls, At(calls, store, labels, k), labels[k], log) || EventWrites(calls, store, labels, k, x);
    }
  }

  predicate FreshWrite(calls: seq<Op>, s: State, l: Label, log: bool)
    requires |s.threads| == |calls| && l.call < |calls|
  {
    var op, th := calls[l.call], s.threads[l.call];
    th.Writing? && IsEventOnly(op) && !l.fault ==>
      op.id in s.store && SameLife(th.snapshot.doc, s.store[op.id].doc, log)
  }

  lemma FreshStep(calls: seq<Op>, store: Store, labels: seq<Label>, n: nat, i: nat, log: bool)
    requires n < |labels| && Runs(calls, labels) && i < |calls| && (log ==> OwnEventsArePlain(calls, calls[i].id))
    requires SnapshotFresh(calls, store, labels, n, i, log)
    requires Target(calls, labels[n]) == calls[i].id ==> FreshWrite(calls, At(calls, store, labels, n), labels[n], log)
    requires StateMatches(calls, At(calls, store, labels, n))
    ensures SnapshotFresh(calls, store, labels, n + 1, i, log)
  {
    var s, l := At(calls, store, labels, n), labels[n];
    var op, x := calls[l.call], Target(calls, l);
    assert At(calls, store, labels, n + 1) == Exec(calls, s, l);
    ExecIsLocal(calls, s, l);
    if calls[i].id == x {
      StepLife(op, s.threads[l.call], Lookup(s.store, x), l, log);
    }
    if s.threads[i].Writing? && i != l.call && calls[i].id == x && TransitionWrites(calls, store, labels, n, x) {
      assert WrittenUnder(calls, store, labels, i, n);
    } else if exists j: nat :: j < n && WrittenUnder(calls, store, labels, i, j) {
      var j: nat :| j < n && WrittenUnder(calls, store, labels, i, j);
      assert j < n + 1 && WrittenUnder(calls, store, labels, i, j);
    }
  }

  // ---- the status tag mirrors the status field ----

  /** Exactly one status tag, and it is the one of the status field. */
  predicate MirrorsStatus(tags: TagSet, status: string) {
    OfKey(tags, STATUS) == {Tag(STATUS, status)}
  }

  predicate Mirrored(e: Entity) {
    MirrorsStatus(e.tags, e.doc.status)
  }

  predicate SlotMirrored(slot: Option<Entity>) {
    IsInboxSlot(slot) ==> Mirrored(slot.value)
  }

  /** Tag, Untag and Reassign do not touch tags of the key. */
  predicate LeavesKeyAlone(op: Op, key: string) {
    match op
    case TagItem(_, _, added) => forall t | t in added :: t.key != key
    case UntagItem(_, _, removed) => removed.key != key
    case ReassignItem(_, _, from, to, _, _, _) => key == ASSIGNEE ==> from == "" && to == ""
    case _ => true
  }

  /** No call on x touches tags of the key but a transition. */
  predicate AllLeaveKeyAlone(calls: seq<Op>, key: string, x: Id) {
    forall op | op in calls && op.id == x :: LeavesKeyAlone(op, key)
  }

  /** The tags after a retagging step keep their part under a key that is left alone. */
  lemma StepKeepsKey(op: Op, th: Thread, slot: Option<Entity>, l: Label, key: string)
    requires InProgram(op, th) && LeavesKeyAlone(op, key) && (key == STATUS || key == ASSIGNEE)
    requires slot.Some? && !(th.Writing? && IsTransition(op))
    ensures OfKey(Step(op, th, slot, l).1.value.tags, key) == OfKey(slot.value.tags, key)
  {
  }

  /** What a transition writes is mirrored, whatever its snapshot held. */
  lemma TransitionWritesMirrored(op: Op, item: Item, stamp: Time)
    requires IsTransition(op)
    ensures MirrorsStatus(After(op, item, stamp).tags, After(op, item, stamp).doc.status)
  {
  }

  /** AddTags keeps the mirror exactly when every status tag it adds is the current one. */
  lemma AddTagsKeepsMirrorIff(e: Entity, add: TagSet)
    requires Mirrored(e)
    ensures Mirrored(e.(tags := e.tags + add)) <==> forall t | t in add :: t.key == STATUS ==> t.value == e.doc.status
  {
    var after := e.tags + add;
    if Mirrored(e.(tags := after)) {
      forall t | t in add ensures t.key == STATUS ==> t.value == e.doc.status {
        assert t.key == STATUS ==> t in OfKey(after, STATUS);
      }
    }
    if forall t | t in add :: t.key == STATUS ==> t.value == e.doc.status {
      assert forall t | t in after && t.key == STATUS :: t in OfKey(e.tags, STATUS) || t == Tag(STATUS, e.doc.status);
      assert Tag(STATUS, e.doc.status) in OfKey(e.tags, STATUS);
    }
  }

  /** RemoveTag keeps the mirror exactly when the tag it removes is not the current status tag. */
  lemma RemoveTagKeepsMirrorIff(e: Entity, removed: Tag)
    requires Mirrored(e)
    ensures Mirrored(e.(tags := e.tags - {removed})) <==> removed != Tag(STATUS, e.doc.status)
  {
    assert Tag(STATUS, e.doc.status) in OfKey(e.tags, STATUS);
    if removed == Tag(STATUS, e.doc.status) {
      assert removed !in OfKey(e.tags - {removed}, STATUS);
    } else {
      assert OfKey(e.tags - {removed}, STATUS) == OfKey(e.tags, STATUS);
    }
  }

  /**
   * The steps that break the mirror of an inbox item: an event-only write under whose snapshot the
   * status has moved, a Tag that adds another status tag, an Untag that removes the current one.
   */
  predicate BreaksMirror(op: Op, th: Thread, slot: Option<Entity>, l: Label) {
    && IsInboxSlot(slot) && !l.fault
    && var status := slot.value.doc.status;
       || (th.Writing? && IsEventOnly(op) && th.snapshot.doc.status != status)
       || (th.Idle? && op.TagItem? && exists t | t in op.added :: t.key == STATUS && t.value != status)
       || (th.Idle? && op.UntagItem? && op.removed == Tag(STATUS, status))
  }

  /** One step of any call keeps the mirror exactly when it is none of these. */
  lemma StepKeepsMirrorIff(op: Op, th: Thread, slot: Option<Entity>, l: Label)
    requires InProgram(op, th) && SlotMirrored(slot) && (th.Writing? ==> IsInboxSlot(slot))
    ensures SlotMirrored(Step(op, th, slot, l).1) <==> !BreaksMirror(op, th, slot, l)
  {
    StepShape(op, th, slot, l);
    if slot.None? {
      if op.CreateItem? && th.Idle? && !l.fault {
        CreateWritesMirrored(op, l);
      }
    } else if th.Writing? {
      hide After;
      if IsTransition(op) {
        TransitionWritesMirrored(op, th.snapshot, l.stamp);
      } else if !l.fault {
        EventWriteKeepsMirrorIff(op, th.snapshot, slot.value, l);
      }
    } else {
      hide Mirrored;
      if IsInboxSlot(slot) {
        RetagKeepsMirrorIff(op, th, slot.value, l);
      }
    }
  }

  lemma CreateWritesMirrored(op: Op, l: Label)
    requires op.CreateItem? && !l.fault
    ensures SlotMirrored(Insert(op, None, l).1)
  {
  }

  /** The steps that write no document. */
  lemma RetagKeepsMirrorIff(op: Op, th: Thread, e: Entity, l: Label)
    requires InProgram(op, th) && !th.Writing? && IsInboxSlot(Some(e)) && Mirrored(e)
    ensures SlotMirrored(Step(op, th, Some(e), l).1) <==> !BreaksMirror(op, th, Some(e), l)
  {
    hide Mirrored, Fetch, After;
    if th.Idle? && op.TagItem? {
      AddTagsKeepsMirrorIff(e, ToSet(op.added));
    } else if th.Idle? && op.UntagItem? {
      RemoveTagKeepsMirrorIff(e, op.removed);
    } else if op.ReassignItem? && !th.Done? {
      AddTagsKeepsMirrorIff(e, {Tag(ASSIGNEE, op.toActor)});
      RemoveTagKeepsMirrorIff(e, Tag(ASSIGNEE, op.fromActor));
    }
  }

  /** Label m breaks the mirror of x. */
  predicate MirrorBrokenAt(calls: seq<Op>, store: Store, labels: seq<Label>, m: nat, x: Id)
    requires m < |labels| && Runs(calls, labels)
  {
    var (s, l) := (At(calls, store, labels, m), labels[m]);
    Target(calls, l) == x && BreaksMirror(calls[l.call], s.threads[l.call], Lookup(s.store, x), l)
  }

  predicate MirroredAfter(calls: seq<Op>, store: Store, labels: seq<Label>, n: nat, x: Id)
    requires n <= |labels| && Runs(calls, labels)
  {
    SlotMirrored(Lookup(At(calls, store, labels, n).store, x))
  }

  lemma LabelKeepsMirrorIff(calls: seq<Op>, store: Store, labels: seq<Label>, n: nat, x: Id)
    requires n < |labels| && Runs(calls, labels) && MirroredAfter(calls, store, labels, n, x)
    ensures MirroredAfter(calls, store, labels, n + 1, x) <==> !MirrorBrokenAt(calls, store, labels, n, x)
  {
    hide Exec, Step, SlotMirrored, BreaksMirror;
    var s, l := At(calls, store, labels, n), labels[n];
    SnapshotsMatch(calls, store, labels, n);
    WritersHoldInbox(calls, store, labels, n, l.call);
    ExecIsLocal(calls, s, l);
    if Target(calls, l) == x {
      StepKeepsMirrorIff(calls[l.call], s.threads[l.call], Lookup(s.store, x), l);
    }
  }

  /**
   * In every interleaving the status tag of an item is that of its status field all the way exactly
   * when no step breaks the mirror.
   */
  lemma {:induction false} MirrorHoldsIff(calls: seq<Op>, store: Store, labels: seq<Label>, n: nat, x: Id)
    requires n <= |labels| && Runs(calls, labels) && SlotMirrored(Lookup(store, x))
    ensures (forall k | 0 <= k <= n :: MirroredAfter(calls, store, labels, k, x)) <==>
            (forall m | 0 <= m < n :: !MirrorBrokenAt(calls, store, labels, m, x))
  {
    hide Exec, MirrorBrokenAt, SlotMirrored;
    if n == 0 {
      assert MirroredAfter(calls, store, labels, 0, x);
    } else {
      hide MirroredAfter;
      MirrorHoldsIff(calls, store, labels, n - 1, x);
      if forall m | 0 <= m < n - 1 :: !MirrorBrokenAt(calls, store, labels, m, x) {
        LabelKeepsMirrorIff(calls, store, labels, n - 1, x);
      }
    }
  }

  /**
   * In every interleaving without a straddled event-only write, transitions free to overlap each
   * other, the status tag of every item is that of its status field.
   */
  lemma StatusTagMirrorsStatus(calls: seq<Op>, store: Store, labels: seq<Label>, n: nat, x: Id)
    requires n <= |labels| && Runs(calls, labels)
    requires AllLeaveKeyAlone(calls, STATUS, x) && NoStraddle(calls, store, labels, x)
    requires SlotMirrored(Lookup(store, x))
    ensures SlotMirrored(Lookup(At(calls, store, labels, n).store, x))
  {
    hide Exec, SlotMirrored;
    MirrorHoldsIff(calls, store, labels, n, x);
    forall m | 0 <= m < n ensures !MirrorBrokenAt(calls, store, labels, m, x) {
      WritesOnFreshSnapshot(calls, store, labels, m, x, false);
    }
    assert MirroredAfter(calls, store, labels, n, x);
  }

  /** Asking for the tag status:s then selects exactly the items whose field is s. */
  lemma StatusTagSelectsStatus(tags: TagSet, field: string, status: string)
    requires MirrorsStatus(tags, field)
    ensures HasAll(tags, {Tag(STATUS, status)}) <==> field == status
  {
    assert Tag(STATUS, status) in OfKey(tags, STATUS) <==> Tag(STATUS, status) in tags;
  }

  /** An event-only write keeps the mirror exactly when the status did not move under its snapshot. */
  lemma EventWriteKeepsMirrorIff(op: Op, snapshot: Item, e: Entity, l: Label)
    requires IsEventOnly(op) && !l.fault && Mirrored(e)
    ensures Mirrored(Update(op, snapshot, Some(e), l).1.value) <==> snapshot.doc.status == e.doc.status
  {
    assert Tag(STATUS, e.doc.status) in OfKey(e.tags, STATUS);
  }

  // ---- the assignee tag follows the last claim ----

  function LastLife(log: seq<Event>): Option<Event> {
    var life := LifeEvents(log);
    if life == [] then None else Some(life[|life| - 1])
  }

  /** A claimed item carries its last claimer's assignee tag; a released one carries none. */
  predicate AssigneeAgrees(e: Entity) {
    var last := LastLife(e.doc.events);
    && (e.doc.status == CLAIMED ==>
          && last.Some? && KindOf(last.value.dataType) == Claimed && last.value.data.ItemClaimed?
          && Tag(ASSIGNEE, last.value.data.claimedBy) in e.tags)
    && (last.Some? && KindOf(last.value.dataType) == Released ==> OfKey(e.tags, ASSIGNEE) == {})
  }

  predicate SlotAgrees(slot: Option<Entity>) {
    IsInboxSlot(slot) ==> AssigneeAgrees(slot.value)
  }

  lemma AgreementReadsLifeAndKey(e: Entity, e': Entity)
    requires SameLife(e.doc, e'.doc, true) && OfKey(e.tags, ASSIGNEE) == OfKey(e'.tags, ASSIGNEE)
    requires AssigneeAgrees(e)
    ensures AssigneeAgrees(e')
  {
    if e.doc.status == CLAIMED {
      assert Tag(ASSIGNEE, LastLife(e.doc.events).value.data.claimedBy) in OfKey(e.tags, ASSIGNEE);
    }
  }

  lemma TransitionWritesAgree(op: Op, item: Item, e: Entity, l: Label)
    requires IsTransition(op) && !l.fault
    ensures AssigneeAgrees(Update(op, item, Some(e), l).1.value)
  {
    var last := Stamped(EventOf(op), l.stamp);
    KindAppended(op, l.stamp);
    LifeEventsSnoc(item.doc.events, last);
    assert LastLife(After(op, item, l.stamp).doc.events) == Some(last);
  }

  lemma CreateWritesAgree(op: Op, l: Label)
    requires op.CreateItem? && !l.fault
    ensures AssigneeAgrees(Insert(op, None, l).1.value)
  {
    var e := NewItem(op, l.stamp).doc.events[0];
    LifeEventsSnoc([], e);
    assert NewItem(op, l.stamp).doc.events == [] + [e];
    assert KindOf(e.dataType) == Created;
  }

  lemma StepKeepsAgreement(op: Op, th: Thread, slot: Option<Entity>, l: Label)
    requires InProgram(op, th) && LeavesKeyAlone(op, ASSIGNEE)
    requires op.AddEvent? ==> KindOf(op.event.dataType) == Activity
    requires th.Writing? && IsEventOnly(op) && !l.fault ==> slot.Some? && SameLife(th.snapshot.doc, slot.value.doc, true)
    requires SlotAgrees(slot) && (slot.Some? ==> IsInboxSlot(slot) || !th.Writing?)
    ensures SlotAgrees(Step(op, th, slot, l).1)
  {
    StepShape(op, th, slot, l);
    var slot' := Step(op, th, slot, l).1;
    if slot.None? {
      if slot'.Some? {
        CreateWritesAgree(op, l);
      }
    } else if th.Writing? && IsTransition(op) {
      if !l.fault {
        TransitionWritesAgree(op, th.snapshot, slot.value, l);
      }
    } else if IsInboxSlot(slot') {
      StepKeepsKey(op, th, slot, l, ASSIGNEE);
      StepLife(op, th, slot, l, true);
      assert IsInboxSlot(slot);
      AgreementReadsLifeAndKey(slot.value, slot'.value);
    }
  }

  lemma ExecKeepsAgreement(calls: seq<Op>, s: State, l: Label, x: Id)
    requires |s.threads| == |calls| && l.call < |calls| && StateMatches(calls, s)
    requires OwnEventsArePlain(calls, x) && AllLeaveKeyAlone(calls, ASSIGNEE, x) && (Target(calls, l) == x ==> FreshWrite(calls, s, l, true))
    requires SlotAgrees(Lookup(s.store, x)) && (x in s.store ==> IsInboxSlot(Lookup(s.store, x)))
    ensures SlotAgrees(Lookup(Exec(calls, s, l).store, x))
    ensures x in Exec(calls, s, l).store ==> IsInboxSlot(Lookup(Exec(calls, s, l).store, x))
  {
    ExecIsLocal(calls, s, l);
    if x == Target(calls, l) {
      StepKeepsAgreement(calls[l.call], s.threads[l.call], Lookup(s.store, x), l);
      StepKeepsContent(calls[l.call], s.threads[l.call], Lookup(s.store, x), l);
      StepShape(calls[l.call], s.threads[l.call], Lookup(s.store, x), l);
    }
  }

  /**
   * In every interleaving, overlapping or not, in which nothing but claims and releases touches
   * the assignee key and no event-only write is straddled: a claimed item's tags contain the
   * assignee tag of its last claimer, and an item last released has no assignee tag.
   */
  lemma {:induction false} AssigneeFollowsClaims(calls: seq<Op>, labels: seq<Label>, n: nat, x: Id)
    requires n <= |labels| && Runs(calls, labels)
    requires OwnEventsArePlain(calls, x) && AllLeaveKeyAlone(calls, ASSIGNEE, x) && NoStraddle(calls, map[], labels, x)
    ensures var slot := Lookup(At(calls, map[], labels, n).store, x);
      slot.Some? ==> IsInboxSlot(slot) && AssigneeAgrees(slot.value)
  {
    hide Exec;
    if n > 0 {
      AssigneeFollowsClaims(calls, labels, n - 1, x);
      SnapshotsMatch(calls, map[], labels, n - 1);
      WritesOnFreshSnapshot(calls, map[], labels, n - 1, x, true);
      ExecKeepsAgreement(calls, At(calls, map[], labels, n - 1), labels[n - 1], x);
    }
  }

  /** Creates, claims, releases and closes alone never straddle, however they overlap. */
  lemma ClaimsAgreeUnderAnyOverlap(calls: seq<Op>, labels: seq<Label>, n: nat, x: Id)
    requires n <= |labels| && Runs(calls, labels)
    requires forall op | op in calls && op.id == x :: op.CreateItem? || IsTransition(op) || op.GetItem?
    ensures var slot := Lookup(At(calls, map[], labels, n).store, x);
      slot.Some? ==> AssigneeAgrees(slot.value) && Mirrored(slot.value)
  {
    AssigneeFollowsClaims(calls, labels, n, x);
    StatusTagMirrorsStatus(calls, map[], labels, n, x);
  }

  // ---- why the conditions are there: runs of any open item ----

  /** A comment that straddles a claim puts the field back to open and leaves the tag claimed. */
  lemma StraddlingCommentBreaksMirror(e: Entity, claimer: string, comment: Event, now: Time)
    requires e.entityType == ENTITY_TYPE && e.doc.status == OPEN
    ensures var calls := [ClaimItem("x", claimer, true), AddEvent("x", comment)];
      var labels := [Label(1, now, now, false), Label(0, now, now, false), Label(0, now, now, false), Label(1, now, now, false)];
      var stored := Lookup(Final(calls, map["x" := e], labels).store, "x");
      && stored.Some? && stored.value.doc.status == OPEN
      && OfKey(stored.value.tags, STATUS) == {Tag(STATUS, CLAIMED)}
  {
    var calls := [ClaimItem("x", claimer, true), AddEvent("x", comment)];
    var l0, l1 := Label(0, now, now, false), Label(1, now, now, false);
    var labels := [l1, l0, l0, l1];
    var store := map["x" := e];
    var item := ItemOf("x", e);
    var s1, s2 := At(calls, store, labels, 1), At(calls, store, labels, 2);
    assert s1 == Exec(calls, At(calls, store, labels, 0), l1);
    assert s1.threads == [Idle, Writing(item, now)] && s1.store == store;
    assert s2 == Exec(calls, s1, l0);
    assert s2.threads == [Writing(item, now), Writing(item, now)] && s2.store == store;
    var s3 := At(calls, store, labels, 3);
    assert s3 == Exec(calls, s2, l0);
    TransitionWritesMirrored(calls[0], item, now);
    assert Lookup(s3.store, "x") == Update(calls[0], item, Some(e), l0).1 && s3.threads[1] == Writing(item, now);
    assert At(calls, store, labels, 4) == Exec(calls, s3, l1);
  }
}
