/**
 * Calls one at a time: the whole effect of each call, proved to be what its store calls do when
 * run alone, and the laws of serial histories.
 */
module Serial {
  import opened Types
  import opened Protocol
  import Tokenizer

  // ---- the whole effect of a call ----

  /** When a call writes: the time it stamps its event with and the store's clock at the write. */
  datatype Moment = Moment(stamp: Time, now: Time)

  /** Which store calls of a call fail: RemoveTag, AddTags, the fetch, the write. */
  datatype Faults = Faults(removing: bool, adding: bool, fetching: bool, writing: bool)

  const NO_FAULTS := Faults(false, false, false, false)

  /** Get, test, change in memory, write. */
  function GetAndWrite(op: Op, slot: Option<Entity>, at: Moment, f: Faults): (Outcome, Option<Entity>)
    requires IsTransition(op) || IsEventOnly(op)
  {
    if f.fetching || !IsInboxSlot(slot) then (Failed(NotFound), slot)
    else
      var e := slot.value;
      match Check(op, e.doc.status)
      case Some(error) => (Failed(error), slot)
      case None =>
        if f.writing then (Failed(Other), slot)
        else
          var item := After(op, ItemOf(op.id, e), at.stamp);
          (Returned(item), Some(e.(doc := item.doc, tags := item.tags, updatedAt := at.now)))
  }

  /** RemoveTag and AddTags as Reassign calls them: a failure is ignored. */
  function Removed(op: Op, slot: Option<Entity>, f: Faults): Option<Entity>
    requires op.ReassignItem?
  {
    if op.fromActor == "" || f.removing then slot else Untagged(slot, {Tag(ASSIGNEE, op.fromActor)})
  }

  function Added(op: Op, slot: Option<Entity>, f: Faults): Option<Entity>
    requires op.ReassignItem?
  {
    if op.toActor == "" || f.adding then slot else Tagged(slot, {Tag(ASSIGNEE, op.toActor)})
  }

  /** The outcome and the slot; Reassign's two tag changes stand even when what follows fails. */
  function Whole(op: Op, slot: Option<Entity>, at: Moment, f: Faults): (Outcome, Option<Entity>) {
    match op
    case GetItem(id) =>
      (if IsInboxSlot(slot) && !f.fetching then Returned(ItemOf(id, slot.value)) else Failed(NotFound), slot)
    case CreateItem(_, _, meta) =>
      if slot.Some? || f.writing then (Failed(Other), slot)
      else
        var item := NewItem(op, at.stamp);
        (Returned(item),
         Some(Entity(ENTITY_TYPE, item.doc, item.tags, Tokenizer.TokenMap(meta.title, meta.description), at.now, at.now)))
    case ClaimItem(_, _, ok) => if ok then GetAndWrite(op, slot, at, f) else (Failed(Other), slot)
    case ReassignItem(_, _, from, to, fromOk, toOk, _) =>
      if from != "" && !fromOk then (Failed(Other), slot)
      else if to != "" && !toOk then (Failed(Other), Removed(op, slot, f))
      else GetAndWrite(op, Added(op, Removed(op, slot, f), f), at, f)
    case TagItem(_, _, added) =>
      if slot.None? || f.adding then (Failed(Other), slot)
      else (Changed, GetAndWrite(op, Tagged(slot, ToSet(added)), at, f).1)
    case UntagItem(_, _, removed) =>
      if slot.None? || f.removing then (Failed(Other), slot)
      else (Changed, GetAndWrite(op, Untagged(slot, {removed}), at, f).1)
    case _ => GetAndWrite(op, slot, at, f)
  }

  // ---- small steps ----

  /** What remains of a call from where it stands. */
  function Rest(op: Op, th: Thread, slot: Option<Entity>, at: Moment, f: Faults): (Outcome, Option<Entity>)
    requires InProgram(op, th)
  {
    match th
    case Idle => Whole(op, slot, at, f)
    case Adding =>
      if !op.toOk then (Failed(Other), slot)
      else GetAndWrite(op, Added(op, slot, f), at, f)
    case Reading => Silenced(op, GetAndWrite(op, slot, at, f))
    case Writing(item, _) =>
      var (th', slot') := Update(op, item, slot, Label(0, at.now, at.stamp, f.writing));
      (th'.outcome, slot')
    case Done(outcome) => (outcome, slot)
  }

  /** Tag and Untag report nothing about the event they append. */
  function Silenced(op: Op, r: (Outcome, Option<Entity>)): (Outcome, Option<Entity>) {
    (if op.TagItem? || op.UntagItem? then Changed else r.0, r.1)
  }

  /** The faults of a call of whose next store call it is known whether it fails. */
  function Mark(op: Op, th: Thread, f: Faults, fault: bool): Faults {
    match th
    case Idle =>
      if op.CreateItem? then f.(writing := fault)
      else if op.UntagItem? || (op.ReassignItem? && op.fromActor != "") then f.(removing := fault)
      else if op.TagItem? || (op.ReassignItem? && op.toActor != "") then f.(adding := fault)
      else f.(fetching := fault)
    case Adding => f.(adding := fault)
    case Reading => f.(fetching := fault)
    case Writing(_, _) => f.(writing := fault)
    case Done(_) => f
  }

  /** A fetch, and the write that follows it. */
  lemma FetchKeepsRest(op: Op, slot: Option<Entity>, l: Label, at: Moment, f: Faults)
    requires IsTransition(op) || IsEventOnly(op)
    ensures var (th, g) := (Fetch(op, slot, l), f.(fetching := l.fault));
      && (th.Done? ==> Silenced(op, GetAndWrite(op, slot, Moment(l.stamp, l.now), g)) == (th.outcome, slot))
      && (!th.Done? ==> th.Writing? && Silenced(op, GetAndWrite(op, slot, at, g)) == Rest(op, th, slot, at, f))
  {
    hide EventOf;
  }

  /** A store call leaves the rest of the call as it was, or completes it at its own moment. */
  predicate KeepsRest(op: Op, th: Thread, slot: Option<Entity>, l: Label, at: Moment, f: Faults)
    requires InProgram(op, th) && InProgram(op, Step(op, th, slot, l).0)
  {
    var ((th', slot'), g) := (Step(op, th, slot, l), Mark(op, th, f, l.fault));
    && (th'.Done? ==> Rest(op, th, slot, Moment(l.stamp, l.now), g) == (th'.outcome, slot'))
    && (!th'.Done? ==> Rest(op, th, slot, at, g) == Rest(op, th', slot', at, f))
  }

  /** A call that starts with a fetch, or with its only store call. */
  lemma StartKeepsRest(op: Op, slot: Option<Entity>, l: Label, at: Moment, f: Faults)
    requires InProgram(op, Step(op, Idle, slot, l).0)
    requires !op.ReassignItem? && !op.TagItem? && !op.UntagItem?
    ensures KeepsRest(op, Idle, slot, l, at, f)
  {
    if IsTransition(op) || IsEventOnly(op) {
      FetchKeepsRest(op, slot, l, at, f);
      hide GetAndWrite, Fetch;
    }
  }

  /** A call that starts with a tag change. */
  lemma RetagKeepsRest(op: Op, slot: Option<Entity>, l: Label, at: Moment, f: Faults)
    requires InProgram(op, Step(op, Idle, slot, l).0)
    requires op.TagItem? || op.UntagItem?
    ensures KeepsRest(op, Idle, slot, l, at, f)
  {
    var f' := if op.TagItem? then f.(adding := l.fault) else f.(removing := l.fault);
    var slot' := if op.TagItem? then Tagged(slot, ToSet(op.added)) else Untagged(slot, {op.removed});
    assert GetAndWrite(op, slot', at, f) == GetAndWrite(op, slot', at, f');
    hide GetAndWrite, Fetch;
  }

  /** Reassign's first store call is the removal. */
  lemma RemovingKeepsRest(op: Op, slot: Option<Entity>, l: Label, at: Moment, f: Faults)
    requires op.ReassignItem? && op.fromActor != "" && InProgram(op, Step(op, Idle, slot, l).0)
    ensures KeepsRest(op, Idle, slot, l, at, f)
  {
    hide GetAndWrite, Fetch, Update, Tagged, Untagged;
    GetAndWriteReads(op, Added(op, Step(op, Idle, slot, l).1, f), at, f, f.(removing := l.fault));
  }

  /** Reassign's first store call is the addition, or the fetch. */
  lemma ReassignKeepsRest(op: Op, slot: Option<Entity>, l: Label, at: Moment, f: Faults)
    requires op.ReassignItem? && op.fromActor == "" && InProgram(op, Step(op, Idle, slot, l).0)
    ensures KeepsRest(op, Idle, slot, l, at, f)
  {
    hide GetAndWrite, Fetch, Update, Tagged, Untagged;
    if op.toActor != "" {
      GetAndWriteReads(op, Step(op, Idle, slot, l).1, at, f, f.(adding := l.fault));
    } else {
      FetchKeepsRest(op, slot, l, at, f);
    }
  }

  lemma AddingKeepsRest(op: Op, slot: Option<Entity>, l: Label, at: Moment, f: Faults)
    requires InProgram(op, Adding) && InProgram(op, Step(op, Adding, slot, l).0)
    ensures KeepsRest(op, Adding, slot, l, at, f)
  {
    hide GetAndWrite, Fetch, Update, Tagged, Untagged, Whole;
    GetAndWriteReads(op, Step(op, Adding, slot, l).1, at, f, f.(adding := l.fault));
  }

  lemma GetAndWriteReads(op: Op, slot: Option<Entity>, at: Moment, f: Faults, g: Faults)
    requires op.ReassignItem? && f.fetching == g.fetching && f.writing == g.writing
    ensures GetAndWrite(op, slot, at, f) == GetAndWrite(op, slot, at, g)
  {
  }

  lemma StepKeepsRest(op: Op, th: Thread, slot: Option<Entity>, l: Label, at: Moment, f: Faults)
    requires InProgram(op, th) && !th.Done?
    ensures InProgram(op, Step(op, th, slot, l).0) && KeepsRest(op, th, slot, l, at, f)
  {
    StepStaysInProgram(op, th, slot, l);
    if th.Writing? {
    } else if th.Reading? {
      FetchKeepsRest(op, slot, l, at, f);
      hide GetAndWrite, Fetch;
    } else if th.Adding? {
      AddingKeepsRest(op, slot, l, at, f);
    } else {
      hide KeepsRest, InProgram;
      if op.ReassignItem? && op.fromActor != "" {
        RemovingKeepsRest(op, slot, l, at, f);
      } else if op.ReassignItem? {
        ReassignKeepsRest(op, slot, l, at, f);
      } else if op.TagItem? || op.UntagItem? {
        RetagKeepsRest(op, slot, l, at, f);
      } else {
        StartKeepsRest(op, slot, l, at, f);
      }
    }
  }

  /** The label at which a driven call is over. */
  function EndOf(op: Op, th: Thread, slot: Option<Entity>, labels: seq<Label>): (l: Label)
    requires !th.Done? && Drive(op, th, slot, labels).0.Done?
    ensures l in labels
    decreases |labels|
  {
    var (th', slot') := Step(op, th, slot, labels[0]);
    if th'.Done? then labels[0] else EndOf(op, th', slot', labels[1..])
  }

  /** Which store calls of a driven call fail. */
  function FaultsOf(op: Op, th: Thread, slot: Option<Entity>, labels: seq<Label>): Faults
    decreases |labels|
  {
    if labels == [] || th.Done? then NO_FAULTS
    else
      var (th', slot') := Step(op, th, slot, labels[0]);
      Mark(op, th, FaultsOf(op, th', slot', labels[1..]), labels[0].fault)
  }

  predicate NoFaults(labels: seq<Label>) {
    forall i | 0 <= i < |labels| :: !labels[i].fault
  }

  lemma {:induction false} NoFaultsOf(op: Op, th: Thread, slot: Option<Entity>, labels: seq<Label>)
    requires NoFaults(labels)
    ensures FaultsOf(op, th, slot, labels) == NO_FAULTS
    decreases |labels|
  {
    hide Step;
    if labels != [] {
      var (th', slot') := Step(op, th, slot, labels[0]);
      NoFaultsOf(op, th', slot', labels[1..]);
    }
  }

  lemma {:induction false} DriveIsRest(op: Op, th: Thread, slot: Option<Entity>, labels: seq<Label>)
    requires InProgram(op, th) && !th.Done? && Drive(op, th, slot, labels).0.Done?
    ensures var end := EndOf(op, th, slot, labels);
      var r := Rest(op, th, slot, Moment(end.stamp, end.now), FaultsOf(op, th, slot, labels));
      Drive(op, th, slot, labels) == (Done(r.0), r.1)
    decreases |labels|
  {
    hide Step, Rest, Mark, InProgram;
    var l := labels[0];
    var (th', slot') := Step(op, th, slot, l);
    var end := EndOf(op, th, slot, labels);
    StepKeepsRest(op, th, slot, l, Moment(end.stamp, end.now), FaultsOf(op, th', slot', labels[1..]));
    if th'.Done? {
      DriveDone(op, th', slot', labels[1..]);
    } else {
      DriveIsRest(op, th', slot', labels[1..]);
    }
  }

  lemma {:induction false} DriveDone(op: Op, th: Thread, slot: Option<Entity>, labels: seq<Label>)
    requires th.Done?
    ensures Drive(op, th, slot, labels) == (th, slot)
    decreases |labels|
  {
    if labels != [] {
      DriveDone(op, th, slot, labels[1..]);
    }
  }

  /**
   * Small steps and the whole effect agree: a call driven alone to its end has exactly its whole
   * effect under the faults it met, as of the moment of its last store call.
   */
  lemma DriveIsWhole(op: Op, slot: Option<Entity>, labels: seq<Label>)
    requires Drive(op, Idle, slot, labels).0.Done?
    ensures var end := EndOf(op, Idle, slot, labels);
      var r := Whole(op, slot, Moment(end.stamp, end.now), FaultsOf(op, Idle, slot, labels));
      Drive(op, Idle, slot, labels) == (Done(r.0), r.1)
  {
    DriveIsRest(op, Idle, slot, labels);
  }

  // ---- Reassign is not all-or-nothing ----

  /** RemoveTag worked: it was asked for with an accepted actor, and the first store call did not fail. */
  predicate RemoveWorked(op: Op, labels: seq<Label>)
    requires op.ReassignItem?
  {
    op.fromActor != "" && op.fromOk && |labels| > 0 && !labels[0].fault
  }

  /** AddTags worked: nothing was refused before it, and its store call, the first or second, did not fail. */
  predicate AddWorked(op: Op, labels: seq<Label>)
    requires op.ReassignItem?
  {
    var k := if op.fromActor == "" then 0 else 1;
    op.toActor != "" && op.toOk && (op.fromActor == "" || op.fromOk) && |labels| > k && !labels[k].fault
  }

  /** Where Reassign's faults are read off its labels. */
  lemma ReassignFaults(op: Op, slot: Option<Entity>, labels: seq<Label>)
    requires op.ReassignItem? && Drive(op, Idle, slot, labels).0.Done?
    ensures var f := FaultsOf(op, Idle, slot, labels);
      && (RemoveWorked(op, labels) <==> op.fromActor != "" && op.fromOk && !f.removing)
      && (AddWorked(op, labels) <==> op.toActor != "" && op.toOk && (op.fromActor == "" || op.fromOk) && !f.adding)
  {
    hide GetAndWrite, Update;
    var (th, slot') := Step(op, Idle, slot, labels[0]);
    if op.fromActor != "" && op.fromOk && op.toActor != "" {
      assert th == Adding;
      FetchingFaults(op, Step(op, th, slot', labels[1]).0, Step(op, th, slot', labels[1]).1, labels[1..][1..]);
    } else {
      FetchingFaults(op, th, slot', labels[1..]);
    }
  }

  /** Past its tag calls, a call's labels say nothing about them. */
  lemma {:induction false} FetchingFaults(op: Op, th: Thread, slot: Option<Entity>, labels: seq<Label>)
    requires th.Reading? || th.Writing? || th.Done?
    ensures var f := FaultsOf(op, th, slot, labels); !f.removing && !f.adding
    decreases |labels|
  {
    if labels != [] && !th.Done? {
      var (th', slot') := Step(op, th, slot, labels[0]);
      FetchingFaults(op, th', slot', labels[1..]);
    }
  }

  /** What a failing Reassign leaves: the entity with the tags its two tag calls made of it. */
  lemma FailedWhole(op: Op, e: Entity, at: Moment, f: Faults)
    requires op.ReassignItem? && Whole(op, Some(e), at, f).0.Failed?
    ensures var removed := op.fromActor != "" && op.fromOk && !f.removing;
      var added := op.toActor != "" && op.toOk && (op.fromActor == "" || op.fromOk) && !f.adding;
      Whole(op, Some(e), at, f).1 == Some(e.(tags := Retagged(op, e.tags, removed, added)))
  {
    assert forall t: TagSet :: t + {} == t && t - {} == t;
  }

  function Retagged(op: Op, tags: TagSet, removed: bool, added: bool): TagSet
    requires op.ReassignItem?
  {
    tags - (if removed then {Tag(ASSIGNEE, op.fromActor)} else {}) + (if added then {Tag(ASSIGNEE, op.toActor)} else {})
  }

  lemma RetaggedDiffersIff(op: Op, tags: TagSet, removed: bool, added: bool)
    requires op.ReassignItem?
    ensures Retagged(op, tags, removed, added) != tags <==>
            || (removed && Tag(ASSIGNEE, op.fromActor) in tags && !(added && op.toActor == op.fromActor))
            || (added && Tag(ASSIGNEE, op.toActor) !in tags)
  {
    var after := Retagged(op, tags, removed, added);
    if removed && Tag(ASSIGNEE, op.fromActor) in tags && !(added && op.toActor == op.fromActor) {
      assert Tag(ASSIGNEE, op.fromActor) !in after;
    } else if added && Tag(ASSIGNEE, op.toActor) !in tags {
      assert Tag(ASSIGNEE, op.toActor) in after;
    } else {
      assert after == tags;
    }
  }

  /**
   * A failing Reassign, whatever made it fail and whatever the entity, leaves its item changed exactly
   * when a tag call took effect: the old assignee's tag was there and was removed without being put
   * back as the new one, or the new assignee's tag was not there and was added.
   */
  lemma FailedReassignLeavesTraceIff(op: Op, slot: Option<Entity>, labels: seq<Label>)
    requires op.ReassignItem?
    requires var th := Drive(op, Idle, slot, labels).0; th.Done? && th.outcome.Failed?
    ensures Drive(op, Idle, slot, labels).1 != slot <==>
            && slot.Some?
            && var tags := slot.value.tags;
               || (RemoveWorked(op, labels) && Tag(ASSIGNEE, op.fromActor) in tags
                   && !(AddWorked(op, labels) && op.toActor == op.fromActor))
               || (AddWorked(op, labels) && Tag(ASSIGNEE, op.toActor) !in tags)
  {
    var f, end := FaultsOf(op, Idle, slot, labels), EndOf(op, Idle, slot, labels);
    DriveIsWhole(op, slot, labels);
    ReassignFaults(op, slot, labels);
    if slot.Some? {
      FailedWhole(op, slot.value, Moment(end.stamp, end.now), f);
      RetaggedDiffersIff(op, slot.value.tags, RemoveWorked(op, labels), AddWorked(op, labels));
    }
  }

  // ---- serial histories ----

  /** One call on a store. */
  function Alone(op: Op, rows: Store, at: Moment): (Outcome, Store) {
    AloneUnder(op, rows, at, NO_FAULTS)
  }

  /** One call on a store some of whose calls fail. */
  function AloneUnder(op: Op, rows: Store, at: Moment, f: Faults): (Outcome, Store) {
    var r := Whole(op, Lookup(rows, op.id), at, f);
    (r.0, Put(rows, op.id, r.1))
  }

  datatype Timed = Timed(op: Op, at: Moment)

  /** The store after a history of calls, one at a time. */
  function History(rows: Store, calls: seq<Timed>): Store
    decreases |calls|
  {
    if calls == [] then rows else History(Alone(calls[0].op, rows, calls[0].at).1, calls[1..])
  }

  lemma {:induction false} HistoryAppend(rows: Store, a: seq<Timed>, b: seq<Timed>)
    ensures History(rows, a + b) == History(History(rows, a), b)
    decreases |a|
  {
    if a == [] {
      assert a + b == b;
    } else {
      assert (a + b)[1..] == a[1..] + b;
      HistoryAppend(Alone(a[0].op, rows, a[0].at).1, a[1..], b);
    }
  }

  /** A call keeps what is there and touches only its own item. */
  lemma AloneIsLocal(op: Op, rows: Store, at: Moment, f: Faults)
    ensures var r := AloneUnder(op, rows, at, f);
      && (forall x | x != op.id :: Lookup(r.1, x) == Lookup(rows, x))
      && Lookup(r.1, op.id) == Whole(op, Lookup(rows, op.id), at, f).1
  {
  }

  // ---- refinement of the three-state machine ----

  /** The README's machine for one item; legacy statuses are closed. */
  datatype Abstract = Missing | Open | Held | Shut

  function AbstractOf(slot: Option<Entity>): Abstract {
    if !IsInboxSlot(slot) then Missing
    else if slot.value.doc.status == OPEN then Open
    else if slot.value.doc.status == CLAIMED then Held
    else Shut
  }

  datatype Code = CodeOk | CodeNotFound | CodeFailedPrecondition | CodeInternal

  /** service.go's mapping of errors to codes. */
  function MapError(e: Error): Code {
    match e
    case NotFound => CodeNotFound
    case InvalidTransition => CodeFailedPrecondition
    case TerminalStatus => CodeFailedPrecondition
    case Other => CodeInternal
  }

  function CodeOf(r: Outcome): Code {
    if r.Failed? then MapError(r.error) else CodeOk
  }

  /** The machine: the code of a lifecycle call and the next state, from the state alone. */
  function Move(op: Op, a: Abstract): (Code, Abstract)
    requires IsTransition(op)
  {
    if op.ClaimItem? && !op.tagOk then (CodeInternal, a)
    else if a.Missing? then (CodeNotFound, a)
    else if op.ClaimItem? && a.Open? then (CodeOk, Held)
    else if op.ReleaseItem? && a.Held? then (CodeOk, Open)
    else if op.CloseItem? && !a.Shut? then (CodeOk, Shut)
    else (CodeFailedPrecondition, a)
  }

  /** What any call does to the abstract state of its own item. */
  function AbstractStep(op: Op, slot: Option<Entity>): Abstract {
    if IsTransition(op) then Move(op, AbstractOf(slot)).1
    else if op.CreateItem? && slot.None? then Open
    else AbstractOf(slot)
  }

  /** A write of the document by an event-only call leaves the state; one by a transition moves it. */
  lemma GetAndWriteRefines(op: Op, slot: Option<Entity>, at: Moment)
    requires IsEventOnly(op) || (IsTransition(op) && (op.ClaimItem? ==> op.tagOk))
    ensures var r := GetAndWrite(op, slot, at, NO_FAULTS);
      && AbstractOf(r.1) == AbstractStep(op, slot)
      && (IsTransition(op) ==> CodeOf(r.0) == Move(op, AbstractOf(slot)).0 && (r.0.Failed? ==> r.1 == slot))
  {
    hide TagsAfter, EventOf;
  }

  lemma WholeRefines(op: Op, slot: Option<Entity>, at: Moment)
    ensures AbstractOf(Whole(op, slot, at, NO_FAULTS).1) == AbstractStep(op, slot)
    ensures IsTransition(op) ==>
      && CodeOf(Whole(op, slot, at, NO_FAULTS).0) == Move(op, AbstractOf(slot)).0
      && (Whole(op, slot, at, NO_FAULTS).0.Failed? ==> Whole(op, slot, at, NO_FAULTS).1 == slot)
  {
    if IsEventOnly(op) {
      var tagged := match op
        case ReassignItem(_, _, _, _, _, _, _) => Added(op, Removed(op, slot, NO_FAULTS), NO_FAULTS)
        case TagItem(_, _, added) => Tagged(slot, ToSet(added))
        case UntagItem(_, _, removed) => Untagged(slot, {removed})
        case _ => slot;
      GetAndWriteRefines(op, tagged, at);
    } else if IsTransition(op) && (op.ClaimItem? ==> op.tagOk) {
      GetAndWriteRefines(op, slot, at);
    }
    hide GetAndWrite;
  }

  /**
   * Every serial history simulates the machine: in whatever store a history leads to, the code of a
   * Claim, Release or Close is decided by the abstract state of its item alone, a failure leaves the
   * store unchanged, and a success moves that item as the machine does and no other item at all.
   */
  lemma ServiceRefinesMachine(rows: Store, calls: seq<Timed>, op: Op, at: Moment)
    requires IsTransition(op)
    ensures var before := History(rows, calls);
      var after := History(rows, calls + [Timed(op, at)]);
      var (code, next) := Move(op, AbstractOf(Lookup(before, op.id)));
      && CodeOf(Alone(op, before, at).0) == code
      && (code != CodeOk ==> after == before)
      && AbstractOf(Lookup(after, op.id)) == next
      && forall x | x != op.id :: Lookup(after, x) == Lookup(before, x)
  {
    var before := History(rows, calls);
    HistoryAppend(rows, calls, [Timed(op, at)]);
    assert History(before, [Timed(op, at)]) == Alone(op, before, at).1;
    WholeRefines(op, Lookup(before, op.id), at);
    AloneIsLocal(op, before, at, NO_FAULTS);
  }

  function MachineStep(op: Op, a: Abstract, x: Id): Abstract {
    if op.id != x then a
    else if IsTransition(op) then Move(op, a).1
    else if op.CreateItem? && a.Missing? then Open
    else a
  }

  /** The machine run over a history, for one item. */
  function Machine(a: Abstract, calls: seq<Timed>, x: Id): Abstract
    decreases |calls|
  {
    if calls == [] then a else Machine(MachineStep(calls[0].op, a, x), calls[1..], x)
  }

  /**
   * The whole simulation: from a store in which x is absent or an inbox item, the state of x after any
   * serial history is where the machine, fed the calls on x, stands.
   */
  lemma {:induction false} HistoriesSimulateMachine(rows: Store, calls: seq<Timed>, x: Id)
    requires x in rows ==> IsInboxSlot(Lookup(rows, x))
    ensures AbstractOf(Lookup(History(rows, calls), x)) == Machine(AbstractOf(Lookup(rows, x)), calls, x)
    ensures x in History(rows, calls) ==> IsInboxSlot(Lookup(History(rows, calls), x))
    decreases |calls|
  {
    if calls != [] {
      var first := calls[0];
      AloneIsLocal(first.op, rows, first.at, NO_FAULTS);
      WholeRefines(first.op, Lookup(rows, first.op.id), first.at);
      HistoriesSimulateMachine(Alone(first.op, rows, first.at).1, calls[1..], x);
    }
  }

  // ---- claim, then release ----

  /**
   * Claiming and then releasing an open item restores it: its tags are the original ones without the
   * assignee key and with status:open, its log is the original and exactly two more events.
   */
  lemma ClaimThenReleaseRestores(rows: Store, id: Id, claimer: string, releaser: string, t0: Moment, t1: Moment)
    requires IsInboxSlot(Lookup(rows, id)) && rows[id].doc.status == OPEN
    ensures var claimed := Alone(ClaimItem(id, claimer, true), rows, t0);
      var released := Alone(ReleaseItem(id, releaser), claimed.1, t1);
      var e := rows[id];
      && claimed.0.Returned? && released.0.Returned?
      && released.1 == rows[id := e.(
           doc := e.doc.(events := e.doc.events + [
             Stamped(NewEvent(claimer, "", ItemClaimed(claimer)), t0.stamp),
             Stamped(NewEvent(releaser, "", ItemReleased(releaser)), t1.stamp)]),
           tags := With(Without(e.tags, ASSIGNEE), STATUS, OPEN),
           updatedAt := t1.now)]
  {
    var e := rows[id];
    var c := Stamped(NewEvent(claimer, "", ItemClaimed(claimer)), t0.stamp);
    var r := Stamped(NewEvent(releaser, "", ItemReleased(releaser)), t1.stamp);
    assert (e.doc.events + [c]) + [r] == e.doc.events + [c, r];
    var tags := Merge(With(e.tags, STATUS, CLAIMED), {Tag(ASSIGNEE, claimer)});
    assert With(Without(tags, ASSIGNEE), STATUS, OPEN) == With(Without(e.tags, ASSIGNEE), STATUS, OPEN);
    var claimed := Alone(ClaimItem(id, claimer, true), rows, t0).1;
    assert claimed[id].doc == e.doc.(status := CLAIMED, events := e.doc.events + [c]) && claimed[id].tags == tags;
    var released := Alone(ReleaseItem(id, releaser), claimed, t1).1;
    assert released[id].doc == e.doc.(events := e.doc.events + [c, r]);
  }
}
