/**
 * The inbox operations as programs of atomic store calls with a local snapshot,
 * and runs that interleave any number of them over one store.
 */
module Protocol {
  import opened Types
  import Tokenizer

  // ---- the calls a client can make ----

  /**
   * One call. The flags `tagOk`, `fromOk` and `toOk` say whether the tags library accepts
   * the actor as a tag value; a Create carries the id that was drawn for it.
   */
  datatype Op =
    | GetItem(id: Id)
    | CreateItem(id: Id, actor: string, meta: Meta)
    | ClaimItem(id: Id, actor: string, tagOk: bool)
    | ReleaseItem(id: Id, actor: string)
    | CloseItem(id: Id, actor: string, closeReason: string)
    | AddEvent(id: Id, event: Event)
    | ReassignItem(id: Id, actor: string, fromActor: string, toActor: string, fromOk: bool, toOk: bool, reason: string)
    | TagItem(id: Id, actor: string, added: seq<Tag>)
    | UntagItem(id: Id, actor: string, removed: Tag)

  /** Comment is AddEvent with a comment event. */
  function CommentOn(id: Id, actor: string, body: string, visibility: seq<string>, refs: seq<string>): Op {
    AddEvent(id, NewEvent(actor, body, CommentAppended(body, visibility, refs)))
  }

  predicate IsTransition(op: Op) {
    op.ClaimItem? || op.ReleaseItem? || op.CloseItem?
  }

  /** Operations that end by writing a document without tags. */
  predicate IsEventOnly(op: Op) {
    op.AddEvent? || op.ReassignItem? || op.TagItem? || op.UntagItem?
  }

  /** An actor is printed as principal type, colon, principal id. */
  function ActorOf(principalType: string, principalId: string): string {
    principalType + ":" + principalId
  }

  // ---- what the operations compute ----

  function Check(op: Op, status: string): Option<Error> {
    match op
    case ClaimItem(_, _, _) => if status != OPEN then Some(InvalidTransition) else None
    case ReleaseItem(_, _) => if status != CLAIMED then Some(InvalidTransition) else None
    case CloseItem(_, _, _) => if IsTerminal(status) then Some(TerminalStatus) else None
    case _ => None
  }

  /** The event an operation appends, before it is stamped. */
  function EventOf(op: Op): Event
    requires IsTransition(op) || IsEventOnly(op)
  {
    match op
    case ClaimItem(_, actor, _) => NewEvent(actor, "", ItemClaimed(actor))
    case ReleaseItem(_, actor) => NewEvent(actor, "", ItemReleased(actor))
    case CloseItem(_, actor, reason) => NewEvent(actor, "", ItemClosed(actor, reason))
    case AddEvent(_, e) => e
    case ReassignItem(_, actor, from, to, _, _, reason) => NewEvent(actor, reason, ItemReassigned(from, to, reason))
    case TagItem(_, actor, added) => NewEvent(actor, "+" + JoinTags(added, ", +"), TagsChanged(added, []))
    case UntagItem(_, actor, removed) => NewEvent(actor, "-" + TagText(removed), TagsChanged([], [removed]))
  }

  /** Only the three transitions append lifecycle events, unless a caller's own event uses such a name. */
  lemma KindAppended(op: Op, stamp: Time)
    requires IsTransition(op) || IsEventOnly(op)
    ensures KindOf(Stamped(EventOf(op), stamp).dataType) ==
            match op
            case ClaimItem(_, _, _) => Claimed
            case ReleaseItem(_, _) => Released
            case CloseItem(_, _, _) => Closed
            case AddEvent(_, e) => KindOf(e.dataType)
            case _ => Activity
  {
  }

  function StatusAfter(op: Op, status: string): string {
    match op
    case ClaimItem(_, _, _) => CLAIMED
    case ReleaseItem(_, _) => OPEN
    case CloseItem(_, _, _) => CLOSED
    case _ => status
  }

  function TagsAfter(op: Op, tags: TagSet): TagSet {
    match op
    case ClaimItem(_, actor, _) => Merge(With(tags, STATUS, CLAIMED), {Tag(ASSIGNEE, actor)})
    case ReleaseItem(_, _) => With(Without(tags, ASSIGNEE), STATUS, OPEN)
    case CloseItem(_, _, _) => With(tags, STATUS, CLOSED)
    case _ => tags
  }

  /** The snapshot after the operation's in-memory changes: what is written and returned. */
  function After(op: Op, item: Item, stamp: Time): Item
    requires IsTransition(op) || IsEventOnly(op)
  {
    item.(doc := item.doc.(status := StatusAfter(op, item.doc.status),
                           events := item.doc.events + [Stamped(EventOf(op), stamp)]),
          tags := TagsAfter(op, item.tags))
  }

  /** The payload a Create stores: a packed one takes precedence over a message. */
  function PayloadOf(meta: Meta): (string, Option<string>) {
    if meta.payloadAny.Some? then (meta.payloadTypeName, meta.payloadAny)
    else if meta.payload.Some? then (meta.payload.value.name, Some(meta.payload.value.blob))
    else ("", None)
  }

  function NewDoc(actor: string, meta: Meta, now: Time): Doc {
    var (payloadType, payload) := PayloadOf(meta);
    Doc(meta.idempotencyKey, meta.title, meta.description, OPEN, meta.deadline, payloadType, payload,
        [NewEvent(actor, "", ItemCreated(payloadType)).(at := Some(now))])
  }

  function NewItem(op: Op, now: Time): Item
    requires op.CreateItem?
  {
    Item(op.id, NewDoc(op.actor, op.meta, now), With(op.meta.tags, STATUS, OPEN), now, now)
  }

  // ---- one step: one atomic store call ----

  /** Where a call stands between its store calls. */
  datatype Thread =
    | Idle
    | Adding                               // Reassign, about to add the new assignee tag
    | Reading                              // about to fetch the item for an event
    | Writing(snapshot: Item, readAt: Time)
    | Done(outcome: Outcome)

  /**
   * Which call steps, the store's clock at the step, the time the caller stamped its event
   * with, and whether the store call fails without effect.
   */
  datatype Label = Label(call: nat, now: Time, stamp: Time, fault: bool)

  /** Tag and Untag drop the result of the event they append. */
  function Settle(op: Op, outcome: Outcome): Thread {
    if op.TagItem? || op.UntagItem? then Done(Changed) else Done(outcome)
  }

  /** GetEntity, the entity type test, and the status test of the operation. */
  function Fetch(op: Op, slot: Option<Entity>, l: Label): Thread {
    if l.fault || !IsInboxSlot(slot) then Settle(op, Failed(NotFound))
    else
      var item := ItemOf(op.id, slot.value);
      match Check(op, item.doc.status)
      case Some(error) => Done(Failed(error))
      case None => if op.GetItem? then Done(Returned(item)) else Writing(item, l.now)
  }

  /** BatchWrite of an update: the document always, the tags only for a transition, never the tokens. */
  function Update(op: Op, snapshot: Item, slot: Option<Entity>, l: Label): (Thread, Option<Entity>)
    requires IsTransition(op) || IsEventOnly(op)
  {
    if l.fault || slot.None? then (Settle(op, Failed(Other)), slot)
    else
      var item := After(op, snapshot, l.stamp);
      var e := slot.value.(doc := item.doc, updatedAt := l.now);
      (Settle(op, Returned(item)), Some(if IsTransition(op) then e.(tags := item.tags) else e))
  }

  /** BatchWrite of a create; an id already in use is refused. */
  function Insert(op: Op, slot: Option<Entity>, l: Label): (Thread, Option<Entity>)
    requires op.CreateItem?
  {
    if l.fault || slot.Some? then (Done(Failed(Other)), slot)
    else
      var item := NewItem(op, l.stamp);
      (Done(Returned(item)),
       Some(Entity(ENTITY_TYPE, item.doc, item.tags,
                   Tokenizer.TokenMap(op.meta.title, op.meta.description), l.now, l.now)))
  }

  /** Reassign ignores the outcome of both tag changes, but not a refused tag value. */
  function Reassign(op: Op, fromDone: bool, slot: Option<Entity>, l: Label): (Thread, Option<Entity>)
    requires op.ReassignItem?
  {
    if !fromDone && op.fromActor != "" then
      if !op.fromOk then (Done(Failed(Other)), slot)
      else (if op.toActor != "" then Adding else Reading, if l.fault then slot else Untagged(slot, {Tag(ASSIGNEE, op.fromActor)}))
    else if op.toActor != "" then
      if !op.toOk then (Done(Failed(Other)), slot)
      else (Reading, if l.fault then slot else Tagged(slot, {Tag(ASSIGNEE, op.toActor)}))
    else (Fetch(op, slot, l), slot)
  }

  function Start(op: Op, slot: Option<Entity>, l: Label): (Thread, Option<Entity>) {
    match op
    case CreateItem(_, _, _) => Insert(op, slot, l)
    case ClaimItem(_, _, ok) => if !ok then (Done(Failed(Other)), slot) else (Fetch(op, slot, l), slot)
    case ReassignItem(_, _, _, _, _, _, _) => Reassign(op, false, slot, l)
    case TagItem(_, _, added) =>
      if l.fault || slot.None? then (Done(Failed(Other)), slot) else (Reading, Tagged(slot, ToSet(added)))
    case UntagItem(_, _, removed) =>
      if l.fault || slot.None? then (Done(Failed(Other)), slot) else (Reading, Untagged(slot, {removed}))
    case _ => (Fetch(op, slot, l), slot)
  }

  /** One step of one call on the slot of its own item; no step looks at any other item. */
  function Step(op: Op, th: Thread, slot: Option<Entity>, l: Label): (Thread, Option<Entity>) {
    match th
    case Idle => Start(op, slot, l)
    case Adding => if op.ReassignItem? then Reassign(op, true, slot, l) else (th, slot)
    case Reading => if IsEventOnly(op) then (Fetch(op, slot, l), slot) else (th, slot)
    case Writing(item, _) => if IsTransition(op) || IsEventOnly(op) then Update(op, item, slot, l) else (th, slot)
    case Done(_) => (th, slot)
  }

  // ---- runs ----

  datatype State = State(store: Store, threads: seq<Thread>)

  function Init(calls: seq<Op>, store: Store): State {
    State(store, seq(|calls|, _ => Idle))
  }

  /** Every label names one of the calls. */
  predicate Runs(calls: seq<Op>, labels: seq<Label>) {
    forall l | l in labels :: l.call < |calls|
  }

  function Exec(calls: seq<Op>, s: State, l: Label): (s': State)
    requires |s.threads| == |calls| && l.call < |calls|
    ensures |s'.threads| == |calls|
  {
    var op := calls[l.call];
    var (th, slot) := Step(op, s.threads[l.call], Lookup(s.store, op.id), l);
    State(Put(s.store, op.id, slot), s.threads[l.call := th])
  }

  /** The state after the first n labels. */
  function At(calls: seq<Op>, store: Store, labels: seq<Label>, n: nat): (s: State)
    requires n <= |labels| && Runs(calls, labels)
    ensures |s.threads| == |calls|
  {
    if n == 0 then Init(calls, store) else Exec(calls, At(calls, store, labels, n - 1), labels[n - 1])
  }

  function Final(calls: seq<Op>, store: Store, labels: seq<Label>): State
    requires Runs(calls, labels)
  {
    At(calls, store, labels, |labels|)
  }

  /** The item a label works on. */
  function Target(calls: seq<Op>, l: Label): Id
    requires l.call < |calls|
  {
    calls[l.call].id
  }

  /** Between two steps of one call on x no other call on x steps. */
  predicate NoOverlapOn(calls: seq<Op>, labels: seq<Label>, x: Id)
    requires Runs(calls, labels)
  {
    forall i, j, k | 0 <= i < j < k < |labels| ::
      labels[i].call == labels[k].call && Target(calls, labels[k]) == x && Target(calls, labels[j]) == x ==>
        labels[j].call == labels[k].call
  }

  // ---- locality and shape of a step ----

  /** A step touches its own thread and the slot of its own item; an entity is never removed. */
  lemma ExecIsLocal(calls: seq<Op>, s: State, l: Label)
    requires |s.threads| == |calls| && l.call < |calls|
    ensures var s' := Exec(calls, s, l);
            && (forall i | 0 <= i < |calls| && i != l.call :: s'.threads[i] == s.threads[i])
            && (forall x | x != Target(calls, l) :: Lookup(s'.store, x) == Lookup(s.store, x))
            && var r := Step(calls[l.call], s.threads[l.call], Lookup(s.store, Target(calls, l)), l);
               s'.threads[l.call] == r.0 && Lookup(s'.store, Target(calls, l)) == r.1
  {
    StepKeepsEntity(calls[l.call], s.threads[l.call], Lookup(s.store, Target(calls, l)), l);
  }

  lemma StepKeepsEntity(op: Op, th: Thread, slot: Option<Entity>, l: Label)
    ensures slot.Some? ==> Step(op, th, slot, l).1.Some?
  {
  }

  /**
   * The shape every step has, whatever the operation: a document changes only in a write that
   * follows a snapshot, and a snapshot is taken of the slot as it stands.
   */
  lemma StepShape(op: Op, th: Thread, slot: Option<Entity>, l: Label)
    ensures var (th', slot') := Step(op, th, slot, l);
      && (th'.Writing? && th' != th ==>
            && IsInboxSlot(slot) && slot' == slot && !th.Writing?
            && th' == Writing(ItemOf(op.id, slot.value), l.now)
            && Check(op, slot.value.doc.status) == None
            && (IsTransition(op) || IsEventOnly(op)))
      && (slot.Some? ==> slot'.Some?)
      && (slot.None? && slot'.Some? ==> th.Idle? && op.CreateItem? && !l.fault && (th', slot') == Insert(op, slot, l))
      && (slot.Some? && slot'.value.doc != slot.value.doc ==>
            && th.Writing? && !l.fault && (IsTransition(op) || IsEventOnly(op))
            && (th', slot') == Update(op, th.snapshot, slot, l))
      && (th.Writing? && (IsTransition(op) || IsEventOnly(op)) ==> (th', slot') == Update(op, th.snapshot, slot, l))
      && (th.Writing? && (IsTransition(op) || IsEventOnly(op)) ==> th'.Done?)
  {
  }

  // ---- calls run alone ----

  /** Store calls left at most. */
  function Rank(th: Thread): nat {
    match th
    case Idle => 4
    case Adding => 3
    case Reading => 2
    case Writing(_, _) => 1
    case Done(_) => 0
  }

  /** Threads the programs can reach: no operation waits in a place that is not its own. */
  predicate InProgram(op: Op, th: Thread) {
    && (th.Adding? ==> op.ReassignItem? && op.toActor != "")
    && (th.Reading? ==> IsEventOnly(op))
    && (th.Writing? ==> IsTransition(op) || IsEventOnly(op))
  }

  lemma StepStaysInProgram(op: Op, th: Thread, slot: Option<Entity>, l: Label)
    requires InProgram(op, th)
    ensures InProgram(op, Step(op, th, slot, l).0)
    ensures th.Done? ==> Step(op, th, slot, l) == (th, slot)
    ensures !th.Done? ==> Rank(Step(op, th, slot, l).0) < Rank(th)
  {
  }

  /** One call driven through the given labels with nothing else in between. */
  function Drive(op: Op, th: Thread, slot: Option<Entity>, labels: seq<Label>): (Thread, Option<Entity>)
    decreases |labels|
  {
    if labels == [] then (th, slot)
    else
      var (th', slot') := Step(op, th, slot, labels[0]);
      Drive(op, th', slot', labels[1..])
  }

  /** Whatever fails on the way, a call is over after at most as many store calls as it has left. */
  lemma {:induction false} DriveEnds(op: Op, th: Thread, slot: Option<Entity>, labels: seq<Label>)
    requires InProgram(op, th) && |labels| >= Rank(th)
    ensures Drive(op, th, slot, labels).0.Done?
    decreases |labels|
  {
    if labels != [] {
      var (th', slot') := Step(op, th, slot, labels[0]);
      StepStaysInProgram(op, th, slot, labels[0]);
      DriveEnds(op, th', slot', labels[1..]);
    }
  }

  /** Stores that answer every lookup alike are the same. */
  lemma SameStore(a: Store, b: Store)
    requires forall x :: Lookup(a, x) == Lookup(b, x)
    ensures a == b
  {
    forall x: Id ensures x in a <==> x in b {
      assert Lookup(a, x) == Lookup(b, x);
    }
    forall x | x in a ensures a[x] == b[x] {
      assert Lookup(a, x) == Lookup(b, x);
    }
  }
}
