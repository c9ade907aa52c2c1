/**
 * What every interleaving keeps, even when operations on one item overlap and lose updates:
 * documents agree with their own logs, content never changes, the search index agrees with
 * the text, and logs are sorted by time.
 */
module Safety {
  import opened Types
  import opened Lifecycle
  import opened Protocol
  import Tokenizer

  // ---- documents agree with their logs ----

  /** Callers' own events on x stay off the four lifecycle type names. */
  predicate OwnEventsArePlain(calls: seq<Op>, x: Id) {
    forall op | op in calls && op.AddEvent? && op.id == x :: KindOf(op.event.dataType) == Activity
  }

  predicate SlotConsistent(slot: Option<Entity>) {
    IsInboxSlot(slot) ==> Consistent(slot.value.doc)
  }

  /** A snapshot about to be written is consistent and passed the operation's status test. */
  predicate ThreadConsistent(op: Op, th: Thread) {
    && (th.Writing? ==> Consistent(th.snapshot.doc) && Check(op, th.snapshot.doc.status) == None)
    && (th.Done? && th.outcome.Returned? ==> Consistent(th.outcome.item.doc))
  }

  /** An operation that passed its status test leaves a consistent document consistent. */
  lemma AfterIsConsistent(op: Op, item: Item, stamp: Time)
    requires IsTransition(op) || IsEventOnly(op)
    requires op.AddEvent? ==> KindOf(op.event.dataType) == Activity
    requires Consistent(item.doc) && Check(op, item.doc.status) == None
    ensures Consistent(After(op, item, stamp).doc)
  {
    KindAppended(op, stamp);
    var e := Stamped(EventOf(op), stamp);
    ReplaySnoc(item.doc.events, e);
    assert Check(op, item.doc.status) == None ==>
        ReplayStep(Live(item.doc.status), KindOf(e.dataType)) == Live(StatusAfter(op, item.doc.status));
  }

  /** The step writes an AddEvent whose event uses a lifecycle type name. */
  predicate Forges(op: Op, th: Thread, l: Label) {
    th.Writing? && !l.fault && op.AddEvent? && KindOf(op.event.dataType) != Activity
  }

  /** A write keeps what it leaves and returns consistent exactly when it does not forge a lifecycle event. */
  lemma UpdateKeepsConsistentIff(op: Op, th: Thread, slot: Option<Entity>, l: Label)
    requires th.Writing? && (IsTransition(op) || IsEventOnly(op)) && slot.Some?
    requires ThreadConsistent(op, th) && SlotConsistent(slot)
    ensures var (th', slot') := Update(op, th.snapshot, slot, l);
      ThreadConsistent(op, th') && SlotConsistent(slot') <==> !Forges(op, th, l)
  {
    hide TagsAfter, EventOf;
    if op.AddEvent? {
      KindAppended(op, l.stamp);
      AppendKeepsConsistentIff(th.snapshot.doc, Stamped(EventOf(op), l.stamp));
      assert After(op, th.snapshot, l.stamp).doc ==
             th.snapshot.doc.(events := th.snapshot.doc.events + [Stamped(EventOf(op), l.stamp)]);
    } else {
      AfterIsConsistent(op, th.snapshot, l.stamp);
    }
  }

  lemma StepKeepsConsistentIff(op: Op, th: Thread, slot: Option<Entity>, l: Label)
    requires InProgram(op, th) && ThreadConsistent(op, th) && SlotConsistent(slot) && (th.Writing? ==> slot.Some?)
    ensures var (th', slot') := Step(op, th, slot, l);
      ThreadConsistent(op, th') && SlotConsistent(slot') <==> !Forges(op, th, l)
  {
    if th.Writing? {
      UpdateKeepsConsistentIff(op, th, slot, l);
    } else if th.Idle? && op.CreateItem? {
      ReplaySnoc([], NewItem(op, l.stamp).doc.events[0]);
      assert [] + NewItem(op, l.stamp).doc.events == NewItem(op, l.stamp).doc.events;
    } else {
      hide Consistent;
    }
  }

  /** The document of x, the snapshots of it and the items returned of it all replay to their statuses. */
  ghost predicate ConsistentOn(calls: seq<Op>, s: State, x: Id)
    requires |s.threads| == |calls|
  {
    && SlotConsistent(Lookup(s.store, x))
    && forall i | 0 <= i < |calls| && calls[i].id == x :: ThreadConsistent(calls[i], s.threads[i])
  }

  /** Label m writes a forged event to x. */
  predicate ForgedAt(calls: seq<Op>, store: Store, labels: seq<Label>, m: nat, x: Id)
    requires m < |labels| && Runs(calls, labels)
  {
    Target(calls, labels[m]) == x && Forges(calls[labels[m].call], At(calls, store, labels, m).threads[labels[m].call], labels[m])
  }

  lemma LabelKeepsConsistentIff(calls: seq<Op>, store: Store, labels: seq<Label>, n: nat, x: Id)
    requires n < |labels| && Runs(calls, labels) && ConsistentOn(calls, At(calls, store, labels, n), x)
    ensures ConsistentOn(calls, At(calls, store, labels, n + 1), x) <==> !ForgedAt(calls, store, labels, n, x)
  {
    hide Exec, Step, ThreadConsistent, SlotConsistent, Forges;
    var s, l := At(calls, store, labels, n), labels[n];
    SnapshotsMatch(calls, store, labels, n);
    ExecIsLocal(calls, s, l);
    if Target(calls, l) == x {
      StepKeepsConsistentIff(calls[l.call], s.threads[l.call], Lookup(s.store, x), l);
    }
  }

  /**
   * In every interleaving, whatever overlaps, every stored document's status is the replay of its own
   * log, so every lifecycle event in that log was legal where it stands; and the same holds of every
   * snapshot and every item returned: all the way exactly when no AddEvent wrote an event with a
   * lifecycle type name.
   */
  lemma {:induction false} DocumentsAgreeIff(calls: seq<Op>, store: Store, labels: seq<Label>, n: nat, x: Id)
    requires n <= |labels| && Runs(calls, labels) && SlotConsistent(Lookup(store, x))
    ensures (forall k | 0 <= k <= n :: ConsistentOn(calls, At(calls, store, labels, k), x)) <==>
            (forall m | 0 <= m < n :: !ForgedAt(calls, store, labels, m, x))
  {
    hide Exec, ForgedAt;
    if n == 0 {
      assert ConsistentOn(calls, At(calls, store, labels, 0), x);
    } else {
      hide At, ConsistentOn;
      DocumentsAgreeIff(calls, store, labels, n - 1, x);
      if forall m | 0 <= m < n - 1 :: !ForgedAt(calls, store, labels, m, x) {
        LabelKeepsConsistentIff(calls, store, labels, n - 1, x);
      }
    }
  }

  /** So with plain events of their own, callers cannot make a document of x disagree with its log. */
  lemma DocumentsAgreeWithTheirLogs(calls: seq<Op>, store: Store, labels: seq<Label>, n: nat, x: Id)
    requires n <= |labels| && Runs(calls, labels)
    requires OwnEventsArePlain(calls, x) && SlotConsistent(Lookup(store, x))
    ensures ConsistentOn(calls, At(calls, store, labels, n), x)
  {
    hide Exec, ConsistentOn;
    DocumentsAgreeIff(calls, store, labels, n, x);
  }

  /** From an empty store, what the counts say about any stored item, whatever interleaved. */
  lemma EveryLogIsConserved(calls: seq<Op>, labels: seq<Label>, n: nat, x: Id)
    requires n <= |labels| && Runs(calls, labels) && OwnEventsArePlain(calls, x)
    requires IsInboxSlot(Lookup(At(calls, map[], labels, n).store, x))
    ensures var doc := At(calls, map[], labels, n).store[x].doc;
      && Conserved(doc.events)
      && doc.status == CountedStatus(doc.events)
      && Count(doc.events, Closed) <= 1
  {
    DocumentsAgreeWithTheirLogs(calls, map[], labels, n, x);
    LegalIffConserved(At(calls, map[], labels, n).store[x].doc.events);
  }

  // ---- content never changes ----

  /** Everything an item keeps from its creation. */
  datatype Content = Content(
    idempotencyKey: string, title: Text, description: Text, deadline: Option<Time>,
    payloadType: string, payload: Option<string>)

  function ContentOf(doc: Doc): Content {
    Content(doc.idempotencyKey, doc.title, doc.description, doc.deadline, doc.payloadType, doc.payload)
  }

  /** What a Create was asked to store. */
  function ContentOfMeta(meta: Meta): Content {
    var (payloadType, payload) := PayloadOf(meta);
    Content(meta.idempotencyKey, meta.title, meta.description, meta.deadline, payloadType, payload)
  }

  predicate SameContent(e: Entity, e': Entity) {
    && e.entityType == e'.entityType && e.createdAt == e'.createdAt
    && e.tokens == e'.tokens && ContentOf(e.doc) == ContentOf(e'.doc)
  }

  /** What was stored is still stored, with the same content. */
  predicate Kept(slot: Option<Entity>, slot': Option<Entity>) {
    slot.Some? ==> slot'.Some? && SameContent(slot.value, slot'.value)
  }

  /** The slot still holds what the thread's snapshot, or the item its Create returned, holds. */
  predicate ThreadMatches(op: Op, th: Thread, slot: Option<Entity>) {
    && (th.Writing? ==> slot.Some? && ContentOf(slot.value.doc) == ContentOf(th.snapshot.doc))
    && (th.Done? && th.outcome.Returned? ==>
          slot.Some? && ContentOf(slot.value.doc) == ContentOf(th.outcome.item.doc))
    && (th.Done? && th.outcome.Returned? && op.CreateItem? ==>
          && ContentOf(slot.value.doc) == ContentOfMeta(op.meta)
          && slot.value.tokens == Tokenizer.TokenMap(op.meta.title, op.meta.description))
  }

  predicate SlotIndexed(slot: Option<Entity>) {
    IsInboxSlot(slot) ==>
      slot.value.tokens == Tokenizer.TokenMap(slot.value.doc.title, slot.value.doc.description)
  }

  /** What a step must do to a thread and a slot for content to stay. */
  predicate KeepsContent(op: Op, slot: Option<Entity>, r: (Thread, Option<Entity>)) {
    ThreadMatches(op, r.0, r.1) && Kept(slot, r.1) && (SlotIndexed(slot) ==> SlotIndexed(r.1))
  }

  lemma UpdateKeepsContent(op: Op, snapshot: Item, slot: Option<Entity>, l: Label)
    requires IsTransition(op) || IsEventOnly(op)
    requires slot.Some? && ContentOf(slot.value.doc) == ContentOf(snapshot.doc)
    ensures KeepsContent(op, slot, Update(op, snapshot, slot, l))
  {
    assert ContentOf(After(op, snapshot, l.stamp).doc) == ContentOf(snapshot.doc);
  }

  lemma InsertKeepsContent(op: Op, slot: Option<Entity>, l: Label)
    requires op.CreateItem?
    ensures KeepsContent(op, slot, Insert(op, slot, l))
  {
  }

  /** A fetch leaves the slot and takes its content along; so does a step that changes tags alone. */
  lemma FetchKeepsContent(op: Op, slot: Option<Entity>, l: Label)
    requires !op.CreateItem?
    ensures KeepsContent(op, slot, (Fetch(op, slot, l), slot))
  {
  }

  lemma RetagKeepsContent(op: Op, slot: Option<Entity>, slot': Option<Entity>, th': Thread)
    requires slot' == slot || (slot.Some? && slot'.Some? && slot'.value == slot.value.(tags := slot'.value.tags))
    requires !th'.Writing? && (th'.Done? ==> th'.outcome.Failed?)
    ensures KeepsContent(op, slot, (th', slot'))
  {
  }

  lemma StepKeepsContent(op: Op, th: Thread, slot: Option<Entity>, l: Label)
    requires InProgram(op, th) && ThreadMatches(op, th, slot)
    ensures InProgram(op, Step(op, th, slot, l).0) && KeepsContent(op, slot, Step(op, th, slot, l))
  {
    var (th', slot') := Step(op, th, slot, l);
    StepStaysInProgram(op, th, slot, l);
    if !th.Done? {
      hide KeepsContent;
      if th.Writing? {
        UpdateKeepsContent(op, th.snapshot, slot, l);
      } else if op.CreateItem? {
        InsertKeepsContent(op, slot, l);
      } else if (th', slot') == (Fetch(op, slot, l), slot) {
        FetchKeepsContent(op, slot, l);
      } else {
        RetagKeepsContent(op, slot, slot', th');
      }
    }
  }

  predicate StateMatches(calls: seq<Op>, s: State)
    requires |s.threads| == |calls|
  {
    forall i | 0 <= i < |calls| ::
      InProgram(calls[i], s.threads[i]) && ThreadMatches(calls[i], s.threads[i], Lookup(s.store, calls[i].id))
  }

  lemma ExecKeepsContent(calls: seq<Op>, s: State, l: Label)
    requires |s.threads| == |calls| && l.call < |calls| && StateMatches(calls, s)
    ensures StateMatches(calls, Exec(calls, s, l))
    ensures forall x :: Kept(Lookup(s.store, x), Lookup(Exec(calls, s, l).store, x))
    ensures forall x :: SlotIndexed(Lookup(s.store, x)) ==> SlotIndexed(Lookup(Exec(calls, s, l).store, x))
  {
    ExecIsLocal(calls, s, l);
    StepKeepsContent(calls[l.call], s.threads[l.call], Lookup(s.store, Target(calls, l)), l);
  }

  lemma {:induction false} SnapshotsMatch(calls: seq<Op>, store: Store, labels: seq<Label>, n: nat)
    requires n <= |labels| && Runs(calls, labels)
    ensures StateMatches(calls, At(calls, store, labels, n))
  {
    hide Exec;
    if n > 0 {
      SnapshotsMatch(calls, store, labels, n - 1);
      ExecKeepsContent(calls, At(calls, store, labels, n - 1), labels[n - 1]);
    }
  }

  /**
   * Whatever operations interleave and whichever updates are lost, an item once stored keeps its
   * title, description, deadline, payload, payload type, idempotency key, tokens and creation time.
   */
  lemma {:induction false} ContentNeverChanges(calls: seq<Op>, store: Store, labels: seq<Label>, m: nat, n: nat, x: Id)
    requires m <= n <= |labels| && Runs(calls, labels)
    ensures Kept(Lookup(At(calls, store, labels, m).store, x), Lookup(At(calls, store, labels, n).store, x))
    decreases n
  {
    hide Exec;
    if m < n {
      ContentNeverChanges(calls, store, labels, m, n - 1, x);
      SnapshotsMatch(calls, store, labels, n - 1);
      ExecKeepsContent(calls, At(calls, store, labels, n - 1), labels[n - 1]);
    }
  }

  /** A successful Create's item stays, forever, what the Create was asked to store. */
  lemma CreatedContentStays(calls: seq<Op>, store: Store, labels: seq<Label>, n: nat, i: nat)
    requires n <= |labels| && Runs(calls, labels)
    requires i < |calls| && calls[i].CreateItem?
    requires var th := At(calls, store, labels, n).threads[i]; th.Done? && th.outcome.Returned?
    ensures var s, op := At(calls, store, labels, n), calls[i];
      && op.id in s.store
      && ContentOf(s.store[op.id].doc) == ContentOfMeta(op.meta)
      && s.store[op.id].tokens == Tokenizer.TokenMap(op.meta.title, op.meta.description)
  {
    SnapshotsMatch(calls, store, labels, n);
  }

  // ---- the search index agrees with the text ----

  /** The stored tokens are those of the stored title and description, in every interleaving. */
  lemma {:induction false} IndexAgreesWithText(calls: seq<Op>, store: Store, labels: seq<Label>, n: nat, x: Id)
    requires n <= |labels| && Runs(calls, labels)
    requires SlotIndexed(Lookup(store, x))
    ensures SlotIndexed(Lookup(At(calls, store, labels, n).store, x))
  {
    hide Exec;
    if n > 0 {
      IndexAgreesWithText(calls, store, labels, n - 1, x);
      SnapshotsMatch(calls, store, labels, n - 1);
      ExecKeepsContent(calls, At(calls, store, labels, n - 1), labels[n - 1]);
    }
  }

  /** Any query cut from a stored title at word boundaries asks only for tokens stored under it. */
  lemma CutTitleIsIndexed(calls: seq<Op>, labels: seq<Label>, n: nat, x: Id, from: nat, till: nat, t: Text)
    requires n <= |labels| && Runs(calls, labels)
    requires IsInboxSlot(Lookup(At(calls, map[], labels, n).store, x))
    requires var title := At(calls, map[], labels, n).store[x].doc.title;
      && from <= till <= |title| && Tokenizer.IsBoundary(title, from) && Tokenizer.IsBoundary(title, till)
      && t in Tokenizer.Tokens(title[from..till])
    ensures var e := At(calls, map[], labels, n).store[x];
      "title" in e.tokens && t in e.tokens["title"]
  {
    IndexAgreesWithText(calls, map[], labels, n, x);
    var title := At(calls, map[], labels, n).store[x].doc.title;
    Tokenizer.CutYieldsOnlyStoredTokens(title, from, till);
  }

  // ---- logs are sorted by time ----

  /** Every event is stamped, in order, no later than `bound`. */
  predicate SortedUpTo(log: seq<Event>, bound: Time) {
    && (forall i | 0 <= i < |log| :: log[i].at.Some? && log[i].at.value <= bound)
    && (forall i, j | 0 <= i < j < |log| :: log[i].at.value <= log[j].at.value)
  }

  /** The service never presets the time of an event; the Go API lets a caller do so. */
  predicate NoPresetTimes(calls: seq<Op>, x: Id) {
    forall op | op in calls && op.AddEvent? && op.id == x :: op.event.at == None
  }

  /** The clock never goes back, and an event is stamped after its call's read and before its write. */
  ghost predicate OnTime(calls: seq<Op>, store: Store, labels: seq<Label>, start: Time)
    requires Runs(calls, labels)
  {
    forall n: nat | n < |labels| :: OnTimeStep(calls, store, labels, start, n)
  }

  predicate OnTimeStep(calls: seq<Op>, store: Store, labels: seq<Label>, start: Time, n: nat)
    requires n < |labels| && Runs(calls, labels)
  {
    && Clock(labels, start, n) <= labels[n].now
    && labels[n].stamp <= labels[n].now
    && var th := At(calls, store, labels, n).threads[labels[n].call];
       th.Writing? ==> th.readAt <= labels[n].stamp
  }

  /** The clock after n labels. */
  function Clock(labels: seq<Label>, start: Time, n: nat): Time
    requires n <= |labels|
  {
    if n == 0 then start else labels[n - 1].now
  }

  predicate SlotSorted(slot: Option<Entity>, clock: Time) {
    IsInboxSlot(slot) ==> SortedUpTo(slot.value.doc.events, clock)
  }

  predicate ThreadSorted(th: Thread, clock: Time) {
    th.Writing? ==> th.readAt <= clock && SortedUpTo(th.snapshot.doc.events, th.readAt)
  }

  /** What an event's time must be to go last: not before the last event, and not in the future. */
  predicate InOrder(log: seq<Event>, at: Time, now: Time) {
    (log == [] || (log[|log| - 1].at.Some? && log[|log| - 1].at.value <= at)) && at <= now
  }

  /** A sorted log stays sorted, up to a bound no earlier, exactly when the appended event is in order. */
  lemma AppendKeepsSortedIff(log: seq<Event>, e: Event, bound: Time, now: Time)
    requires SortedUpTo(log, bound) && bound <= now && e.at.Some?
    ensures SortedUpTo(log + [e], now) <==> InOrder(log, e.at.value, now)
  {
    var longer := log + [e];
    assert longer[|log|] == e;
    if SortedUpTo(longer, now) && log != [] {
      assert longer[|log| - 1] == log[|log| - 1];
    }
  }

  /** The step writes an AddEvent whose preset time is out of order. */
  predicate Misplaces(op: Op, th: Thread, l: Label) {
    && th.Writing? && !l.fault && op.AddEvent? && op.event.at.Some?
    && !InOrder(th.snapshot.doc.events, op.event.at.value, l.now)
  }

  /** A write keeps the log sorted exactly when it does not misplace its event. */
  lemma UpdateKeepsSortedIff(op: Op, th: Thread, slot: Option<Entity>, l: Label)
    requires th.Writing? && (IsTransition(op) || IsEventOnly(op)) && IsInboxSlot(slot)
    requires SortedUpTo(th.snapshot.doc.events, th.readAt) && th.readAt <= l.stamp <= l.now && SlotSorted(slot, l.now)
    ensures SlotSorted(Update(op, th.snapshot, slot, l).1, l.now) <==> !Misplaces(op, th, l)
  {
    hide SortedUpTo, TagsAfter;
    var log, e := th.snapshot.doc.events, Stamped(EventOf(op), l.stamp);
    assert After(op, th.snapshot, l.stamp).doc.events == log + [e];
    AppendKeepsSortedIff(log, e, th.readAt, l.now);
    assert op.AddEvent? || EventOf(op).at == None;
    LastInOrder(log, th.readAt, l.stamp, l.now);
  }

  /** An event stamped at or after the snapshot was read is in order. */
  lemma LastInOrder(log: seq<Event>, readAt: Time, stamp: Time, now: Time)
    requires SortedUpTo(log, readAt) && readAt <= stamp <= now
    ensures InOrder(log, stamp, now)
  {
  }

  lemma SortedLater(log: seq<Event>, bound: Time, later: Time)
    requires SortedUpTo(log, bound) && bound <= later
    ensures SortedUpTo(log, later)
  {
  }

  lemma StepKeepsSortedIff(op: Op, th: Thread, slot: Option<Entity>, l: Label, clock: Time)
    requires InProgram(op, th) && ThreadSorted(th, clock) && SlotSorted(slot, clock)
    requires th.Writing? ==> IsInboxSlot(slot) && th.readAt <= l.stamp
    requires clock <= l.now && l.stamp <= l.now
    ensures var (th', slot') := Step(op, th, slot, l);
      ThreadSorted(th', l.now) && SlotSorted(slot', l.now) <==> !Misplaces(op, th, l)
  {
    hide SortedUpTo;
    StepStaysInProgram(op, th, slot, l);
    StepShape(op, th, slot, l);
    if IsInboxSlot(slot) {
      SortedLater(slot.value.doc.events, clock, l.now);
    }
    if th.Writing? {
      UpdateKeepsSortedIff(op, th, slot, l);
    } else if slot.None? && op.CreateItem? {
      var e := NewItem(op, l.stamp).doc.events[0];
      assert NewItem(op, l.stamp).doc.events == [] + [e] && e.at == Some(l.stamp);
      EmptyIsSorted(l.stamp);
      AppendKeepsSortedIff([], e, l.stamp, l.now);
    }
  }

  lemma EmptyIsSorted(bound: Time)
    ensures SortedUpTo([], bound)
  {
  }

  /** The log of x and every snapshot of it are sorted and lie in the past. */
  ghost predicate SortedOn(calls: seq<Op>, s: State, clock: Time, x: Id)
    requires |s.threads| == |calls|
  {
    && SlotSorted(Lookup(s.store, x), clock)
    && (forall i | 0 <= i < |calls| && calls[i].id == x :: ThreadSorted(s.threads[i], clock))
  }

  lemma StepHoldsInbox(op: Op, th: Thread, slot: Option<Entity>, l: Label)
    requires InProgram(op, th) && (th.Writing? ==> IsInboxSlot(slot))
    ensures Step(op, th, slot, l).0.Writing? ==> IsInboxSlot(Step(op, th, slot, l).1)
  {
    StepShape(op, th, slot, l);
  }

  /** A call that holds a snapshot took it of an inbox item, and the entity is one still. */
  lemma {:induction false} WritersHoldInbox(calls: seq<Op>, store: Store, labels: seq<Label>, n: nat, i: nat)
    requires n <= |labels| && Runs(calls, labels) && i < |calls|
    ensures At(calls, store, labels, n).threads[i].Writing? ==>
              IsInboxSlot(Lookup(At(calls, store, labels, n).store, calls[i].id))
  {
    hide Exec, Step;
    if n > 0 {
      var s, l, x := At(calls, store, labels, n - 1), labels[n - 1], calls[i].id;
      WritersHoldInbox(calls, store, labels, n - 1, i);
      SnapshotsMatch(calls, store, labels, n - 1);
      ExecIsLocal(calls, s, l);
      ExecKeepsContent(calls, s, l);
      assert Kept(Lookup(s.store, x), Lookup(At(calls, store, labels, n).store, x));
      if l.call == i {
        StepHoldsInbox(calls[i], s.threads[i], Lookup(s.store, x), l);
      }
    }
  }

  /** After n labels the log of x and every snapshot of it are sorted. */
  ghost predicate SortedAfter(calls: seq<Op>, store: Store, labels: seq<Label>, start: Time, n: nat, x: Id)
    requires n <= |labels| && Runs(calls, labels)
  {
    SortedOn(calls, At(calls, store, labels, n), Clock(labels, start, n), x)
  }

  /** Label m writes an event to x whose preset time is out of order. */
  predicate MisplacedAt(calls: seq<Op>, store: Store, labels: seq<Label>, m: nat, x: Id)
    requires m < |labels| && Runs(calls, labels)
  {
    Target(calls, labels[m]) == x && Misplaces(calls[labels[m].call], At(calls, store, labels, m).threads[labels[m].call], labels[m])
  }

  lemma LabelKeepsSortedIff(calls: seq<Op>, store: Store, labels: seq<Label>, start: Time, n: nat, x: Id)
    requires n < |labels| && Runs(calls, labels) && OnTimeStep(calls, store, labels, start, n)
    requires SortedAfter(calls, store, labels, start, n, x)
    ensures SortedAfter(calls, store, labels, start, n + 1, x) <==> !MisplacedAt(calls, store, labels, n, x)
  {
    hide Exec, Step, SortedUpTo, Misplaces;
    var s, l, clock := At(calls, store, labels, n), labels[n], Clock(labels, start, n);
    var s' := At(calls, store, labels, n + 1);
    SnapshotsMatch(calls, store, labels, n);
    WritersHoldInbox(calls, store, labels, n, l.call);
    ExecIsLocal(calls, s, l);
    if Target(calls, l) == x {
      StepKeepsSortedIff(calls[l.call], s.threads[l.call], Lookup(s.store, x), l, clock);
    } else if IsInboxSlot(Lookup(s.store, x)) {
      SortedLater(s.store[x].doc.events, clock, l.now);
    }
  }

  /**
   * In every interleaving, overlapping or not, every stored log and every snapshot of it is sorted by
   * time and lies in the past: all the way exactly when every preset time that was written lay between
   * the last event of the snapshot it was appended to and the store's clock.
   */
  lemma {:induction false} LogsAreSortedIff(calls: seq<Op>, store: Store, labels: seq<Label>, start: Time, n: nat, x: Id)
    requires n <= |labels| && Runs(calls, labels) && OnTime(calls, store, labels, start)
    requires SlotSorted(Lookup(store, x), start)
    ensures (forall k | 0 <= k <= n :: SortedAfter(calls, store, labels, start, k, x)) <==>
            (forall m | 0 <= m < n :: !MisplacedAt(calls, store, labels, m, x))
  {
    hide Exec, MisplacedAt, SortedUpTo;
    if n == 0 {
      assert SortedAfter(calls, store, labels, start, 0, x);
    } else {
      hide SortedAfter, OnTimeStep;
      LogsAreSortedIff(calls, store, labels, start, n - 1, x);
      assert OnTimeStep(calls, store, labels, start, n - 1);
      if forall m | 0 <= m < n - 1 :: !MisplacedAt(calls, store, labels, m, x) {
        LabelKeepsSortedIff(calls, store, labels, start, n - 1, x);
      }
    }
  }

  /** So with times stamped by the service, as it always does, logs are sorted. */
  lemma LogsAreSorted(calls: seq<Op>, store: Store, labels: seq<Label>, start: Time, n: nat, x: Id)
    requires n <= |labels| && Runs(calls, labels) && OnTime(calls, store, labels, start)
    requires NoPresetTimes(calls, x) && SlotSorted(Lookup(store, x), start)
    ensures SortedAfter(calls, store, labels, start, n, x)
  {
    hide Exec, SortedAfter;
    LogsAreSortedIff(calls, store, labels, start, n, x);
  }

  /** A stored item has a log; Create writes the first event and no write shortens a log to nothing. */
  predicate SlotLogged(slot: Option<Entity>) {
    IsInboxSlot(slot) ==> slot.value.doc.events != []
  }

  /** No log is ever empty, whatever the type names in it. */
  lemma {:induction false} LogsAreNeverEmpty(calls: seq<Op>, store: Store, labels: seq<Label>, n: nat, x: Id)
    requires n <= |labels| && Runs(calls, labels) && SlotLogged(Lookup(store, x))
    ensures SlotLogged(Lookup(At(calls, store, labels, n).store, x))
  {
    hide Exec;
    if n > 0 {
      LogsAreNeverEmpty(calls, store, labels, n - 1, x);
      var s, l := At(calls, store, labels, n - 1), labels[n - 1];
      ExecIsLocal(calls, s, l);
      if Target(calls, l) == x {
        StepKeepsLogged(calls[l.call], s.threads[l.call], Lookup(s.store, x), l);
      }
    }
  }

  lemma StepKeepsLogged(op: Op, th: Thread, slot: Option<Entity>, l: Label)
    requires SlotLogged(slot)
    ensures SlotLogged(Step(op, th, slot, l).1)
  {
    StepShape(op, th, slot, l);
  }

  /**
   * With a preset time the log stays sorted, up to the same bound, exactly when that time is neither
   * before the last event nor beyond the bound.
   */
  lemma PresetTimeKeepsSortedIff(log: seq<Event>, e: Event, bound: Time)
    requires SortedUpTo(log, bound) && e.at.Some?
    ensures SortedUpTo(log + [e], bound) <==>
            (log == [] || log[|log| - 1].at.value <= e.at.value) && e.at.value <= bound
  {
    AppendKeepsSortedIff(log, e, bound, bound);
  }
}
