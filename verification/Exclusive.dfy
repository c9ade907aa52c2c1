/**
 * When claims are exclusive. The document is written without comparing anything, so claims that
 * overlap can all succeed; claims of which none is overtaken exclude each other until a release.
 */
module Exclusive {
  import opened Types
  import opened Protocol
  import opened Safety
  import opened Overlap

  predicate Succeeded(th: Thread) {
    th.Done? && th.outcome.Returned?
  }

  // ---- claims of which none is overtaken ----

  /** The later log continues the earlier one and has a release between their last events. */
  ghost predicate ReleasedBetween(earlier: seq<Event>, later: seq<Event>) {
    earlier < later && exists k :: |earlier| <= k < |later| - 1 && KindOf(later[k].dataType) == Released
  }

  /** A fresh write that opens an item that was not open is a release. */
  lemma OpeningIsRelease(op: Op, snapshot: Item, e: Entity, l: Label)
    requires (IsTransition(op) || IsEventOnly(op)) && !l.fault
    requires snapshot.doc == e.doc && Check(op, e.doc.status) == None && e.doc.status != OPEN
    ensures var doc' := Update(op, snapshot, Some(e), l).1.value.doc;
      doc'.status == OPEN ==>
        |doc'.events| == |e.doc.events| + 1 && KindOf(doc'.events[|e.doc.events|].dataType) == Released
  {
    hide TagsAfter, EventOf;
    KindAppended(op, l.stamp);
  }

  /** An item that was claimed and is open again was released in between, by its own log. */
  lemma {:induction false} OpenAgainIsReleased(calls: seq<Op>, store: Store, labels: seq<Label>, m: nat, n: nat, x: Id)
    returns (k: nat)
    requires m <= n <= |labels| && Runs(calls, labels) && NoneOvertaken(calls, store, labels, n, x)
    requires var slot := SlotAt(calls, store, labels, m, x); slot.Some? && slot.value.doc.status == CLAIMED
    requires var slot := SlotAt(calls, store, labels, n, x); slot.Some? && slot.value.doc.status == OPEN
    ensures var log := SlotAt(calls, store, labels, n, x).value.doc.events;
      && SlotAt(calls, store, labels, m, x).value.doc.events <= log
      && |SlotAt(calls, store, labels, m, x).value.doc.events| <= k < |log| && KindOf(log[k].dataType) == Released
    decreases n
  {
    hide Exec, Step, WrittenSince, Update;
    var s, l := At(calls, store, labels, n - 1), labels[n - 1];
    LogIsAppendOnly(calls, store, labels, m, n - 1, x);
    LabelContinues(calls, store, labels, n - 1, x);
    if s.store[x].doc.status == OPEN {
      k := OpenAgainIsReleased(calls, store, labels, m, n - 1, x);
    } else {
      if !DocWrite(calls, store, labels, n - 1, x) {
        OtherStepLeavesDoc(calls, store, labels, n - 1, x);
      }
      WriteIsFresh(calls, store, labels, n - 1, x);
      ExecIsLocal(calls, s, l);
      OpeningIsRelease(calls[l.call], s.threads[l.call].snapshot, s.store[x], l);
      k := |s.store[x].doc.events|;
    }
  }

  /** What a claim's write is: over an open item, the claimed item it returns. */
  lemma ClaimWritesClaimed(op: Op, snapshot: Item, slot: Option<Entity>, l: Label)
    requires op.ClaimItem? && slot.Some? && snapshot.doc == slot.value.doc && Check(op, slot.value.doc.status) == None
    ensures var (th', slot') := Update(op, snapshot, slot, l);
      Succeeded(th') ==>
        && slot.value.doc.status == OPEN
        && slot'.Some? && slot'.value.doc == th'.outcome.item.doc && slot'.value.doc.status == CLAIMED
        && th'.outcome.item.doc.events == slot.value.doc.events + [Stamped(EventOf(op), l.stamp)]
  {
  }

  /** A claim can succeed only by writing. */
  lemma OnlyWritesSucceed(op: Op, th: Thread, slot: Option<Entity>, l: Label)
    requires op.ClaimItem? && InProgram(op, th) && !th.Done?
    ensures Succeeded(Step(op, th, slot, l).0) ==> th.Writing? && !l.fault
  {
  }

  /** The label at which call i wrote its claim. */
  ghost predicate ClaimedAt(calls: seq<Op>, store: Store, labels: seq<Label>, p: nat, i: nat, log: seq<Event>)
    requires p < |labels| && Runs(calls, labels) && i < |calls|
  {
    var slot, slot' := SlotAt(calls, store, labels, p, calls[i].id), SlotAt(calls, store, labels, p + 1, calls[i].id);
    && labels[p].call == i && |log| > 0
    && slot.Some? && slot.value.doc.status == OPEN && slot.value.doc.events == log[..|log| - 1]
    && slot'.Some? && slot'.value.doc.status == CLAIMED && slot'.value.doc.events == log
  }

  /** A claim that succeeded found the item open, and left it claimed with the log it returned. */
  lemma {:induction false} ClaimHasWritten(calls: seq<Op>, store: Store, labels: seq<Label>, n: nat, i: nat) returns (p: nat)
    requires n <= |labels| && Runs(calls, labels) && i < |calls| && calls[i].ClaimItem?
    requires NoneOvertaken(calls, store, labels, n, calls[i].id)
    requires Succeeded(At(calls, store, labels, n).threads[i])
    ensures p < n && ClaimedAt(calls, store, labels, p, i, At(calls, store, labels, n).threads[i].outcome.item.doc.events)
  {
    hide Exec, Step, WrittenSince;
    var s, l, x := At(calls, store, labels, n - 1), labels[n - 1], calls[i].id;
    ExecIsLocal(calls, s, l);
    if s.threads[i].Done? {
      DoneStays(calls[i], s.threads[i], Lookup(s.store, x), l);
      p := ClaimHasWritten(calls, store, labels, n - 1, i);
    } else {
      p := n - 1;
      SnapshotsMatch(calls, store, labels, p);
      OnlyWritesSucceed(calls[i], s.threads[i], Lookup(s.store, x), l);
      WriteIsFresh(calls, store, labels, p, x);
      ClaimWritesClaimed(calls[i], s.threads[i].snapshot, Lookup(s.store, x), l);
    }
  }

  /** The later of two claims. */
  lemma LaterClaimIsReleased(calls: seq<Op>, store: Store, labels: seq<Label>, n: nat, p: nat, q: nat, i: nat, j: nat,
                             a: seq<Event>, b: seq<Event>)
    requires p < q < n <= |labels| && Runs(calls, labels) && i < |calls| && j < |calls| && calls[i].id == calls[j].id
    requires NoneOvertaken(calls, store, labels, n, calls[i].id)
    requires ClaimedAt(calls, store, labels, p, i, a) && ClaimedAt(calls, store, labels, q, j, b)
    ensures ReleasedBetween(a, b)
  {
    hide At, DocWrite, WrittenSince;
    var k := OpenAgainIsReleased(calls, store, labels, p + 1, q, calls[i].id);
    assert b[k] == b[..|b| - 1][k];
  }

  /**
   * From any store, legacy and inconsistent items included, while no write of an item is overtaken, as
   * without overlap on it none is: two claims of it that both succeeded have a release between them.
   * The log one of them returned continues the log the other returned, with an ItemReleased in between.
   */
  lemma ClaimsAreExclusive(calls: seq<Op>, store: Store, labels: seq<Label>, n: nat, i: nat, j: nat)
    requires n <= |labels| && Runs(calls, labels) && i < |calls| && j < |calls| && i != j
    requires calls[i].ClaimItem? && calls[j].ClaimItem? && calls[i].id == calls[j].id
    requires NoneOvertaken(calls, store, labels, n, calls[i].id)
    requires var s := At(calls, store, labels, n); Succeeded(s.threads[i]) && Succeeded(s.threads[j])
    ensures var s := At(calls, store, labels, n);
      var a, b := s.threads[i].outcome.item.doc.events, s.threads[j].outcome.item.doc.events;
      ReleasedBetween(a, b) || ReleasedBetween(b, a)
  {
    hide Exec, DocWrite, WrittenSince, ReleasedBetween;
    var s := At(calls, store, labels, n);
    var a, b := s.threads[i].outcome.item.doc.events, s.threads[j].outcome.item.doc.events;
    var p := ClaimHasWritten(calls, store, labels, n, i);
    var q := ClaimHasWritten(calls, store, labels, n, j);
    if p < q {
      LaterClaimIsReleased(calls, store, labels, n, p, q, i, j, a, b);
    } else {
      LaterClaimIsReleased(calls, store, labels, n, q, p, j, i, b, a);
    }
  }

  // ---- claims of one open item, however they overlap ----

  /** Every call on x is a claim with an accepted actor, and no store call on x fails. */
  predicate OnlyClaimsOn(calls: seq<Op>, labels: seq<Label>, x: Id)
    requires Runs(calls, labels)
  {
    && (forall op | op in calls && op.id == x :: op.ClaimItem? && op.tagOk)
    && (forall l | l in labels && Target(calls, l) == x :: !l.fault)
  }

  /** The document of x has been written. */
  ghost predicate Written(calls: seq<Op>, store: Store, labels: seq<Label>, n: nat, x: Id)
    requires n <= |labels| && Runs(calls, labels)
  {
    exists k: nat :: k < n && DocWrite(calls, store, labels, k, x)
  }

  /** Call i made a store call, its fetch, before the document of its item was first written. */
  ghost predicate FetchedInTime(calls: seq<Op>, store: Store, labels: seq<Label>, n: nat, i: nat)
    requires n <= |labels| && Runs(calls, labels) && i < |calls|
  {
    exists m: nat :: m < n && InTime(calls, store, labels, m, i)
  }

  ghost predicate InTime(calls: seq<Op>, store: Store, labels: seq<Label>, m: nat, i: nat)
    requires m < |labels| && Runs(calls, labels) && i < |calls|
  {
    labels[m].call == i && !Written(calls, store, labels, m, calls[i].id)
  }

  lemma WrittenStep(calls: seq<Op>, store: Store, labels: seq<Label>, n: nat, x: Id)
    requires n < |labels| && Runs(calls, labels)
    ensures Written(calls, store, labels, n + 1, x) <==>
            Written(calls, store, labels, n, x) || DocWrite(calls, store, labels, n, x)
  {
    hide DocWrite;
    if Written(calls, store, labels, n, x) {
      var k: nat :| k < n && DocWrite(calls, store, labels, k, x);
      assert k < n + 1;
    }
    if DocWrite(calls, store, labels, n, x) {
      assert n < n + 1;
    }
  }

  lemma FetchedStep(calls: seq<Op>, store: Store, labels: seq<Label>, n: nat, i: nat)
    requires n < |labels| && Runs(calls, labels) && i < |calls|
    ensures FetchedInTime(calls, store, labels, n + 1, i) <==>
            FetchedInTime(calls, store, labels, n, i) || InTime(calls, store, labels, n, i)
  {
    hide InTime;
    if FetchedInTime(calls, store, labels, n, i) {
      var m: nat :| m < n && InTime(calls, store, labels, m, i);
      assert m < n + 1;
    }
    if InTime(calls, store, labels, n, i) {
      assert n < n + 1;
    }
  }

  /** The item is open until it is first written, then claimed. */
  ghost predicate SlotTells(calls: seq<Op>, store: Store, labels: seq<Label>, n: nat, x: Id)
    requires n <= |labels| && Runs(calls, labels)
  {
    var slot := SlotAt(calls, store, labels, n, x);
    IsInboxSlot(slot) && slot.value.doc.status == if Written(calls, store, labels, n, x) then CLAIMED else OPEN
  }

  /** A claim holds a snapshot or succeeded when it fetched in time, and it is done only after a write. */
  ghost predicate ThreadTells(calls: seq<Op>, store: Store, labels: seq<Label>, n: nat, i: nat)
    requires n <= |labels| && Runs(calls, labels) && i < |calls|
  {
    var th := At(calls, store, labels, n).threads[i];
    && (th.Idle? || th.Writing? || th.Done?)
    && (th.Writing? || Succeeded(th) <==> FetchedInTime(calls, store, labels, n, i))
    && (th.Done? ==> Written(calls, store, labels, n, calls[i].id))
  }

  lemma ClaimFetches(op: Op, slot: Option<Entity>, l: Label)
    requires op.ClaimItem? && op.tagOk && IsInboxSlot(slot) && !l.fault
    ensures var r := Step(op, Idle, slot, l);
      && r.1 == slot
      && (slot.value.doc.status == OPEN ==> r.0.Writing?)
      && (slot.value.doc.status != OPEN ==> r.0.Done? && r.0.outcome.Failed?)
  {
  }

  lemma ClaimWrites(op: Op, th: Thread, slot: Option<Entity>, l: Label)
    requires op.ClaimItem? && th.Writing? && IsInboxSlot(slot) && !l.fault
    ensures var r := Step(op, th, slot, l);
      Succeeded(r.0) && IsInboxSlot(r.1) && r.1.value.doc.status == CLAIMED
  {
  }

  /** A claim's own step. */
  lemma OwnStepTells(calls: seq<Op>, store: Store, labels: seq<Label>, n: nat, i: nat)
    requires n < |labels| && Runs(calls, labels) && i < |calls| && labels[n].call == i
    requires OnlyClaimsOn(calls, labels, calls[i].id)
    requires SlotTells(calls, store, labels, n, calls[i].id) && ThreadTells(calls, store, labels, n, i)
    ensures SlotTells(calls, store, labels, n + 1, calls[i].id) && ThreadTells(calls, store, labels, n + 1, i)
  {
    hide Exec, Step, Written, FetchedInTime;
    var s, l, x := At(calls, store, labels, n), labels[n], calls[i].id;
    var th, slot := s.threads[i], Lookup(s.store, x);
    assert calls[i] in calls && l in labels && Target(calls, l) == x;
    ExecIsLocal(calls, s, l);
    WrittenStep(calls, store, labels, n, x);
    FetchedStep(calls, store, labels, n, i);
    if th.Idle? {
      ClaimFetches(calls[i], slot, l);
    } else if th.Writing? {
      ClaimWrites(calls[i], th, slot, l);
    } else {
      DoneStays(calls[i], th, slot, l);
    }
  }

  /** What a step by another call leaves of a claim and, on another item, of this one. */
  lemma OtherStepTells(calls: seq<Op>, store: Store, labels: seq<Label>, n: nat, i: nat)
    requires n < |labels| && Runs(calls, labels) && i < |calls| && labels[n].call != i
    requires ThreadTells(calls, store, labels, n, i)
    ensures ThreadTells(calls, store, labels, n + 1, i)
    ensures Target(calls, labels[n]) != calls[i].id && SlotTells(calls, store, labels, n, calls[i].id) ==>
              SlotTells(calls, store, labels, n + 1, calls[i].id)
  {
    hide Exec, Step, Written, FetchedInTime;
    ExecIsLocal(calls, At(calls, store, labels, n), labels[n]);
    WrittenStep(calls, store, labels, n, calls[i].id);
    FetchedStep(calls, store, labels, n, i);
  }

  /** The item and its claims keep telling. */
  lemma {:induction false} ClaimsTell(calls: seq<Op>, store: Store, labels: seq<Label>, n: nat, i: nat)
    requires n <= |labels| && Runs(calls, labels) && i < |calls| && OnlyClaimsOn(calls, labels, calls[i].id)
    requires IsInboxSlot(Lookup(store, calls[i].id)) && store[calls[i].id].doc.status == OPEN
    ensures SlotTells(calls, store, labels, n, calls[i].id) && ThreadTells(calls, store, labels, n, i)
    decreases n
  {
    hide Exec, OnlyClaimsOn;
    if n > 0 {
      hide SlotTells, ThreadTells;
      var c := labels[n - 1].call;
      ClaimsTell(calls, store, labels, n - 1, i);
      if c == i {
        OwnStepTells(calls, store, labels, n - 1, i);
      } else {
        OtherStepTells(calls, store, labels, n - 1, i);
        if calls[c].id == calls[i].id {
          ClaimsTell(calls, store, labels, n - 1, c);
          OwnStepTells(calls, store, labels, n - 1, c);
        }
      }
    }
  }

  /**
   * Any number of claims of one open item, overlapping at will and mixed with any calls on other
   * items: a claim that is over succeeded exactly when it fetched before the item was first written.
   */
  lemma ClaimSucceedsIffFetchedInTime(calls: seq<Op>, store: Store, labels: seq<Label>, n: nat, i: nat)
    requires n <= |labels| && Runs(calls, labels) && i < |calls| && OnlyClaimsOn(calls, labels, calls[i].id)
    requires IsInboxSlot(Lookup(store, calls[i].id)) && store[calls[i].id].doc.status == OPEN
    requires At(calls, store, labels, n).threads[i].Done?
    ensures Succeeded(At(calls, store, labels, n).threads[i]) <==> FetchedInTime(calls, store, labels, n, i)
  {
    ClaimsTell(calls, store, labels, n, i);
  }

  // ---- two claims ----

  predicate TwoClaims(calls: seq<Op>, x: Id) {
    |calls| == 2 && forall i | 0 <= i < 2 :: calls[i].ClaimItem? && calls[i].tagOk && calls[i].id == x
  }

  /** Two store calls, a fetch and a write, for each of two calls, none of which fails. */
  predicate TwoEach(labels: seq<Label>) {
    && |labels| == 4
    && (forall l | l in labels :: l.call < 2 && !l.fault)
    && (labels[0].call + labels[1].call + labels[2].call + labels[3].call == 2)
  }

  /** They overlap exactly when both fetch before either writes. */
  lemma OverlapIffBothFetchFirst(calls: seq<Op>, x: Id, labels: seq<Label>)
    requires TwoClaims(calls, x) && Runs(calls, labels) && TwoEach(labels)
    ensures NoOverlapOn(calls, labels, x) <==> labels[0].call == labels[1].call
  {
    assert forall k | 0 <= k < 4 :: labels[k] in labels;
    if labels[0].call != labels[1].call {
      var k := if labels[2].call == labels[0].call then 2 else 3;
      assert labels[0].call == labels[k].call && Target(calls, labels[k]) == x && Target(calls, labels[1]) == x;
    }
  }

  /** A claim is over after two steps of its own. */
  lemma TwoStepsEnd(calls: seq<Op>, store: Store, labels: seq<Label>, p: nat, q: nat, n: nat, i: nat)
    requires p < q < n <= |labels| && Runs(calls, labels) && i < |calls| && OnlyClaimsOn(calls, labels, calls[i].id)
    requires labels[p].call == labels[q].call == i
    requires IsInboxSlot(Lookup(store, calls[i].id)) && store[calls[i].id].doc.status == OPEN
    ensures At(calls, store, labels, n).threads[i].Done?
  {
    hide Exec, Step, FetchedInTime, Written;
    var x := calls[i].id;
    assert calls[i] in calls;
    ClaimsTell(calls, store, labels, p, i);
    SnapshotsMatch(calls, store, labels, p);
    ExecIsLocal(calls, At(calls, store, labels, p), labels[p]);
    LeavesIdle(calls[i], At(calls, store, labels, p).threads[i], SlotAt(calls, store, labels, p, x), labels[p]);
    HeldUntilDone(calls, store, labels, p + 1, q, i);
    SnapshotsMatch(calls, store, labels, q);
    ExecIsLocal(calls, At(calls, store, labels, q), labels[q]);
    HeldThenDone(calls[i], At(calls, store, labels, q).threads[i], SlotAt(calls, store, labels, q, x), labels[q]);
    DoneUntil(calls, store, labels, q + 1, n, i);
  }

  lemma LeavesIdle(op: Op, th: Thread, slot: Option<Entity>, l: Label)
    requires op.ClaimItem? && InProgram(op, th)
    ensures var th' := Step(op, th, slot, l).0; th'.Writing? || th'.Done?
  {
  }

  lemma {:induction false} DoneUntil(calls: seq<Op>, store: Store, labels: seq<Label>, m: nat, n: nat, i: nat)
    requires m <= n <= |labels| && Runs(calls, labels) && i < |calls| && At(calls, store, labels, m).threads[i].Done?
    ensures At(calls, store, labels, n).threads[i].Done?
    decreases n
  {
    hide Exec, Step;
    if m < n {
      DoneUntil(calls, store, labels, m, n - 1, i);
      var s, l := At(calls, store, labels, n - 1), labels[n - 1];
      ExecIsLocal(calls, s, l);
      if l.call == i {
        DoneStays(calls[i], s.threads[i], Lookup(s.store, calls[i].id), l);
      }
    }
  }

  /**
   * Two claims of one open item, in every order of their store calls: both succeed exactly when they
   * overlap.
   */
  lemma BothClaimsSucceedIffTheyOverlap(store: Store, x: Id, first: string, second: string, labels: seq<Label>)
    requires IsInboxSlot(Lookup(store, x)) && store[x].doc.status == OPEN && TwoEach(labels)
    ensures var calls := [ClaimItem(x, first, true), ClaimItem(x, second, true)];
      Runs(calls, labels) &&
      var s := Final(calls, store, labels);
      (Succeeded(s.threads[0]) && Succeeded(s.threads[1]) <==> !NoOverlapOn(calls, labels, x))
  {
    var calls := [ClaimItem(x, first, true), ClaimItem(x, second, true)];
    assert forall l | l in labels :: l.call < |calls|;
    OverlapIffBothFetchFirst(calls, x, labels);
    BothSucceedIff(calls, store, x, labels);
  }

  lemma BothSucceedIff(calls: seq<Op>, store: Store, x: Id, labels: seq<Label>)
    requires IsInboxSlot(Lookup(store, x)) && store[x].doc.status == OPEN
    requires TwoClaims(calls, x) && Runs(calls, labels) && TwoEach(labels)
    ensures var s := Final(calls, store, labels);
      Succeeded(s.threads[0]) && Succeeded(s.threads[1]) <==> labels[0].call != labels[1].call
  {
    hide Exec;
    assert forall k | 0 <= k < 4 :: labels[k] in labels;
    var c, d := labels[0].call, 1 - labels[0].call;
    forall i: nat | i < 2 ensures At(calls, store, labels, 4).threads[i].Done? {
      var p, q := StepsOf(labels, i);
      TwoStepsEnd(calls, store, labels, p, q, 4, i);
    }
    hide At;
    ClaimSucceedsIffFetchedInTime(calls, store, labels, 4, c);
    ClaimSucceedsIffFetchedInTime(calls, store, labels, 4, d);
    FirstFetchIsInTime(calls, store, labels, x);
  }

  /** The places of the two labels of a call. */
  lemma StepsOf(labels: seq<Label>, i: nat) returns (p: nat, q: nat)
    requires TwoEach(labels) && i < 2
    ensures p < q < 4 && labels[p].call == labels[q].call == i
  {
    assert forall k | 0 <= k < 4 :: labels[k] in labels;
    p := if labels[0].call == i then 0 else if labels[1].call == i then 1 else 2;
    q := if labels[3].call == i then 3 else if labels[2].call == i then 2 else 1;
  }

  /** The call that steps first fetches in time; the other does when it steps second. */
  lemma FirstFetchIsInTime(calls: seq<Op>, store: Store, labels: seq<Label>, x: Id)
    requires IsInboxSlot(Lookup(store, x)) && store[x].doc.status == OPEN
    requires TwoClaims(calls, x) && Runs(calls, labels) && TwoEach(labels) && OnlyClaimsOn(calls, labels, x)
    ensures var c, d := labels[0].call, 1 - labels[0].call;
      && 0 <= c < 2
      && FetchedInTime(calls, store, labels, 4, c)
      && (FetchedInTime(calls, store, labels, 4, d) <==> labels[1].call == d)
  {
    hide Exec;
    assert forall k | 0 <= k < 4 :: labels[k] in labels;
    var c, d := labels[0].call, 1 - labels[0].call;
    assert !Written(calls, store, labels, 0, x) && At(calls, store, labels, 0).threads[c].Idle?;
    WrittenStep(calls, store, labels, 0, x);
    assert InTime(calls, store, labels, 0, c);
    if labels[1].call == d {
      assert InTime(calls, store, labels, 1, d);
    } else {
      ClaimsTell(calls, store, labels, 1, c);
      FetchedStep(calls, store, labels, 0, c);
      assert DocWrite(calls, store, labels, 1, x);
      forall m: nat | m < 4 ensures !InTime(calls, store, labels, m, d) {
        if m >= 2 {
          assert Written(calls, store, labels, m, x);
        }
      }
    }
  }

  /** So overlapping claims are not exclusive: fetch, fetch, write, write. */
  lemma OverlappingClaimsBothSucceed(e: Entity, first: string, second: string, now: Time)
    requires e.entityType == ENTITY_TYPE && e.doc.status == OPEN
    ensures var calls := [ClaimItem("x", first, true), ClaimItem("x", second, true)];
      var labels := [Label(0, now, now, false), Label(1, now, now, false), Label(0, now, now, false), Label(1, now, now, false)];
      var s := Final(calls, map["x" := e], labels);
      forall i | 0 <= i < 2 :: Succeeded(s.threads[i])
  {
    var labels := [Label(0, now, now, false), Label(1, now, now, false), Label(0, now, now, false), Label(1, now, now, false)];
    BothSucceedIff([ClaimItem("x", first, true), ClaimItem("x", second, true)], map["x" := e], "x", labels);
  }
}
