/**
 * When a write loses something, and what is kept while none does: the log is append-only, a terminal
 * status is final, and nothing acknowledged is lost. Calls that do not overlap lose nothing.
 */
module Overlap {
  import opened Types
  import opened Protocol
  import opened Safety

  /** The call that stepped last on x among the first n labels. */
  function LastOn(calls: seq<Op>, labels: seq<Label>, n: nat, x: Id): Option<nat>
    requires n <= |labels| && Runs(calls, labels)
  {
    if n == 0 then None
    else if Target(calls, labels[n - 1]) == x then Some(labels[n - 1].call)
    else LastOn(calls, labels, n - 1, x)
  }

  /** A call that has left Idle has stepped. */
  lemma {:induction false} StartedHasStepped(calls: seq<Op>, store: Store, labels: seq<Label>, n: nat, i: nat) returns (j: nat)
    requires n <= |labels| && Runs(calls, labels) && i < |calls|
    requires !At(calls, store, labels, n).threads[i].Idle?
    ensures j < n && labels[j].call == i
  {
    hide Exec;
    if labels[n - 1].call == i {
      j := n - 1;
    } else {
      ExecIsLocal(calls, At(calls, store, labels, n - 1), labels[n - 1]);
      j := StartedHasStepped(calls, store, labels, n - 1, i);
    }
  }

  // ---- the last call's snapshot is the stored item ----

  predicate SnapshotIsStored(th: Thread, slot: Option<Entity>) {
    th.Writing? ==> slot.Some? && th.snapshot.doc == slot.value.doc && th.snapshot.tags == slot.value.tags
  }

  ghost predicate LastIsFresh(calls: seq<Op>, store: Store, labels: seq<Label>, n: nat, x: Id)
    requires n <= |labels| && Runs(calls, labels)
  {
    var s, last := At(calls, store, labels, n), LastOn(calls, labels, n, x);
    last.Some? && last.value < |calls| ==> SnapshotIsStored(s.threads[last.value], Lookup(s.store, x))
  }

  lemma StepLeavesFresh(op: Op, th: Thread, slot: Option<Entity>, l: Label)
    requires InProgram(op, th)
    ensures SnapshotIsStored(Step(op, th, slot, l).0, Step(op, th, slot, l).1)
  {
    StepShape(op, th, slot, l);
  }

  lemma {:induction false} LastStaysFresh(calls: seq<Op>, store: Store, labels: seq<Label>, n: nat, x: Id)
    requires n <= |labels| && Runs(calls, labels)
    ensures LastIsFresh(calls, store, labels, n, x)
  {
    hide Exec, Step, InProgram, NoOverlapOn;
    if n > 0 {
      LastStaysFresh(calls, store, labels, n - 1, x);
      SnapshotsMatch(calls, store, labels, n - 1);
      var s, l := At(calls, store, labels, n - 1), labels[n - 1];
      ExecIsLocal(calls, s, l);
      assert InProgram(calls[l.call], s.threads[l.call]);
      if Target(calls, l) == x {
        StepLeavesFresh(calls[l.call], s.threads[l.call], Lookup(s.store, x), l);
      } else {
        LastWorksOn(calls, labels, n - 1, x);
      }
    }
  }

  lemma {:induction false} LastWorksOn(calls: seq<Op>, labels: seq<Label>, n: nat, x: Id)
    requires n <= |labels| && Runs(calls, labels)
    ensures var last := LastOn(calls, labels, n, x);
      last.Some? ==> last.value < |calls| && calls[last.value].id == x
  {
    if n > 0 && Target(calls, labels[n - 1]) != x {
      LastWorksOn(calls, labels, n - 1, x);
    }
  }

  // ---- what a write can lose ----

  /** The later slot's log continues the earlier one, and a terminal status has not moved. */
  predicate Continues(slot: Option<Entity>, slot': Option<Entity>) {
    slot.Some? ==>
      && slot'.Some?
      && slot.value.doc.events <= slot'.value.doc.events
      && (IsTerminal(slot.value.doc.status) ==> slot'.value.doc.status == slot.value.doc.status)
  }

  lemma ContinuesTransitively(a: Option<Entity>, b: Option<Entity>, c: Option<Entity>)
    requires Continues(a, b) && Continues(b, c)
    ensures Continues(a, c)
  {
  }

  /** The slot of x after n labels. */
  function SlotAt(calls: seq<Op>, store: Store, labels: seq<Label>, n: nat, x: Id): Option<Entity>
    requires n <= |labels| && Runs(calls, labels)
  {
    Lookup(At(calls, store, labels, n).store, x)
  }

  /** A snapshot about to be written passed the operation's status test. */
  predicate Checked(op: Op, th: Thread) {
    th.Writing? ==> Check(op, th.snapshot.doc.status) == None
  }

  lemma StepStaysChecked(op: Op, th: Thread, slot: Option<Entity>, l: Label)
    requires InProgram(op, th) && Checked(op, th)
    ensures Checked(op, Step(op, th, slot, l).0)
  {
    StepShape(op, th, slot, l);
  }

  ghost predicate AllChecked(calls: seq<Op>, s: State)
    requires |s.threads| == |calls|
  {
    forall i | 0 <= i < |calls| :: Checked(calls[i], s.threads[i])
  }

  lemma {:induction false} SnapshotsAreChecked(calls: seq<Op>, store: Store, labels: seq<Label>, n: nat)
    requires n <= |labels| && Runs(calls, labels)
    ensures AllChecked(calls, At(calls, store, labels, n))
  {
    hide Exec;
    if n > 0 {
      SnapshotsAreChecked(calls, store, labels, n - 1);
      SnapshotsMatch(calls, store, labels, n - 1);
      var s, l := At(calls, store, labels, n - 1), labels[n - 1];
      ExecIsLocal(calls, s, l);
      StepStaysChecked(calls[l.call], s.threads[l.call], Lookup(s.store, Target(calls, l)), l);
    }
  }

  // ---- exactly when a write loses something ----

  /**
   * A write continues the slot it replaces exactly when the stored log is no longer than what the
   * snapshot had, or is the written log itself, and a terminal status is the one it leaves.
   */
  lemma WriteContinuesIff(op: Op, snapshot: Item, e: Entity, l: Label)
    requires (IsTransition(op) || IsEventOnly(op)) && !l.fault
    ensures Continues(Some(e), Update(op, snapshot, Some(e), l).1) <==>
            && (e.doc.events <= snapshot.doc.events || Repeats(op, snapshot, e, l))
            && (IsTerminal(e.doc.status) ==> StatusAfter(op, snapshot.doc.status) == e.doc.status)
  {
    var written := After(op, snapshot, l.stamp).doc.events;
    if e.doc.events <= written && |e.doc.events| <= |snapshot.doc.events| {
      assert e.doc.events == written[..|e.doc.events|] == snapshot.doc.events[..|e.doc.events|];
    }
  }

  /** The stored log is already the one that is about to be written, its last event included. */
  predicate Repeats(op: Op, snapshot: Item, e: Entity, l: Label)
    requires IsTransition(op) || IsEventOnly(op)
  {
    e.doc.events == snapshot.doc.events + [Stamped(EventOf(op), l.stamp)]
  }

  /** Label m writes the document of x. */
  predicate DocWrite(calls: seq<Op>, store: Store, labels: seq<Label>, m: nat, x: Id)
    requires m < |labels| && Runs(calls, labels)
  {
    !labels[m].fault && Target(calls, labels[m]) == x && At(calls, store, labels, m).threads[labels[m].call].Writing?
  }

  /** Another call wrote the item of call i while i held its snapshot. */
  ghost predicate WrittenSince(calls: seq<Op>, store: Store, labels: seq<Label>, i: nat, n: nat)
    requires n <= |labels| && Runs(calls, labels) && i < |calls|
  {
    exists m: nat :: m < n && WrittenAt(calls, store, labels, i, m)
  }

  predicate WrittenAt(calls: seq<Op>, store: Store, labels: seq<Label>, i: nat, m: nat)
    requires m < |labels| && Runs(calls, labels) && i < |calls|
  {
    labels[m].call != i && DocWrite(calls, store, labels, m, calls[i].id) && At(calls, store, labels, m).threads[i].Writing?
  }

  /** No write of x among the first n labels was overtaken by another. */
  ghost predicate NoneOvertaken(calls: seq<Op>, store: Store, labels: seq<Label>, n: nat, x: Id)
    requires n <= |labels| && Runs(calls, labels)
  {
    forall m: nat | m < n && DocWrite(calls, store, labels, m, x) :: !WrittenSince(calls, store, labels, labels[m].call, m)
  }

  /** What a held snapshot is to the stored item: equal to it, or shorter when somebody wrote since. */
  ghost predicate SnapshotBehind(calls: seq<Op>, store: Store, labels: seq<Label>, i: nat, n: nat)
    requires n <= |labels| && Runs(calls, labels) && i < |calls|
  {
    var s := At(calls, store, labels, n);
    s.threads[i].Writing? ==>
      && calls[i].id in s.store
      && var log, stored := s.threads[i].snapshot.doc, s.store[calls[i].id].doc;
         if WrittenSince(calls, store, labels, i, n) then |log.events| < |stored.events| else log == stored
  }

  /** The document after one step, seen by a call that holds a snapshot of it. */
  lemma StepLengthens(op: Op, th: Thread, slot: Option<Entity>, l: Label)
    requires InProgram(op, th) && slot.Some?
    requires th.Writing? && !l.fault ==> th.snapshot.doc == slot.value.doc
    ensures var (th', slot') := Step(op, th, slot, l);
      && slot'.Some?
      && |slot'.value.doc.events| == |slot.value.doc.events| + (if th.Writing? && !l.fault then 1 else 0)
      && (!(th.Writing? && !l.fault) ==> slot'.value.doc == slot.value.doc)
  {
    StepShape(op, th, slot, l);
  }

  lemma StepTakesSnapshot(op: Op, th: Thread, slot: Option<Entity>, l: Label)
    requires InProgram(op, th)
    ensures var (th', slot') := Step(op, th, slot, l);
      th'.Writing? ==> !th.Writing? && slot'.Some? && th'.snapshot.doc == slot'.value.doc
  {
    StepShape(op, th, slot, l);
  }

  lemma HeldThenDone(op: Op, th: Thread, slot: Option<Entity>, l: Label)
    requires InProgram(op, th) && (th.Writing? || th.Done?)
    ensures Step(op, th, slot, l).0.Done?
  {
  }

  /** A snapshot once held is held until its call is done. */
  lemma {:induction false} HeldUntilDone(calls: seq<Op>, store: Store, labels: seq<Label>, m: nat, n: nat, i: nat)
    requires m <= n <= |labels| && Runs(calls, labels) && i < |calls|
    requires var th := At(calls, store, labels, m).threads[i]; th.Writing? || th.Done?
    ensures var th := At(calls, store, labels, n).threads[i]; th.Writing? || th.Done?
    decreases n
  {
    hide Exec;
    if m < n {
      HeldUntilDone(calls, store, labels, m, n - 1, i);
      SnapshotsMatch(calls, store, labels, n - 1);
      var s, l := At(calls, store, labels, n - 1), labels[n - 1];
      ExecIsLocal(calls, s, l);
      if l.call == i {
        HeldThenDone(calls[i], s.threads[i], Lookup(s.store, calls[i].id), l);
      }
    }
  }

  /** A call that just took its snapshot has seen nobody write since. */
  lemma FreshlyRead(calls: seq<Op>, store: Store, labels: seq<Label>, n: nat, i: nat)
    requires n < |labels| && Runs(calls, labels) && i < |calls| && labels[n].call == i
    requires At(calls, store, labels, n + 1).threads[i].Writing?
    ensures !WrittenSince(calls, store, labels, i, n + 1)
  {
    hide Exec, Step;
    var s := At(calls, store, labels, n);
    SnapshotsMatch(calls, store, labels, n);
    ExecIsLocal(calls, s, labels[n]);
    forall m: nat | m < n + 1 ensures !WrittenAt(calls, store, labels, i, m) {
      if m < n && At(calls, store, labels, m).threads[i].Writing? {
        HeldUntilDone(calls, store, labels, m, n, i);
        HeldThenDone(calls[i], s.threads[i], Lookup(s.store, calls[i].id), labels[n]);
      }
    }
  }

  /** A step of another call on the item, under a snapshot: it lengthens the stored log if it is a write. */
  lemma OthersLengthen(calls: seq<Op>, store: Store, labels: seq<Label>, n: nat, i: nat)
    requires n < |labels| && Runs(calls, labels) && i < |calls| && labels[n].call != i
    requires Target(calls, labels[n]) == calls[i].id && NoneOvertaken(calls, store, labels, n + 1, calls[i].id)
    requires SnapshotBehind(calls, store, labels, labels[n].call, n) && StateMatches(calls, At(calls, store, labels, n))
    requires var th := At(calls, store, labels, n).threads[i]; th.Writing?
    ensures var (s, s', x) := (At(calls, store, labels, n), At(calls, store, labels, n + 1), calls[i].id);
      && s'.threads[i] == s.threads[i] && x in s.store && x in s'.store
      && if WrittenAt(calls, store, labels, i, n) then |s'.store[x].doc.events| == |s.store[x].doc.events| + 1
         else s'.store[x].doc == s.store[x].doc
  {
    hide Exec, Step, WrittenSince;
    var s, l, x := At(calls, store, labels, n), labels[n], calls[i].id;
    ExecIsLocal(calls, s, l);
    assert InProgram(calls[i], s.threads[i]) && ThreadMatches(calls[i], s.threads[i], Lookup(s.store, x));
    assert DocWrite(calls, store, labels, n, x) ==> !WrittenSince(calls, store, labels, l.call, n);
    StepLengthens(calls[l.call], s.threads[l.call], Lookup(s.store, x), l);
  }

  /** Its own step either takes the snapshot or leaves the call without one. */
  lemma OwnStepIsFresh(calls: seq<Op>, store: Store, labels: seq<Label>, n: nat, i: nat)
    requires n < |labels| && Runs(calls, labels) && i < |calls| && labels[n].call == i
    ensures SnapshotBehind(calls, store, labels, i, n + 1)
  {
    hide Exec, Step, WrittenSince;
    var s, l := At(calls, store, labels, n), labels[n];
    SnapshotsMatch(calls, store, labels, n);
    ExecIsLocal(calls, s, l);
    StepTakesSnapshot(calls[i], s.threads[i], Lookup(s.store, calls[i].id), l);
    if At(calls, store, labels, n + 1).threads[i].Writing? {
      FreshlyRead(calls, store, labels, n, i);
    }
  }

  /** Another call's step makes a snapshot fall behind if it writes the item, and else leaves it. */
  lemma OthersStepFallsBehind(calls: seq<Op>, store: Store, labels: seq<Label>, n: nat, i: nat)
    requires n < |labels| && Runs(calls, labels) && i < |calls| && labels[n].call != i
    requires NoneOvertaken(calls, store, labels, n + 1, calls[i].id)
    requires SnapshotBehind(calls, store, labels, i, n)
    requires Target(calls, labels[n]) == calls[i].id ==> SnapshotBehind(calls, store, labels, labels[n].call, n)
    ensures SnapshotBehind(calls, store, labels, i, n + 1)
  {
    hide Exec, Step, WrittenSince, NoneOvertaken;
    var s, l := At(calls, store, labels, n), labels[n];
    SnapshotsMatch(calls, store, labels, n);
    ExecIsLocal(calls, s, l);
    SinceStep(calls, store, labels, i, n);
    if Target(calls, l) == calls[i].id && s.threads[i].Writing? {
      OthersLengthen(calls, store, labels, n, i);
    }
  }

  /** While no write of an item has been overtaken, every snapshot of it is as current as its call knows. */
  lemma {:induction false} SnapshotsFallBehind(calls: seq<Op>, store: Store, labels: seq<Label>, n: nat, i: nat)
    requires n <= |labels| && Runs(calls, labels) && i < |calls|
    requires NoneOvertaken(calls, store, labels, n, calls[i].id)
    ensures SnapshotBehind(calls, store, labels, i, n)
    decreases n
  {
    hide Exec, DocWrite, WrittenSince;
    if n > 0 {
      hide SnapshotBehind;
      var l := labels[n - 1];
      if l.call == i {
        OwnStepIsFresh(calls, store, labels, n - 1, i);
      } else {
        SnapshotsFallBehind(calls, store, labels, n - 1, i);
        if Target(calls, l) == calls[i].id {
          SnapshotsFallBehind(calls, store, labels, n - 1, l.call);
        }
        OthersStepFallsBehind(calls, store, labels, n - 1, i);
      }
    }
  }

  /** One more label, and whether a call has been written under. */
  lemma SinceStep(calls: seq<Op>, store: Store, labels: seq<Label>, i: nat, n: nat)
    requires n < |labels| && Runs(calls, labels) && i < |calls|
    ensures WrittenSince(calls, store, labels, i, n + 1) <==>
            WrittenSince(calls, store, labels, i, n) || WrittenAt(calls, store, labels, i, n)
  {
    hide WrittenAt;
    if WrittenSince(calls, store, labels, i, n) {
      var m: nat :| m < n && WrittenAt(calls, store, labels, i, m);
      assert m < n + 1;
    }
    if WrittenAt(calls, store, labels, i, n) {
      assert n < n + 1;
    }
  }

  /**
   * In any run, take a write of an item before which no write of it was overtaken. It continues the
   * log and the terminal status exactly when no other call wrote the item since its snapshot, unless
   * the one that did appended the very event it is about to append.
   */
  lemma OvertakenWriteLosesIff(calls: seq<Op>, store: Store, labels: seq<Label>, n: nat, x: Id)
    requires n < |labels| && Runs(calls, labels)
    requires DocWrite(calls, store, labels, n, x) && NoneOvertaken(calls, store, labels, n, x)
    ensures x in At(calls, store, labels, n).store
    ensures var (i, s) := (labels[n].call, At(calls, store, labels, n));
      var (op, snapshot, e) := (calls[i], s.threads[i].snapshot, s.store[x]);
      && (IsTransition(op) || IsEventOnly(op))
      && (Continues(SlotAt(calls, store, labels, n, x), SlotAt(calls, store, labels, n + 1, x)) <==>
            || !WrittenSince(calls, store, labels, i, n)
            || (Repeats(op, snapshot, e, labels[n])
                && (IsTerminal(e.doc.status) ==> StatusAfter(op, snapshot.doc.status) == e.doc.status)))
  {
    hide Exec, Continues, Repeats;
    var s, l := At(calls, store, labels, n), labels[n];
    var op, th := calls[l.call], s.threads[l.call];
    SnapshotsMatch(calls, store, labels, n);
    SnapshotsAreChecked(calls, store, labels, n);
    SnapshotsFallBehind(calls, store, labels, n, l.call);
    ExecIsLocal(calls, s, l);
    StepShape(op, th, Lookup(s.store, x), l);
    WriteContinuesIff(op, th.snapshot, s.store[x], l);
    if !WrittenSince(calls, store, labels, l.call, n) {
      CheckedKeepsTerminal(op, th.snapshot.doc.status);
    }
  }

  lemma CheckedKeepsTerminal(op: Op, status: string)
    requires Check(op, status) == None
    ensures IsTerminal(status) ==> StatusAfter(op, status) == status
  {
  }

  // ---- append-only log, final status ----

  /** A write that is not overtaken writes over the very document its snapshot holds. */
  lemma WriteIsFresh(calls: seq<Op>, store: Store, labels: seq<Label>, n: nat, x: Id)
    requires n < |labels| && Runs(calls, labels)
    requires DocWrite(calls, store, labels, n, x) && NoneOvertaken(calls, store, labels, n + 1, x)
    ensures var (l, s) := (labels[n], At(calls, store, labels, n));
      var (op, th, slot) := (calls[l.call], s.threads[l.call], Lookup(s.store, x));
      && (IsTransition(op) || IsEventOnly(op)) && slot.Some?
      && th.snapshot.doc == slot.value.doc && Check(op, slot.value.doc.status) == None
      && Step(op, th, slot, l) == Update(op, th.snapshot, slot, l)
  {
    hide Exec, WrittenSince;
    var s, l := At(calls, store, labels, n), labels[n];
    SnapshotsMatch(calls, store, labels, n);
    SnapshotsAreChecked(calls, store, labels, n);
    SnapshotsFallBehind(calls, store, labels, n, l.call);
    StepShape(calls[l.call], s.threads[l.call], Lookup(s.store, x), l);
  }

  /** A step that is no write of the document leaves it. */
  lemma OtherStepLeavesDoc(calls: seq<Op>, store: Store, labels: seq<Label>, n: nat, x: Id)
    requires n < |labels| && Runs(calls, labels) && !DocWrite(calls, store, labels, n, x)
    ensures var slot, slot' := SlotAt(calls, store, labels, n, x), SlotAt(calls, store, labels, n + 1, x);
      slot.Some? ==> slot'.Some? && slot'.value.doc == slot.value.doc
  {
    hide Exec, Step;
    var s, l := At(calls, store, labels, n), labels[n];
    ExecIsLocal(calls, s, l);
    StepShape(calls[l.call], s.threads[l.call], Lookup(s.store, Target(calls, l)), l);
  }

  lemma LabelContinues(calls: seq<Op>, store: Store, labels: seq<Label>, n: nat, x: Id)
    requires n < |labels| && Runs(calls, labels) && NoneOvertaken(calls, store, labels, n + 1, x)
    ensures Continues(SlotAt(calls, store, labels, n, x), SlotAt(calls, store, labels, n + 1, x))
  {
    hide Exec, WrittenSince;
    if DocWrite(calls, store, labels, n, x) {
      OvertakenWriteLosesIff(calls, store, labels, n, x);
    } else {
      OtherStepLeavesDoc(calls, store, labels, n, x);
    }
  }

  /**
   * While no write of x is overtaken, from any store, legacy statuses included: every earlier log of x
   * is a prefix of every later one, and once terminal its status never changes again.
   */
  lemma {:induction false} LogIsAppendOnly(calls: seq<Op>, store: Store, labels: seq<Label>, m: nat, n: nat, x: Id)
    requires m <= n <= |labels| && Runs(calls, labels) && NoneOvertaken(calls, store, labels, n, x)
    ensures Continues(SlotAt(calls, store, labels, m, x), SlotAt(calls, store, labels, n, x))
    decreases n
  {
    hide Exec;
    if m < n {
      hide Continues, WrittenSince, DocWrite;
      LogIsAppendOnly(calls, store, labels, m, n - 1, x);
      LabelContinues(calls, store, labels, n - 1, x);
      ContinuesTransitively(SlotAt(calls, store, labels, m, x), SlotAt(calls, store, labels, n - 1, x), SlotAt(calls, store, labels, n, x));
    }
  }

  /** What a call returns is, at that moment, the stored document. */
  lemma StepReturnsStored(op: Op, th: Thread, slot: Option<Entity>, l: Label)
    requires InProgram(op, th) && !th.Done? && (th.Writing? ==> slot.Some?)
    ensures var (th', slot') := Step(op, th, slot, l);
      th'.Done? && th'.outcome.Returned? ==> slot'.Some? && th'.outcome.item.doc == slot'.value.doc
  {
  }

  /**
   * While no write of an item is overtaken, every item a call returned is still there: its whole log
   * is in the stored log.
   */
  lemma {:induction false} NothingAcknowledgedIsLost(calls: seq<Op>, store: Store, labels: seq<Label>, n: nat, i: nat)
    requires n <= |labels| && Runs(calls, labels) && i < |calls| && NoneOvertaken(calls, store, labels, n, calls[i].id)
    requires var th := At(calls, store, labels, n).threads[i]; th.Done? && th.outcome.Returned?
    ensures var slot := Lookup(At(calls, store, labels, n).store, calls[i].id);
      slot.Some? && At(calls, store, labels, n).threads[i].outcome.item.doc.events <= slot.value.doc.events
  {
    hide Exec, Step, WrittenSince, DocWrite;
    var s, l := At(calls, store, labels, n - 1), labels[n - 1];
    ExecIsLocal(calls, s, l);
    LabelContinues(calls, store, labels, n - 1, calls[i].id);
    if s.threads[i].Done? {
      DoneStays(calls[i], s.threads[i], Lookup(s.store, calls[i].id), l);
      NothingAcknowledgedIsLost(calls, store, labels, n - 1, i);
    } else {
      assert l.call == i;
      SnapshotsMatch(calls, store, labels, n - 1);
      StepReturnsStored(calls[i], s.threads[i], Lookup(s.store, calls[i].id), l);
    }
  }

  lemma DoneStays(op: Op, th: Thread, slot: Option<Entity>, l: Label)
    requires th.Done?
    ensures Step(op, th, slot, l) == (th, slot)
  {
  }

  /** Without overlap on an item no write of it is overtaken. */
  lemma NoOverlapOvertakesNothing(calls: seq<Op>, store: Store, labels: seq<Label>, n: nat, x: Id)
    requires n <= |labels| && Runs(calls, labels) && NoOverlapOn(calls, labels, x)
    ensures NoneOvertaken(calls, store, labels, n, x)
  {
    hide Exec;
    forall m: nat | m < n && DocWrite(calls, store, labels, m, x)
      ensures !WrittenSince(calls, store, labels, labels[m].call, m)
    {
      var i := labels[m].call;
      forall k: nat | k < m ensures !WrittenAt(calls, store, labels, i, k) {
        if At(calls, store, labels, k).threads[i].Writing? {
          var j := StartedHasStepped(calls, store, labels, k, i);
        }
      }
    }
  }

  // ---- why the condition is there ----

  /** A release that straddles a close reopens the item and drops the close from its log. */
  lemma OverlapReopensClosedItem(e: Entity, holder: string, closer: string, reason: string, now: Time)
    requires e.entityType == ENTITY_TYPE && e.doc.status == CLAIMED
    ensures var calls := [ReleaseItem("x", holder), CloseItem("x", closer, reason)];
      var labels := [Label(0, now, now, false), Label(1, now, now, false), Label(1, now, now, false), Label(0, now, now, false)];
      var before, after := Lookup(At(calls, map["x" := e], labels, 3).store, "x"), Lookup(Final(calls, map["x" := e], labels).store, "x");
      && before.Some? && IsTerminal(before.value.doc.status)
      && after.Some? && after.value.doc.status == OPEN
      && !(before.value.doc.events <= after.value.doc.events)
  {
    var calls := [ReleaseItem("x", holder), CloseItem("x", closer, reason)];
    var l0, l1 := Label(0, now, now, false), Label(1, now, now, false);
    var labels := [l0, l1, l1, l0];
    var store := map["x" := e];
    var item := ItemOf("x", e);
    var s1, s2, s3 := At(calls, store, labels, 1), At(calls, store, labels, 2), At(calls, store, labels, 3);
    assert s1 == Exec(calls, At(calls, store, labels, 0), l0);
    assert s1.threads == [Writing(item, now), Idle] && s1.store == store;
    assert s2 == Exec(calls, s1, l1);
    assert s2.threads == [Writing(item, now), Writing(item, now)] && s2.store == store;
    assert s3 == Exec(calls, s2, l1);
    assert s3.threads[0] == Writing(item, now) && Lookup(s3.store, "x") == Update(calls[1], item, Some(e), l1).1;
    var s4 := At(calls, store, labels, 4);
    assert s4 == Exec(calls, s3, l0);
    assert Lookup(s4.store, "x") == Update(calls[0], item, Lookup(s3.store, "x"), l0).1;
    var k := |e.doc.events|;
    assert Lookup(s3.store, "x").value.doc.events[k].data == ItemClosed(closer, reason);
    assert Lookup(s4.store, "x").value.doc.events[k].data == ItemReleased(holder);
  }
}
