/**
 * The tags callers own: under a key that is neither the status nor the assignee key, what Create was
 * given is what stays, whatever operations interleave and whichever updates are lost.
 */
module Tags {
  import opened Types
  import opened Protocol
  import opened Safety

  /** The two sets have the same tags under the key. */
  ghost predicate SameUnder(a: TagSet, b: TagSet, key: string) {
    forall t: Tag | t.key == key :: t in a <==> t in b
  }

  /** The call tags or untags under the key. */
  predicate Retags(op: Op, key: string) {
    || (op.TagItem? && exists t | t in op.added :: t.key == key)
    || (op.UntagItem? && op.removed.key == key)
  }

  predicate NoneRetags(calls: seq<Op>, x: Id, key: string) {
    forall op | op in calls && op.id == x :: !Retags(op, key)
  }

  /** Snapshots and returned items have the stored tags under the key; so has what a Create was given. */
  ghost predicate ThreadTagsMatch(op: Op, th: Thread, slot: Option<Entity>, key: string) {
    && (th.Writing? ==> slot.Some? && SameUnder(th.snapshot.tags, slot.value.tags, key))
    && (th.Done? && th.outcome.Returned? ==>
          && slot.Some? && SameUnder(th.outcome.item.tags, slot.value.tags, key)
          && (op.CreateItem? ==> SameUnder(op.meta.tags, slot.value.tags, key)))
  }

  ghost predicate SlotTagsStay(slot: Option<Entity>, slot': Option<Entity>, key: string) {
    slot.Some? ==> slot'.Some? && SameUnder(slot.value.tags, slot'.value.tags, key)
  }

  lemma UpdateKeepsTags(op: Op, th: Thread, slot: Option<Entity>, l: Label, key: string)
    requires key != "status" && key != "assignee"
    requires th.Writing? && (IsTransition(op) || IsEventOnly(op)) && ThreadTagsMatch(op, th, slot, key)
    ensures var (th', slot') := Update(op, th.snapshot, slot, l);
      ThreadTagsMatch(op, th', slot', key) && SlotTagsStay(slot, slot', key)
  {
    hide EventOf;
  }

  lemma StepKeepsTags(op: Op, th: Thread, slot: Option<Entity>, l: Label, key: string)
    requires key != "status" && key != "assignee"
    requires InProgram(op, th) && !Retags(op, key) && ThreadTagsMatch(op, th, slot, key)
    ensures var (th', slot') := Step(op, th, slot, l);
      ThreadTagsMatch(op, th', slot', key) && SlotTagsStay(slot, slot', key)
  {
    if th.Writing? {
      UpdateKeepsTags(op, th, slot, l, key);
    }
  }

  ghost predicate TagsMatch(calls: seq<Op>, s: State, x: Id, key: string)
    requires |s.threads| == |calls|
  {
    forall i | 0 <= i < |calls| && calls[i].id == x :: ThreadTagsMatch(calls[i], s.threads[i], Lookup(s.store, x), key)
  }

  lemma LabelKeepsTags(calls: seq<Op>, store: Store, labels: seq<Label>, n: nat, x: Id, key: string)
    requires n < |labels| && Runs(calls, labels)
    requires key != "status" && key != "assignee" && NoneRetags(calls, x, key)
    requires TagsMatch(calls, At(calls, store, labels, n), x, key)
    ensures TagsMatch(calls, At(calls, store, labels, n + 1), x, key)
    ensures SlotTagsStay(Lookup(At(calls, store, labels, n).store, x), Lookup(At(calls, store, labels, n + 1).store, x), key)
  {
    hide Exec, Step;
    var s, l := At(calls, store, labels, n), labels[n];
    SnapshotsMatch(calls, store, labels, n);
    ExecIsLocal(calls, s, l);
    if Target(calls, l) == x {
      StepKeepsTags(calls[l.call], s.threads[l.call], Lookup(s.store, x), l, key);
    }
  }

  lemma {:induction false} TagsAlwaysMatch(calls: seq<Op>, store: Store, labels: seq<Label>, n: nat, x: Id, key: string)
    requires n <= |labels| && Runs(calls, labels)
    requires key != "status" && key != "assignee" && NoneRetags(calls, x, key)
    ensures TagsMatch(calls, At(calls, store, labels, n), x, key)
  {
    hide Exec;
    if n > 0 {
      hide TagsMatch, NoneRetags;
      TagsAlwaysMatch(calls, store, labels, n - 1, x, key);
      LabelKeepsTags(calls, store, labels, n - 1, x, key);
    }
  }

  /**
   * In every interleaving in which no Tag or Untag of the item names the key, the stored tags under
   * it never change: claims, releases, closes, comments and reassignments leave them, overlapping or not.
   */
  lemma {:induction false} CallersTagsStay(calls: seq<Op>, store: Store, labels: seq<Label>, m: nat, n: nat, x: Id, key: string)
    requires m <= n <= |labels| && Runs(calls, labels)
    requires key != "status" && key != "assignee" && NoneRetags(calls, x, key)
    ensures SlotTagsStay(Lookup(At(calls, store, labels, m).store, x), Lookup(At(calls, store, labels, n).store, x), key)
    decreases n
  {
    hide Exec;
    if m < n {
      hide TagsMatch, NoneRetags;
      CallersTagsStay(calls, store, labels, m, n - 1, x, key);
      TagsAlwaysMatch(calls, store, labels, n - 1, x, key);
      LabelKeepsTags(calls, store, labels, n - 1, x, key);
    }
  }

  /**
   * So once Create returned, a tag under such a key is stored exactly when the caller gave it, and is on
   * the item Create returned exactly then too.
   */
  lemma CreatedTagsStay(calls: seq<Op>, store: Store, labels: seq<Label>, n: nat, i: nat, t: Tag)
    requires n <= |labels| && Runs(calls, labels) && i < |calls| && calls[i].CreateItem?
    requires var th := At(calls, store, labels, n).threads[i]; th.Done? && th.outcome.Returned?
    requires t.key != "status" && t.key != "assignee" && NoneRetags(calls, calls[i].id, t.key)
    ensures var s, op := At(calls, store, labels, n), calls[i];
      && op.id in s.store
      && (t in s.store[op.id].tags <==> t in op.meta.tags)
      && (t in s.threads[i].outcome.item.tags <==> t in op.meta.tags)
  {
    hide Exec;
    TagsAlwaysMatch(calls, store, labels, n, calls[i].id, t.key);
    assert ThreadTagsMatch(calls[i], At(calls, store, labels, n).threads[i], Lookup(At(calls, store, labels, n).store, calls[i].id), t.key);
  }
}
