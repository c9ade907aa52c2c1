/**
 * Reduction: an interleaving in which the calls on one item never overlap, while calls on
 * different items mix freely, ends exactly as the run of its calls one after another.
 */
module Reduction {
  import opened Types
  import opened Protocol

  // ---- the labels a predicate picks ----

  function Keep(labels: seq<Label>, p: Label -> bool): (r: seq<Label>)
    ensures |r| <= |labels|
  {
    if labels == [] then []
    else (if p(labels[0]) then [labels[0]] else []) + Keep(labels[1..], p)
  }

  lemma {:induction false} KeepPicks(labels: seq<Label>, p: Label -> bool)
    ensures forall i | 0 <= i < |Keep(labels, p)| :: Keep(labels, p)[i] in labels && p(Keep(labels, p)[i])
    decreases |labels|
  {
    if labels != [] {
      KeepPicks(labels[1..], p);
    }
  }

  lemma KeepCons(l: Label, rest: seq<Label>, p: Label -> bool)
    ensures Keep([l] + rest, p) == (if p(l) then [l] else []) + Keep(rest, p)
  {
    assert ([l] + rest)[1..] == rest;
  }

  lemma {:induction false} KeepAppend(a: seq<Label>, b: seq<Label>, p: Label -> bool)
    ensures Keep(a + b, p) == Keep(a, p) + Keep(b, p)
    decreases |a|
  {
    if a == [] {
      assert a + b == b && Keep(a, p) == [];
      assert [] + Keep(b, p) == Keep(b, p);
    } else {
      var l, rest := a[0], a[1..];
      var head := if p(l) then [l] else [];
      assert a == [l] + rest && a + b == [l] + (rest + b);
      KeepCons(l, rest, p);
      KeepCons(l, rest + b, p);
      KeepAppend(rest, b, p);
      assert head + (Keep(rest, p) + Keep(b, p)) == (head + Keep(rest, p)) + Keep(b, p);
    }
  }

  lemma {:induction false} KeepAll(labels: seq<Label>, p: Label -> bool)
    requires forall l | l in labels :: p(l)
    ensures Keep(labels, p) == labels
    decreases |labels|
  {
    if labels != [] {
      KeepAll(labels[1..], p);
      assert labels == [labels[0]] + labels[1..];
    }
  }

  lemma {:induction false} KeepNone(labels: seq<Label>, p: Label -> bool)
    requires forall l | l in labels :: !p(l)
    ensures Keep(labels, p) == []
    decreases |labels|
  {
    if labels != [] {
      KeepNone(labels[1..], p);
    }
  }

  /** Picking q from what p picked is picking r, when r is their conjunction on these labels. */
  lemma {:induction false} KeepKeep(labels: seq<Label>, p: Label -> bool, q: Label -> bool, r: Label -> bool)
    requires forall l | l in labels :: r(l) <==> p(l) && q(l)
    ensures Keep(Keep(labels, p), q) == Keep(labels, r)
    decreases |labels|
  {
    if labels != [] {
      assert forall l | l in labels[1..] :: l in labels;
      KeepKeep(labels[1..], p, q, r);
      assert labels[0] in labels;
      KeepAppend(if p(labels[0]) then [labels[0]] else [], Keep(labels[1..], p), q);
    }
  }

  function ByCall(i: nat): Label -> bool {
    (l: Label) => l.call == i
  }

  function NotByCall(i: nat): Label -> bool {
    (l: Label) => l.call != i
  }

  function OnItem(calls: seq<Op>, x: Id): Label -> bool {
    (l: Label) => l.call < |calls| && calls[l.call].id == x
  }

  // ---- a run is determined by what each item sees ----

  /** The part of a state that the calls on x see: the slot of x and their own threads. */
  ghost predicate SameOn(calls: seq<Op>, s: State, s': State, x: Id)
    requires |s.threads| == |s'.threads| == |calls|
  {
    && Lookup(s.store, x) == Lookup(s'.store, x)
    && forall i | 0 <= i < |calls| && calls[i].id == x :: s.threads[i] == s'.threads[i]
  }

  /** Steps on other items are invisible on x. */
  lemma ExecElsewhere(calls: seq<Op>, s: State, l: Label, x: Id)
    requires |s.threads| == |calls| && l.call < |calls| && calls[l.call].id != x
    ensures SameOn(calls, Exec(calls, s, l), s, x)
  {
    ExecIsLocal(calls, s, l);
  }

  lemma ExecHere(calls: seq<Op>, s: State, s': State, l: Label, x: Id)
    requires |s.threads| == |s'.threads| == |calls| && l.call < |calls| && calls[l.call].id == x
    requires SameOn(calls, s, s', x)
    ensures SameOn(calls, Exec(calls, s, l), Exec(calls, s', l), x)
  {
    ExecIsLocal(calls, s, l);
    ExecIsLocal(calls, s', l);
  }

  /** One more label at the end of a run. */
  lemma FinalSnoc(calls: seq<Op>, store: Store, labels: seq<Label>, l: Label)
    requires Runs(calls, labels + [l])
    ensures Runs(calls, labels)
    ensures Final(calls, store, labels + [l]) == Exec(calls, Final(calls, store, labels), l)
  {
    assert forall k | k in labels :: k in labels + [l];
    AtPrefix(calls, store, labels, [l], |labels|);
  }

  lemma {:induction false} AtPrefix(calls: seq<Op>, store: Store, labels: seq<Label>, more: seq<Label>, n: nat)
    requires n <= |labels| && Runs(calls, labels + more) && Runs(calls, labels)
    ensures At(calls, store, labels + more, n) == At(calls, store, labels, n)
  {
    if n > 0 {
      AtPrefix(calls, store, labels, more, n - 1);
    }
  }

  /** On x, a run and the run of its labels on x end alike. */
  lemma {:induction false} ItemSeesOnlyItsLabels(calls: seq<Op>, store: Store, labels: seq<Label>, x: Id)
    requires Runs(calls, labels)
    ensures Runs(calls, Keep(labels, OnItem(calls, x)))
    ensures SameOn(calls, Final(calls, store, labels), Final(calls, store, Keep(labels, OnItem(calls, x))), x)
    decreases |labels|
  {
    if labels != [] {
      var front, l := labels[..|labels| - 1], labels[|labels| - 1];
      var kept := Keep(front, OnItem(calls, x));
      assert labels == front + [l];
      KeepAppend(front, [l], OnItem(calls, x));
      FinalSnoc(calls, store, front, l);
      ItemSeesOnlyItsLabels(calls, store, front, x);
      assert Keep([l], OnItem(calls, x)) == if calls[l.call].id == x then [l] else [];
      if calls[l.call].id == x {
        FinalSnoc(calls, store, kept, l);
        ExecHere(calls, Final(calls, store, front), Final(calls, store, kept), l, x);
      } else {
        assert kept + [] == kept;
        ExecElsewhere(calls, Final(calls, store, front), l, x);
      }
    }
  }

  /** Both runs do the same steps in the same order on every item. */
  ghost predicate SameOrderOnItems(calls: seq<Op>, labels: seq<Label>, labels': seq<Label>) {
    forall x :: Keep(labels, OnItem(calls, x)) == Keep(labels', OnItem(calls, x))
  }

  /**
   * Two runs that order the steps of each item alike end in the same store and give every call
   * the same result, however they mix different items.
   */
  lemma SameOrderSameEnd(calls: seq<Op>, store: Store, labels: seq<Label>, labels': seq<Label>)
    requires Runs(calls, labels) && Runs(calls, labels') && SameOrderOnItems(calls, labels, labels')
    ensures Final(calls, store, labels) == Final(calls, store, labels')
  {
    var s, s' := Final(calls, store, labels), Final(calls, store, labels');
    forall x ensures SameOn(calls, s, s', x) {
      ItemSeesOnlyItsLabels(calls, store, labels, x);
      ItemSeesOnlyItsLabels(calls, store, labels', x);
    }
    forall x ensures Lookup(s.store, x) == Lookup(s'.store, x) {
      assert SameOn(calls, s, s', x);
    }
    SameStore(s.store, s'.store);
    forall i | 0 <= i < |calls| ensures s.threads[i] == s'.threads[i] {
      assert SameOn(calls, s, s', calls[i].id);
    }
  }

  // ---- the calls one after another ----

  /** Between two steps of one call there is no other call's step on the same item. */
  ghost predicate NoOverlap(calls: seq<Op>, labels: seq<Label>)
    requires Runs(calls, labels)
  {
    forall x :: NoOverlapOn(calls, labels, x)
  }

  /** Between two steps of one call there is no other call's step at all. */
  predicate IsSerial(labels: seq<Label>) {
    forall i, j, k | 0 <= i < j < k < |labels| ::
      labels[i].call == labels[k].call ==> labels[j].call == labels[k].call
  }

  /** Every step of call c comes before every step of call d. */
  predicate Precedes(labels: seq<Label>, c: nat, d: nat) {
    forall i, j | 0 <= i < |labels| && 0 <= j < |labels| ::
      labels[i].call == c && labels[j].call == d ==> i < j
  }

  /** The calls in the order of their first steps, each with all its steps together. */
  function Serialize(labels: seq<Label>): seq<Label>
    decreases |labels|
  {
    if labels == [] then []
    else
      var c := labels[0].call;
      assert Keep(labels, NotByCall(c)) == Keep(labels[1..], NotByCall(c));
      Keep(labels, ByCall(c)) + Serialize(Keep(labels, NotByCall(c)))
  }

  /** What holds of the call of every label still does. */
  lemma {:induction false} SerializeKeepsCalls(labels: seq<Label>, p: nat -> bool)
    requires forall i | 0 <= i < |labels| :: p(labels[i].call)
    ensures forall i | 0 <= i < |Serialize(labels)| :: p(Serialize(labels)[i].call)
    decreases |labels|
  {
    if labels != [] {
      var c := labels[0].call;
      var others := Keep(labels, NotByCall(c));
      assert others == Keep(labels[1..], NotByCall(c));
      KeepPicks(labels, ByCall(c));
      KeepPicks(labels, NotByCall(c));
      SerializeKeepsCalls(others, p);
    }
  }

  /** Where the kept labels stood, in increasing order. */
  lemma {:induction false} KeepPositions(labels: seq<Label>, p: Label -> bool) returns (at: seq<nat>)
    ensures |at| == |Keep(labels, p)|
    ensures forall i | 0 <= i < |at| :: at[i] < |labels| && labels[at[i]] == Keep(labels, p)[i]
    ensures forall i, j | 0 <= i < j < |at| :: at[i] < at[j]
    decreases |labels|
  {
    if labels == [] {
      at := [];
    } else {
      var front, l := labels[..|labels| - 1], labels[|labels| - 1];
      assert labels == front + [l];
      KeepAppend(front, [l], p);
      at := KeepPositions(front, p);
      if p(l) {
        at := at + [|front|];
      }
    }
  }

  lemma KeepNoOverlap(calls: seq<Op>, labels: seq<Label>, p: Label -> bool)
    requires Runs(calls, labels) && NoOverlap(calls, labels)
    ensures Runs(calls, Keep(labels, p)) && NoOverlap(calls, Keep(labels, p))
  {
    var kept := Keep(labels, p);
    var at := KeepPositions(labels, p);
    KeepPicks(labels, p);
    forall x ensures NoOverlapOn(calls, kept, x) {
      assert NoOverlapOn(calls, labels, x);
      forall i, j, k | 0 <= i < j < k < |kept| &&
          kept[i].call == kept[k].call && Target(calls, kept[k]) == x && Target(calls, kept[j]) == x
        ensures kept[j].call == kept[k].call
      {
        assert labels[at[i]].call == labels[at[k]].call && at[i] < at[j] < at[k];
      }
    }
  }

  /** Serializing leaves every item's steps in their order. */
  lemma {:induction false} SerializeKeepsItemOrder(calls: seq<Op>, labels: seq<Label>, x: Id)
    requires Runs(calls, labels) && NoOverlap(calls, labels)
    ensures Keep(Serialize(labels), OnItem(calls, x)) == Keep(labels, OnItem(calls, x))
    decreases |labels|
  {
    if labels != [] {
      var c := labels[0].call;
      var mine, others := Keep(labels, ByCall(c)), Keep(labels, NotByCall(c));
      assert others == Keep(labels[1..], NotByCall(c));
      KeepNoOverlap(calls, labels, NotByCall(c));
      SerializeKeepsItemOrder(calls, others, x);
      KeepAppend(mine, Serialize(others), OnItem(calls, x));
      KeepPicks(labels, ByCall(c));
      if calls[c].id == x {
        KeepAll(mine, OnItem(calls, x));
        FirstCallComesFirst(calls, labels, 0);
        assert labels[0..] == labels;
      } else {
        KeepNone(mine, OnItem(calls, x));
        KeepKeep(labels, NotByCall(c), OnItem(calls, x), OnItem(calls, x));
      }
    }
  }

  /** One label in front of a split of the labels picked by `on` into those of `mine` and of `others`. */
  lemma SplitCons(l: Label, rest: seq<Label>, on: Label -> bool, mine: Label -> bool, others: Label -> bool)
    requires (others(l) <==> !mine(l)) && (mine(l) ==> on(l))
    requires !mine(l) && on(l) ==> Keep(rest, mine) == []
    requires Keep(rest, on) == Keep(rest, mine) + Keep(Keep(rest, others), on)
    ensures Keep([l] + rest, on) == Keep([l] + rest, mine) + Keep(Keep([l] + rest, others), on)
  {
    KeepCons(l, rest, on);
    KeepCons(l, rest, mine);
    KeepCons(l, rest, others);
    KeepCons(l, Keep(rest, others), on);
    Regroup(l, mine(l), on(l), Keep(rest, mine), Keep(Keep(rest, others), on));
    if mine(l) {
      DropEmpty(Keep(rest, others));
    }
  }

  lemma DropEmpty(a: seq<Label>)
    ensures [] + a == a
  {
  }

  lemma Regroup(l: Label, mine: bool, on: bool, a: seq<Label>, b: seq<Label>)
    requires (mine ==> on) && (!mine && on ==> a == [])
    ensures (if on then [l] else []) + (a + b) ==
            ((if mine then [l] else []) + a) + (if mine then b else (if on then [l] else []) + b)
  {
    if mine {
      assert [l] + (a + b) == ([l] + a) + b;
    } else if on {
      assert ([] + a) + ([l] + b) == [l] + b && a + b == b;
    } else {
      assert [] + (a + b) == ([] + a) + ([] + b);
    }
  }

  /** Without overlap, the first call's steps come before all others on its item. */
  lemma {:induction false} FirstCallComesFirst(calls: seq<Op>, labels: seq<Label>, n: nat)
    requires n <= |labels| && labels != [] && Runs(calls, labels) && NoOverlap(calls, labels)
    ensures var c, tail := labels[0].call, labels[n..];
      Keep(tail, OnItem(calls, calls[c].id)) ==
        Keep(tail, ByCall(c)) + Keep(Keep(tail, NotByCall(c)), OnItem(calls, calls[c].id))
    decreases |labels| - n
  {
    var c := labels[0].call;
    var x := calls[c].id;
    if n < |labels| {
      var l, rest := labels[n], labels[n + 1..];
      assert labels[n..] == [l] + rest;
      FirstCallComesFirst(calls, labels, n + 1);
      if l.call != c && calls[l.call].id == x {
        NoMoreOfFirst(calls, labels, n);
      }
      SplitCons(l, rest, OnItem(calls, x), ByCall(c), NotByCall(c));
    }
  }

  /** Once another call has stepped on its item, the first call is over. */
  lemma NoMoreOfFirst(calls: seq<Op>, labels: seq<Label>, n: nat)
    requires n < |labels| && Runs(calls, labels) && NoOverlap(calls, labels)
    requires labels[n].call != labels[0].call && Target(calls, labels[n]) == Target(calls, labels[0])
    ensures Keep(labels[n + 1..], ByCall(labels[0].call)) == []
  {
    var rest := labels[n + 1..];
    assert NoOverlapOn(calls, labels, Target(calls, labels[0]));
    forall l | l in rest ensures l.call != labels[0].call {
      var k :| 0 <= k < |rest| && rest[k] == l;
      assert labels[n + 1 + k] == l && 0 < n;
    }
    KeepNone(rest, ByCall(labels[0].call));
  }

  predicate AllBy(labels: seq<Label>, c: nat) {
    forall i | 0 <= i < |labels| :: labels[i].call == c
  }

  predicate NoneBy(labels: seq<Label>, c: nat) {
    forall i | 0 <= i < |labels| :: labels[i].call != c
  }

  lemma SerialParts(mine: seq<Label>, rest: seq<Label>, c: nat)
    requires AllBy(mine, c) && NoneBy(rest, c) && IsSerial(rest)
    ensures IsSerial(mine + rest)
  {
    var all, n := mine + rest, |mine|;
    forall i, j, k | 0 <= i < j < k < |all| && all[i].call == all[k].call ensures all[j].call == all[k].call {
      if i >= n {
        assert rest[i - n] == all[i] && rest[j - n] == all[j] && rest[k - n] == all[k];
      }
    }
  }

  lemma {:induction false} SerializeIsSerial(labels: seq<Label>)
    ensures IsSerial(Serialize(labels))
    decreases |labels|
  {
    if labels != [] {
      var c := labels[0].call;
      var mine, others := Keep(labels, ByCall(c)), Keep(labels, NotByCall(c));
      assert others == Keep(labels[1..], NotByCall(c));
      SerializeIsSerial(others);
      KeepPicks(labels, ByCall(c));
      KeepPicks(labels, NotByCall(c));
      SerializeKeepsCalls(others, i => i != c);
      SerialParts(mine, Serialize(others), c);
    }
  }

  lemma PrecedesParts(mine: seq<Label>, rest: seq<Label>, b: nat, c: nat, d: nat)
    requires AllBy(mine, b) && NoneBy(rest, b)
    requires Precedes(rest, c, d) && c != d
    requires b == d ==> NoneBy(rest, c)
    ensures Precedes(mine + rest, c, d)
  {
    var all, n := mine + rest, |mine|;
    forall i, j | 0 <= i < |all| && 0 <= j < |all| && all[i].call == c && all[j].call == d ensures i < j {
      if i >= n && j >= n {
        assert all[i] == rest[i - n] && all[j] == rest[j - n];
      }
    }
  }

  /** A call that was over before another began still comes first. */
  lemma {:induction false} SerializeKeepsPrecedence(labels: seq<Label>, c: nat, d: nat)
    requires c != d && Precedes(labels, c, d)
    ensures Precedes(Serialize(labels), c, d)
    decreases |labels|
  {
    if labels != [] {
      var b := labels[0].call;
      var mine, others := Keep(labels, ByCall(b)), Keep(labels, NotByCall(b));
      assert others == Keep(labels[1..], NotByCall(b));
      KeepPrecedence(labels, NotByCall(b), c, d);
      SerializeKeepsPrecedence(others, c, d);
      KeepPicks(labels, ByCall(b));
      KeepPicks(labels, NotByCall(b));
      SerializeKeepsCalls(others, i => i != b);
      if b == d {
        assert NoneBy(labels, c);
        SerializeKeepsCalls(others, i => i != c);
      }
      PrecedesParts(mine, Serialize(others), b, c, d);
    }
  }

  lemma KeepPrecedence(labels: seq<Label>, p: Label -> bool, c: nat, d: nat)
    requires Precedes(labels, c, d)
    ensures Precedes(Keep(labels, p), c, d)
  {
    var at := KeepPositions(labels, p);
    var kept := Keep(labels, p);
    forall i, j | 0 <= i < |kept| && 0 <= j < |kept| && kept[i].call == c && kept[j].call == d ensures i < j {
      assert at[i] < at[j];
    }
  }

  /**
   * Reduction. Take any interleaving in which calls on the same item do not overlap. Its calls run
   * one after another, in an order that keeps every item's order and never puts a call before one
   * that was over when it began, end in the same store and give every call the same result.
   */
  lemma Reduces(calls: seq<Op>, store: Store, labels: seq<Label>)
    requires Runs(calls, labels) && NoOverlap(calls, labels)
    ensures var serial := Serialize(labels);
      && Runs(calls, serial) && IsSerial(serial)
      && SameOrderOnItems(calls, serial, labels)
      && (forall c, d | c != d && Precedes(labels, c, d) :: Precedes(serial, c, d))
      && Final(calls, store, serial) == Final(calls, store, labels)
  {
    var serial := Serialize(labels);
    SerializeKeepsCalls(labels, i => i < |calls|);
    SerializeIsSerial(labels);
    forall x ensures Keep(serial, OnItem(calls, x)) == Keep(labels, OnItem(calls, x)) {
      SerializeKeepsItemOrder(calls, labels, x);
    }
    forall c, d | c != d && Precedes(labels, c, d) ensures Precedes(serial, c, d) {
      SerializeKeepsPrecedence(labels, c, d);
    }
    SameOrderSameEnd(calls, store, serial, labels);
  }
}
