/**
 * The whole way down: an interleaving whose calls do not overlap on an item and come to their ends
 * is a history of whole calls; where no store call fails, the ones the serial API makes.
 */
module Linear {
  import opened Types
  import opened Protocol
  import opened Serial
  import opened Reduction

  // ---- runs from any state ----

  function From(calls: seq<Op>, s: State, labels: seq<Label>): (s': State)
    requires |s.threads| == |calls| && Runs(calls, labels)
    ensures |s'.threads| == |calls|
    decreases |labels|
  {
    if labels == [] then s
    else
      assert forall l | l in labels[1..] :: l in labels;
      From(calls, Exec(calls, s, labels[0]), labels[1..])
  }

  lemma {:induction false} FromAt(calls: seq<Op>, store: Store, labels: seq<Label>, n: nat)
    requires n <= |labels| && Runs(calls, labels)
    ensures Runs(calls, labels[n..])
    ensures From(calls, At(calls, store, labels, n), labels[n..]) == Final(calls, store, labels)
    decreases |labels| - n
  {
    hide Exec;
    assert forall l | l in labels[n..] :: l in labels;
    if n < |labels| {
      FromAt(calls, store, labels, n + 1);
      assert labels[n..][1..] == labels[n + 1..];
    }
  }

  lemma {:induction false} FromAppend(calls: seq<Op>, s: State, a: seq<Label>, b: seq<Label>)
    requires |s.threads| == |calls| && Runs(calls, a) && Runs(calls, b)
    ensures Runs(calls, a + b)
    ensures From(calls, s, a + b) == From(calls, From(calls, s, a), b)
    decreases |a|
  {
    hide Exec;
    if a == [] {
      assert a + b == b;
    } else {
      assert (a + b)[0] == a[0] && (a + b)[1..] == a[1..] + b;
      assert forall l | l in a[1..] :: l in a;
      FromAppend(calls, Exec(calls, s, a[0]), a[1..], b);
    }
  }

  /** Other calls' steps leave a call where it stands. */
  lemma {:induction false} FromOthers(calls: seq<Op>, s: State, labels: seq<Label>, c: nat)
    requires |s.threads| == |calls| && Runs(calls, labels) && c < |calls| && NoneBy(labels, c)
    ensures From(calls, s, labels).threads[c] == s.threads[c]
    decreases |labels|
  {
    if labels != [] {
      ExecIsLocal(calls, s, labels[0]);
      assert forall l | l in labels[1..] :: l in labels;
      FromOthers(calls, Exec(calls, s, labels[0]), labels[1..], c);
    }
  }

  /** The steps of one call in a row drive that call and touch nothing else. */
  lemma {:induction false} FromBlock(calls: seq<Op>, s: State, c: nat, mine: seq<Label>)
    requires |s.threads| == |calls| && Runs(calls, mine) && c < |calls| && AllBy(mine, c)
    ensures var s' := From(calls, s, mine);
      var r := Drive(calls[c], s.threads[c], Lookup(s.store, calls[c].id), mine);
      && s'.threads[c] == r.0 && Lookup(s'.store, calls[c].id) == r.1
      && (forall i | 0 <= i < |calls| && i != c :: s'.threads[i] == s.threads[i])
      && (forall x | x != calls[c].id :: Lookup(s'.store, x) == Lookup(s.store, x))
    decreases |mine|
  {
    if mine != [] {
      ExecIsLocal(calls, s, mine[0]);
      assert forall l | l in mine[1..] :: l in mine;
      FromBlock(calls, Exec(calls, s, mine[0]), c, mine[1..]);
    }
  }

  // ---- histories ----

  /** One call of a history, the moment of its last store call and which of its store calls failed. */
  datatype Entry = Entry(call: nat, at: Moment, faults: Faults)

  /** The call's own store calls in the run, driven on `rows`, meet these faults and end at this moment. */
  predicate IsEntryOf(calls: seq<Op>, rows: Store, labels: seq<Label>, e: Entry) {
    && e.call < |calls|
    && var (op, slot, mine) := (calls[e.call], Lookup(rows, calls[e.call].id), Keep(labels, ByCall(e.call)));
       && Drive(op, Idle, slot, mine).0.Done?
       && e.faults == FaultsOf(op, Idle, slot, mine)
       && var end := EndOf(op, Idle, slot, mine); e.at == Moment(end.stamp, end.now)
  }

  /**
   * Making the calls of the history one at a time on `rows`, each under the faults its own store calls
   * met in the run, gives every outcome and the store of `final`.
   */
  predicate Explains(calls: seq<Op>, rows: Store, labels: seq<Label>, history: seq<Entry>, final: State)
    requires |final.threads| == |calls|
    decreases |history|
  {
    if history == [] then final.store == rows
    else
      var e := history[0];
      && IsEntryOf(calls, rows, labels, e)
      && var r := AloneUnder(calls[e.call], rows, e.at, e.faults);
         final.threads[e.call] == Done(r.0) && Explains(calls, r.1, labels, history[1..], final)
  }

  /** The history has exactly the calls that stepped, each once. */
  ghost predicate Covers(history: seq<Entry>, labels: seq<Label>) {
    && (forall i, j | 0 <= i < j < |history| :: history[i].call != history[j].call)
    && (forall k | 0 <= k < |history| :: Stepped(labels, history[k].call))
    && (forall c | Stepped(labels, c) :: exists k :: 0 <= k < |history| && history[k].call == c)
  }

  ghost predicate Stepped(labels: seq<Label>, c: nat) {
    exists i :: 0 <= i < |labels| && labels[i].call == c
  }

  /** No call of the history comes after one that began only when it was over. */
  ghost predicate KeepsRealTime(history: seq<Entry>, labels: seq<Label>) {
    forall i, j | 0 <= i < j < |history| :: !Precedes(labels, history[j].call, history[i].call)
  }

  /** Every call that stepped in `labels` has come to its end in `s`. */
  predicate AllDone(calls: seq<Op>, s: State, labels: seq<Label>)
    requires |s.threads| == |calls| && Runs(calls, labels)
  {
    forall i | 0 <= i < |labels| :: s.threads[labels[i].call].Done?
  }

  predicate AllIdle(calls: seq<Op>, s: State, labels: seq<Label>)
    requires |s.threads| == |calls| && Runs(calls, labels)
  {
    forall i | 0 <= i < |labels| :: s.threads[labels[i].call].Idle?
  }

  /** The first call of a serial run has its whole effect; the others are as before. */
  lemma FirstBlock(calls: seq<Op>, s: State, c: nat, labels: seq<Label>, mine: seq<Label>, rest: seq<Label>) returns (e: Entry)
    requires |s.threads| == |calls| && c < |calls| && Runs(calls, mine) && Runs(calls, rest)
    requires mine == Keep(labels, ByCall(c)) && AllBy(mine, c) && NoneBy(rest, c) && s.threads[c].Idle?
    requires From(calls, From(calls, s, mine), rest).threads[c].Done?
    ensures e.call == c
    ensures IsEntryOf(calls, s.store, labels, e)
    ensures var r := AloneUnder(calls[c], s.store, e.at, e.faults);
      && From(calls, s, mine).store == r.1
      && From(calls, From(calls, s, mine), rest).threads[c] == Done(r.0)
    ensures forall i | 0 <= i < |calls| && i != c :: From(calls, s, mine).threads[i] == s.threads[i]
  {
    var op, slot := calls[c], Lookup(s.store, calls[c].id);
    FromBlock(calls, s, c, mine);
    FromOthers(calls, From(calls, s, mine), rest, c);
    DriveIsWhole(op, slot, mine);
    var end := EndOf(op, Idle, slot, mine);
    e := Entry(c, Moment(end.stamp, end.now), FaultsOf(op, Idle, slot, mine));
    AloneIsLocal(op, s.store, e.at, e.faults);
    SameStore(From(calls, s, mine).store, AloneUnder(op, s.store, e.at, e.faults).1);
  }

  /** What the first block of a serial run leaves for the rest to do. */
  lemma RestOfSerial(calls: seq<Op>, s: State, labels: seq<Label>, c: nat, mine: seq<Label>, others: seq<Label>)
    requires |s.threads| == |calls| && Runs(calls, labels) && labels != [] && labels[0].call == c
    requires mine == Keep(labels, ByCall(c)) && others == Keep(labels, NotByCall(c)) && Runs(calls, Serialize(labels))
    requires AllIdle(calls, s, labels)
    requires AllDone(calls, From(calls, s, Serialize(labels)), labels)
    ensures |others| < |labels| && Runs(calls, mine) && Runs(calls, others) && Runs(calls, Serialize(others))
    ensures AllBy(mine, c) && NoneBy(Serialize(others), c)
    ensures s.threads[c].Idle? && From(calls, s, Serialize(labels)).threads[c].Done?
    ensures From(calls, s, Serialize(labels)) == From(calls, From(calls, s, mine), Serialize(others))
    ensures AllIdle(calls, s, others) && AllDone(calls, From(calls, s, Serialize(labels)), others)
  {
    hide Exec;
    assert others == Keep(labels[1..], NotByCall(c));
    KeepPicks(labels, ByCall(c));
    KeepPicks(labels, NotByCall(c));
    SerializeKeepsCalls(others, i => i != c && i < |calls|);
    FromAppend(calls, s, mine, Serialize(others));
    forall i | 0 <= i < |others|
      ensures s.threads[others[i].call].Idle? && From(calls, s, Serialize(labels)).threads[others[i].call].Done?
    {
      assert others[i] in labels;
    }
  }

  lemma StillIdle(calls: seq<Op>, s: State, s1: State, labels: seq<Label>, c: nat)
    requires |s.threads| == |s1.threads| == |calls| && Runs(calls, labels)
    requires Runs(calls, Keep(labels, NotByCall(c))) && AllIdle(calls, s, Keep(labels, NotByCall(c)))
    requires forall i | 0 <= i < |calls| && i != c :: s1.threads[i] == s.threads[i]
    ensures AllIdle(calls, s1, Keep(labels, NotByCall(c)))
  {
    KeepPicks(labels, NotByCall(c));
  }

  lemma ExplainsCons(calls: seq<Op>, rows: Store, labels: seq<Label>, e: Entry, later: seq<Entry>, final: State)
    requires |final.threads| == |calls| && IsEntryOf(calls, rows, labels, e)
    requires var r := AloneUnder(calls[e.call], rows, e.at, e.faults);
      final.threads[e.call] == Done(r.0) && Explains(calls, r.1, labels, later, final)
    ensures Explains(calls, rows, labels, [e] + later, final)
  {
    hide AloneUnder, IsEntryOf;
    assert ([e] + later)[1..] == later;
  }

  /** The labels of each call that steps in `part` are those it has in `whole`. */
  ghost predicate SameSteps(part: seq<Label>, whole: seq<Label>) {
    forall c | Stepped(part, c) :: Keep(part, ByCall(c)) == Keep(whole, ByCall(c))
  }

  lemma OthersHaveSameSteps(labels: seq<Label>, whole: seq<Label>, c: nat)
    requires SameSteps(labels, whole)
    ensures SameSteps(Keep(labels, NotByCall(c)), whole)
  {
    var others := Keep(labels, NotByCall(c));
    KeepPicks(labels, NotByCall(c));
    forall d | Stepped(others, d) ensures Keep(others, ByCall(d)) == Keep(whole, ByCall(d)) {
      var i :| 0 <= i < |others| && others[i].call == d;
      assert d != c && others[i] in labels;
      KeepKeep(labels, NotByCall(c), ByCall(d), ByCall(d));
      var k :| 0 <= k < |labels| && labels[k] == others[i];
      assert Stepped(labels, d);
    }
  }

  lemma {:induction false} SerialIsHistory(calls: seq<Op>, s: State, labels: seq<Label>, whole: seq<Label>)
    returns (history: seq<Entry>)
    requires |s.threads| == |calls| && Runs(calls, labels) && Runs(calls, Serialize(labels))
    requires AllIdle(calls, s, labels)
    requires AllDone(calls, From(calls, s, Serialize(labels)), labels) && SameSteps(labels, whole)
    ensures Explains(calls, s.store, whole, history, From(calls, s, Serialize(labels)))
    ensures Covers(history, labels) && KeepsRealTime(history, labels)
    decreases |labels|
  {
    hide Exec, AloneUnder;
    if labels == [] {
      history := [];
    } else {
      hide Covers, KeepsRealTime, IsEntryOf, SameSteps;
      var c := labels[0].call;
      var mine, others := Keep(labels, ByCall(c)), Keep(labels, NotByCall(c));
      RestOfSerial(calls, s, labels, c, mine, others);
      FirstSteps(labels, whole);
      var e := FirstBlock(calls, s, c, whole, mine, Serialize(others));
      OthersHaveSameSteps(labels, whole, c);
      var s1 := From(calls, s, mine);
      StillIdle(calls, s, s1, labels, c);
      var later := SerialIsHistory(calls, s1, others, whole);
      history := [e] + later;
      ExplainsCons(calls, s.store, whole, e, later, From(calls, s, Serialize(labels)));
      HistoryCovers(labels, c, later, e);
      HistoryKeepsRealTime(labels, c, later, e);
    }
  }

  lemma FirstSteps(labels: seq<Label>, whole: seq<Label>)
    requires SameSteps(labels, whole) && labels != []
    ensures Keep(labels, ByCall(labels[0].call)) == Keep(whole, ByCall(labels[0].call))
  {
    assert Stepped(labels, labels[0].call);
  }

  lemma {:induction false} HistoryCovers(labels: seq<Label>, c: nat, later: seq<Entry>, e: Entry)
    requires labels != [] && labels[0].call == c == e.call
    requires Covers(later, Keep(labels, NotByCall(c)))
    ensures Covers([e] + later, labels)
  {
    var others, history := Keep(labels, NotByCall(c)), [e] + later;
    KeepPicks(labels, NotByCall(c));
    forall k | 0 <= k < |later| ensures later[k].call != c && Stepped(labels, later[k].call) {
      assert Stepped(others, later[k].call);
    }
    forall k | 0 <= k < |history| ensures Stepped(labels, history[k].call) {
      if k > 0 {
        assert history[k] == later[k - 1];
      }
    }
    forall d | Stepped(labels, d) ensures exists k :: 0 <= k < |history| && history[k].call == d {
      if d == c {
        assert history[0].call == d;
      } else {
        KeepKeepsSteps(labels, c, d);
        var k :| 0 <= k < |later| && later[k].call == d;
        assert history[k + 1].call == d;
      }
    }
  }

  lemma {:induction false} KeepKeepsSteps(labels: seq<Label>, c: nat, d: nat)
    requires c != d && Stepped(labels, d)
    ensures Stepped(Keep(labels, NotByCall(c)), d)
    decreases |labels|
  {
    var i :| 0 <= i < |labels| && labels[i].call == d;
    var kept := Keep(labels, NotByCall(c));
    if i == 0 {
      assert kept[0].call == d;
    } else {
      var tail := Keep(labels[1..], NotByCall(c));
      assert labels[1..][i - 1].call == d;
      KeepKeepsSteps(labels[1..], c, d);
      var k :| 0 <= k < |tail| && tail[k].call == d;
      assert kept[if labels[0].call != c then k + 1 else k] == tail[k];
    }
  }

  lemma HistoryKeepsRealTime(labels: seq<Label>, c: nat, later: seq<Entry>, e: Entry)
    requires labels != [] && labels[0].call == c == e.call
    requires Covers(later, Keep(labels, NotByCall(c))) && KeepsRealTime(later, Keep(labels, NotByCall(c)))
    ensures KeepsRealTime([e] + later, labels)
  {
    var others, history := Keep(labels, NotByCall(c)), [e] + later;
    KeepPicks(labels, NotByCall(c));
    forall i, j | 0 <= i < j < |history| ensures !Precedes(labels, history[j].call, history[i].call) {
      assert history[j] == later[j - 1];
      if i == 0 {
        assert Stepped(others, history[j].call);
      } else {
        assert history[i] == later[i - 1];
        if Precedes(labels, history[j].call, history[i].call) {
          KeepPrecedence(labels, NotByCall(c), history[j].call, history[i].call);
          assert false;
        }
      }
    }
  }

  /**
   * Linearization. Take any interleaving in which calls on one item do not overlap and every call
   * that steps comes to its end, whichever store calls fail. There is a history of exactly those
   * calls, in an order that never reverses calls that did not overlap in time, such that making them
   * whole, one at a time, each as of the moment its own store calls end and under the faults they
   * meet, gives every call its outcome and ends in the same store.
   */
  lemma InterleavingsAreHistories(calls: seq<Op>, store: Store, labels: seq<Label>) returns (history: seq<Entry>)
    requires Runs(calls, labels) && NoOverlap(calls, labels)
    requires AllDone(calls, Final(calls, store, labels), labels)
    ensures Explains(calls, store, labels, history, Final(calls, store, labels))
    ensures Covers(history, labels) && KeepsRealTime(history, labels)
  {
    var serial, s := Serialize(labels), Init(calls, store);
    Reduces(calls, store, labels);
    FromAt(calls, store, serial, 0);
    assert serial[0..] == serial;
    history := SerialIsHistory(calls, s, labels, labels);
  }

  /** The calls of a history, as the serial API makes them. */
  function Made(calls: seq<Op>, history: seq<Entry>): seq<Timed>
    requires forall e | e in history :: e.call < |calls|
  {
    seq(|history|, k requires 0 <= k < |history| => assert history[k] in history; Timed(calls[history[k].call], history[k].at))
  }

  lemma EntryMeetsNoFaults(calls: seq<Op>, rows: Store, labels: seq<Label>, e: Entry)
    requires IsEntryOf(calls, rows, labels, e) && NoFaults(labels)
    ensures e.faults == NO_FAULTS
  {
    KeepPicks(labels, ByCall(e.call));
    NoFaultsOf(calls[e.call], Idle, Lookup(rows, calls[e.call].id), Keep(labels, ByCall(e.call)));
  }

  /** Where no store call fails, the run ends in the store a serial history of API calls leads to. */
  lemma {:induction false} ExplainedByTheApi(calls: seq<Op>, rows: Store, labels: seq<Label>, history: seq<Entry>, final: State)
    requires |final.threads| == |calls| && NoFaults(labels) && Explains(calls, rows, labels, history, final)
    ensures forall e | e in history :: e.call < |calls|
    ensures final.store == History(rows, Made(calls, history))
    decreases |history|
  {
    hide IsEntryOf;
    if history != [] {
      var e, rest := history[0], history[1..];
      EntryInRange(calls, rows, labels, e);
      EntryMeetsNoFaults(calls, rows, labels, e);
      ExplainedByTheApi(calls, Alone(calls[e.call], rows, e.at).1, labels, rest, final);
      assert history == [e] + rest;
      assert Made(calls, history)[1..] == Made(calls, rest);
    }
  }

  lemma EntryInRange(calls: seq<Op>, rows: Store, labels: seq<Label>, e: Entry)
    requires IsEntryOf(calls, rows, labels, e)
    ensures e.call < |calls|
  {
  }
}
