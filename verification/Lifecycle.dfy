/**
 * The event log read as a lifecycle: a replay that accepts exactly the legal logs,
 * and the counting law that characterises them without replaying.
 */
module Lifecycle {
  import opened Types

  // ---- replay ----

  datatype Life = Unborn | Live(status: string) | Broken

  function ReplayStep(life: Life, kind: Kind): Life {
    match kind
    case Created => if life.Unborn? then Live(OPEN) else Broken
    case Claimed => if life == Live(OPEN) then Live(CLAIMED) else Broken
    case Released => if life == Live(CLAIMED) then Live(OPEN) else Broken
    case Closed => if life.Live? && !IsTerminal(life.status) then Live(CLOSED) else Broken
    case Activity => if life.Live? then life else Broken
  }

  /** The status a log leads to; Broken as soon as one event is not legal where it stands. */
  function Replay(log: seq<Event>): Life {
    if log == [] then Unborn
    else ReplayStep(Replay(log[..|log| - 1]), KindOf(log[|log| - 1].dataType))
  }

  /** The document's status is what its own log replays to, and every event in it was legal. */
  predicate Consistent(doc: Doc) {
    Replay(doc.events) == Live(doc.status)
  }

  lemma ReplaySnoc(log: seq<Event>, e: Event)
    ensures Replay(log + [e]) == ReplayStep(Replay(log), KindOf(e.dataType))
  {
    assert (log + [e])[..|log|] == log;
  }

  /**
   * Appending an event without touching the status keeps a document consistent
   * exactly when the event does not use one of the four lifecycle type names.
   */
  lemma AppendKeepsConsistentIff(doc: Doc, e: Event)
    requires Consistent(doc)
    ensures Consistent(doc.(events := doc.events + [e])) <==> KindOf(e.dataType) == Activity
  {
    ReplaySnoc(doc.events, e);
  }

  // ---- the counting law ----

  function Count(log: seq<Event>, kind: Kind): nat {
    if log == [] then 0
    else Count(log[..|log| - 1], kind) + (if KindOf(log[|log| - 1].dataType) == kind then 1 else 0)
  }

  lemma CountSnoc(log: seq<Event>, e: Event, kind: Kind)
    ensures Count(log + [e], kind) == Count(log, kind) + (if KindOf(e.dataType) == kind then 1 else 0)
  {
    assert (log + [e])[..|log|] == log;
  }

  /** Claims not yet released. */
  function Held(log: seq<Event>): int {
    Count(log, Claimed) - Count(log, Released)
  }

  ghost predicate HeldAtMostOnce(log: seq<Event>) {
    forall n | 0 <= n <= |log| :: 0 <= Held(log[..n]) <= 1
  }

  predicate CreatedOnceFirst(log: seq<Event>) {
    |log| > 0 && forall i | 0 <= i < |log| :: KindOf(log[i].dataType) == Created <==> i == 0
  }

  predicate NothingAfterClose(log: seq<Event>) {
    forall i, j | 0 <= i < j < |log| ::
      KindOf(log[i].dataType) == Closed ==> KindOf(log[j].dataType) == Activity
  }

  ghost predicate Conserved(log: seq<Event>) {
    CreatedOnceFirst(log) && HeldAtMostOnce(log) && NothingAfterClose(log)
  }

  /** The status that the counts alone determine. */
  function CountedStatus(log: seq<Event>): string {
    if Count(log, Closed) > 0 then CLOSED
    else if Held(log) == 1 then CLAIMED
    else OPEN
  }

  /**
   * A log replays without a break exactly when it is conserved: one ItemCreated, first;
   * at every prefix claims minus releases is 0 or 1; nothing but activity after a close.
   * The status it replays to is the one the counts determine.
   */
  lemma {:induction false} LegalIffConserved(log: seq<Event>)
    ensures Replay(log).Live? <==> Conserved(log)
    ensures Replay(log).Live? ==> Replay(log).status == CountedStatus(log) && Count(log, Closed) <= 1
    ensures Replay(log).Unborn? <==> log == []
  {
    if log == [] {
      return;
    }
    var front, e := log[..|log| - 1], log[|log| - 1];
    assert log == front + [e];
    LegalIffConserved(front);
    if front == [] {
      FirstEventLegalIff(log);
    } else {
      ReplaySnoc(front, e);
      if Replay(log).Live? {
        ConservedSnoc(front, e);
      } else if Conserved(log) {
        ConservedFront(front, e);
      }
    }
  }

  lemma FirstEventLegalIff(log: seq<Event>)
    requires |log| == 1
    ensures Replay(log).Live? <==> Conserved(log)
    ensures Replay(log).Live? ==> Replay(log).status == CountedStatus(log) && Count(log, Closed) <= 1
  {
    assert log[..0] == [] && log[..1] == log;
    assert forall k :: Count(log, k) == Count(log[..0], k) + (if KindOf(log[0].dataType) == k then 1 else 0);
    if KindOf(log[0].dataType) == Created {
      forall n | 0 <= n <= |log| ensures 0 <= Held(log[..n]) <= 1 {
        assert n == 0 || n == 1;
      }
    }
  }

  /** Something closed is counted. */
  lemma {:induction false} CloseCounts(log: seq<Event>)
    ensures Count(log, Closed) > 0 <==> exists i :: 0 <= i < |log| && KindOf(log[i].dataType) == Closed
  {
    if log != [] {
      CloseCounts(log[..|log| - 1]);
    }
  }

  /** A legal event extends a conserved log to a conserved log. */
  lemma ConservedSnoc(front: seq<Event>, e: Event)
    requires Conserved(front) && Replay(front) == Live(CountedStatus(front)) && Count(front, Closed) <= 1
    requires Replay(front + [e]).Live?
    ensures Conserved(front + [e])
    ensures Replay(front + [e]).status == CountedStatus(front + [e]) && Count(front + [e], Closed) <= 1
  {
    var log := front + [e];
    ReplaySnoc(front, e);
    CountSnoc(front, e, Claimed);
    CountSnoc(front, e, Released);
    CountSnoc(front, e, Closed);
    CloseCounts(front);
    assert front[..|front|] == front;
    forall n | 0 <= n <= |log| ensures 0 <= Held(log[..n]) <= 1 {
      if n <= |front| {
        assert log[..n] == front[..n];
      } else {
        assert log[..n] == log;
      }
    }
  }

  /** A conserved log is a conserved log and one more event that is legal after it. */
  lemma ConservedFront(front: seq<Event>, e: Event)
    requires front != [] && Conserved(front + [e])
    requires Conserved(front) ==> Replay(front) == Live(CountedStatus(front))
    ensures Conserved(front) && Replay(front + [e]).Live?
  {
    var log := front + [e];
    forall n | 0 <= n <= |front| ensures 0 <= Held(front[..n]) <= 1 {
      assert log[..n] == front[..n];
    }
    assert forall i | 0 <= i < |front| :: log[i] == front[i];
    ReplaySnoc(front, e);
    CountSnoc(front, e, Claimed);
    CountSnoc(front, e, Released);
    CloseCounts(front);
    assert log[..|log|] == log && log[..|front|] == front;
    assert log[|front|] == e;
  }
}
