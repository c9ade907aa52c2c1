/** cmd/inboxui/token/handler.go: a presigned link's actor and its repeatable close. */
module Link {
  import opened Types
  import opened Lifecycle
  import opened Protocol
  import opened Serial
  import opened Api

  // ---- the actor of a link ----

  const USER := "user"
  const SERVICE := "service"

  /** Index of the first colon, or -1. */
  function IndexOfColon(s: string): (i: int)
    ensures -1 <= i < |s|
    ensures i >= 0 ==> s[i] == ':' && forall k | 0 <= k < i :: s[k] != ':'
    ensures i < 0 ==> forall k | 0 <= k < |s| :: s[k] != ':'
  {
    if s == "" then -1
    else if s[0] == ':' then 0
    else
      var i := IndexOfColon(s[1..]);
      assert forall k | 0 < k < |s| :: s[k] == s[1..][k - 1];
      if i < 0 then -1 else i + 1
  }

  /** The actor logged for a link: everything that is not a user is taken for a service. */
  function LoggedActor(actor: string): string {
    var i := IndexOfColon(actor);
    if i > 0 then ActorOf(if actor[..i] == USER then USER else SERVICE, actor[i + 1..])
    else ActorOf(SERVICE, actor)
  }

  predicate HasType(actor: string, principalType: string) {
    principalType + ":" <= actor
  }

  /**
   * The logged actor is the link's actor exactly for users and services, with any further colons
   * kept in the id.
   */
  lemma LoggedActorIsTheLinksIff(actor: string)
    ensures LoggedActor(actor) == actor <==> HasType(actor, USER) || HasType(actor, SERVICE)
  {
    var i := IndexOfColon(actor);
    if i > 0 {
      var prefix := actor[..i];
      assert actor == prefix + ":" + actor[i + 1..];
      TypeIsPrefix(actor, i, USER);
      TypeIsPrefix(actor, i, SERVICE);
      if LoggedActor(actor) == actor && prefix != USER {
        assert |SERVICE| == i;
        assert prefix == (SERVICE + ":" + actor[i + 1..])[..i] == SERVICE;
      }
    } else {
      assert |LoggedActor(actor)| > |actor|;
      TypeNeedsColon(actor, USER);
      TypeNeedsColon(actor, SERVICE);
    }
  }

  /**
   * What is logged for any link: `user:` and the id for a user, `service:` and the id for any other
   * type before a first colon, `service:` and the whole actor when there is no type.
   */
  lemma LoggedActorOf(principalType: string, id: string)
    requires ':' !in principalType
    ensures principalType == "user" ==> LoggedActor(principalType + ":" + id) == "user:" + id
    ensures principalType != "user" && principalType != "" ==> LoggedActor(principalType + ":" + id) == "service:" + id
    ensures LoggedActor(principalType) == "service:" + principalType
    ensures LoggedActor(":" + id) == "service::" + id
  {
    var actor := principalType + ":" + id;
    var n := |principalType|;
    assert actor[n] == ':' && forall k | 0 <= k < n :: actor[k] == principalType[k];
    assert IndexOfColon(actor) == n && actor[..n] == principalType && actor[n + 1..] == id;
    assert (":" + id)[0] == ':';
    assert "service" + ":" == "service:" && "user" + ":" == "user:";
    assert "service:" + (":" + id) == "service::" + id;
  }

  lemma TypeNeedsColon(actor: string, principalType: string)
    requires principalType == USER || principalType == SERVICE
    ensures HasType(actor, principalType) ==> IndexOfColon(actor) > 0
  {
    var n := |principalType|;
    if HasType(actor, principalType) {
      assert actor[n] == (principalType + ":")[n] == ':';
      assert actor[0] == (principalType + ":")[0] != ':';
    }
  }

  /** An actor has a colon-free type exactly when that is what stands before its first colon. */
  lemma TypeIsPrefix(actor: string, i: nat, principalType: string)
    requires i == IndexOfColon(actor)
    requires principalType == USER || principalType == SERVICE
    ensures HasType(actor, principalType) <==> actor[..i] == principalType
  {
    var n := |principalType|;
    if HasType(actor, principalType) {
      assert actor[n] == (principalType + ":")[n] == ':';
      assert forall k | 0 <= k < n :: actor[k] == (principalType + ":")[k] && principalType[k] != ':';
      assert i == n;
      assert actor[..n] == (principalType + ":")[..n] == principalType;
    }
    if actor[..i] == principalType {
      assert actor[..i + 1] == actor[..i] + ":";
    }
  }

  // ---- one submission ----

  const RESPOND := "respond"
  const REASON := "submitted via presigned link"

  /** The claims of a verified token. */
  datatype Claims = Claims(itemID: Id, actor: string, scope: string)

  datatype Reply = Submitted | BadLink | ViewOnly | Refused(error: Error)

  function CloseOf(c: Claims): Op {
    CloseItem(c.itemID, LoggedActor(c.actor), REASON)
  }

  /** A post closes the item; that it was terminal already is no error. */
  function Post(claims: Option<Claims>, rows: Store, now: Time): (Reply, Store) {
    if claims.None? then (BadLink, rows)
    else if claims.value.scope != RESPOND then (ViewOnly, rows)
    else
      var r := Alone(CloseOf(claims.value), rows, Now(now));
      (if r.0.Failed? && r.0.error != TerminalStatus then Refused(r.0.error) else Submitted, r.1)
  }

  class Handler {
    const inbox: Inbox

    constructor (inbox: Inbox)
      ensures this.inbox == inbox
    {
      this.inbox := inbox;
    }

    /** `claims` is what the verifier made of the posted token, None when it refused it. */
    method HandlePost(claims: Option<Claims>, now: Time) returns (reply: Reply)
      modifies inbox.es
      ensures (reply, inbox.es.rows) == Post(claims, old(inbox.es.rows), now)
    {
      if claims.None? {
        return BadLink;
      }
      var c := claims.value;
      if c.scope != RESPOND {
        return ViewOnly;
      }
      var pt := SERVICE;
      var pid := c.actor;
      var i := IndexOfColon(c.actor);
      if i > 0 {
        var prefix := c.actor[..i];
        pid := c.actor[i + 1..];
        if prefix == USER {
          pt := USER;
        }
      }
      var r := inbox.Close(c.itemID, ActorOf(pt, pid), REASON, now);
      if r.Failed? && r.error != TerminalStatus {
        return Refused(r.error);
      }
      return Submitted;
    }
  }

  // ---- many submissions, with anything in between ----

  /** What happens one at a time: a valid post for the item, or any other call on any item. */
  datatype Act = Submit(actor: string, at: Time) | Else(op: Op, moment: Moment)

  function ClaimsOf(a: Act, x: Id): Claims
    requires a.Submit?
  {
    Claims(x, a.actor, RESPOND)
  }

  function Do(a: Act, x: Id, rows: Store): Store {
    if a.Submit? then Post(Some(ClaimsOf(a, x)), rows, a.at).1 else Alone(a.op, rows, a.moment).1
  }

  function Afterwards(acts: seq<Act>, x: Id, rows: Store): Store {
    if acts == [] then rows else Do(acts[|acts| - 1], x, Afterwards(acts[..|acts| - 1], x, rows))
  }

  /** The submissions that changed the store. */
  function Closings(acts: seq<Act>, x: Id, rows: Store): nat {
    if acts == [] then 0
    else
      var front, last := acts[..|acts| - 1], acts[|acts| - 1];
      var before := Afterwards(front, x, rows);
      Closings(front, x, rows) + (if last.Submit? && Do(last, x, before) != before then 1 else 0)
  }

  /** Every submission is answered with success. */
  predicate AllSubmitted(acts: seq<Act>, x: Id, rows: Store) {
    acts == [] ||
    var front, last := acts[..|acts| - 1], acts[|acts| - 1];
    && AllSubmitted(front, x, rows)
    && (last.Submit? ==> Post(Some(ClaimsOf(last, x)), Afterwards(front, x, rows), last.at).0 == Submitted)
  }

  /** The ItemClosed events in the log of x. */
  function ClosedEvents(rows: Store, x: Id): nat {
    if x in rows then Count(rows[x].doc.events, Closed) else 0
  }

  /** No caller's own event on x uses the name of ItemClosed. */
  predicate NoForgedClose(op: Op, x: Id) {
    op.AddEvent? && op.id == x ==> KindOf(op.event.dataType) != Closed
  }

  predicate Terminal(rows: Store, x: Id) {
    x in rows && IsTerminal(rows[x].doc.status)
  }

  /** A valid post for an existing item succeeds; it appends one ItemClosed or changes nothing at all. */
  lemma PostSucceeds(c: Claims, rows: Store, now: Time)
    requires c.scope == RESPOND && IsInboxSlot(Lookup(rows, c.itemID))
    ensures var (reply, rows') := Post(Some(c), rows, now);
      && reply == Submitted
      && IsInboxSlot(Lookup(rows', c.itemID)) && Terminal(rows', c.itemID)
      && (Terminal(rows, c.itemID) ==> rows' == rows)
      && (!Terminal(rows, c.itemID) ==>
            var closed := Stamped(NewEvent(LoggedActor(c.actor), "", ItemClosed(LoggedActor(c.actor), REASON)), now);
            && rows' != rows
            && rows'[c.itemID].doc.status == CLOSED
            && rows'[c.itemID].doc.events == rows[c.itemID].doc.events + [closed]
            && rows' == rows[c.itemID := rows'[c.itemID]])
  {
  }

  /**
   * Any post at all. It changes the store exactly when the token was verified, its scope is respond and
   * the item is stored and open or claimed. It is answered with success exactly when the token was
   * verified, its scope is respond and the item is stored; and otherwise with the reason.
   */
  lemma PostDecides(claims: Option<Claims>, rows: Store, now: Time)
    ensures var (reply, rows') := Post(claims, rows, now);
      var respond := claims.Some? && claims.value.scope == "respond";
      var stored := claims.Some? && claims.value.itemID in rows && rows[claims.value.itemID].entityType == "inbox.v1.Item";
      && (rows' != rows <==> respond && stored && rows[claims.value.itemID].doc.status in ["open", "claimed"])
      && (reply == Submitted <==> respond && stored)
      && (reply == BadLink <==> claims.None?)
      && (reply == ViewOnly <==> claims.Some? && !respond)
      && (reply == Refused(NotFound) <==> respond && !stored)
      && (rows' != rows ==>
            var (id, actor) := (claims.value.itemID, LoggedActor(claims.value.actor));
            && rows' == rows[id := rows'[id]] && rows'[id].doc.status == "closed"
            && rows'[id].doc.events == rows[id].doc.events +
                 [Event(Some(now), actor, "", "inbox.v1.ItemClosed", ItemClosed(actor, "submitted via presigned link"))])
  {
    if claims.Some? && claims.value.scope == RESPOND && IsInboxSlot(Lookup(rows, claims.value.itemID)) {
      PostSucceeds(claims.value, rows, now);
    }
  }

  /** Calls one at a time keep an item and, once terminal, keep it so. */
  lemma AloneKeepsTerminal(op: Op, rows: Store, at: Moment, x: Id)
    requires IsInboxSlot(Lookup(rows, x))
    ensures var rows' := Alone(op, rows, at).1;
      IsInboxSlot(Lookup(rows', x)) && (Terminal(rows, x) ==> Terminal(rows', x))
  {
    WholeRefines(op, Lookup(rows, op.id), at);
    AloneIsLocal(op, rows, at, NO_FAULTS);
  }

  /** Only a close makes an item terminal. */
  lemma OnlyCloseTerminates(op: Op, rows: Store, at: Moment, x: Id)
    requires IsInboxSlot(Lookup(rows, x)) && !Terminal(rows, x)
    requires !(op.CloseItem? && op.id == x)
    ensures !Terminal(Alone(op, rows, at).1, x)
  {
    WholeRefines(op, Lookup(rows, op.id), at);
    AloneIsLocal(op, rows, at, NO_FAULTS);
  }

  /** A call on an item leaves its document or appends its event and moves the status. */
  lemma WholeAppends(op: Op, slot: Option<Entity>, at: Moment)
    requires IsInboxSlot(slot)
    ensures var slot' := Whole(op, slot, at, NO_FAULTS).1;
      && IsInboxSlot(slot')
      && var (doc, doc') := (slot.value.doc, slot'.value.doc);
         doc' == doc || ((IsTransition(op) || IsEventOnly(op)) && Check(op, doc.status) == None
                         && doc'.events == doc.events + [Stamped(EventOf(op), at.stamp)]
                         && doc'.status == StatusAfter(op, doc.status))
  {
    hide TagsAfter, EventOf;
  }

  /** One call counts as a close in the log exactly when it makes the item terminal. */
  lemma AloneCounts(op: Op, rows: Store, at: Moment, x: Id)
    requires IsInboxSlot(Lookup(rows, x)) && NoForgedClose(op, x)
    ensures var rows' := Alone(op, rows, at).1;
      ClosedEvents(rows', x) == ClosedEvents(rows, x) + (if Terminal(rows', x) && !Terminal(rows, x) then 1 else 0)
  {
    hide Whole, EventOf, TagsAfter;
    AloneIsLocal(op, rows, at, NO_FAULTS);
    if op.id == x {
      WholeAppends(op, Lookup(rows, x), at);
      if IsTransition(op) || IsEventOnly(op) {
        KindAppended(op, at.stamp);
        CountSnoc(rows[x].doc.events, Stamped(EventOf(op), at.stamp), Closed);
      }
    }
  }

  /** The same of a submission: its post is a close. */
  lemma SubmitCounts(a: Act, rows: Store, x: Id)
    requires a.Submit? && IsInboxSlot(Lookup(rows, x))
    ensures ClosedEvents(Do(a, x, rows), x) == ClosedEvents(rows, x) + (if Terminal(rows, x) then 0 else 1)
    ensures Terminal(Do(a, x, rows), x) && IsInboxSlot(Lookup(Do(a, x, rows), x))
    ensures Do(a, x, rows) != rows <==> !Terminal(rows, x)
    ensures Post(Some(ClaimsOf(a, x)), rows, a.at).0 == Submitted
  {
    hide Alone;
    PostSucceeds(ClaimsOf(a, x), rows, a.at);
    AloneCounts(CloseOf(ClaimsOf(a, x)), rows, Now(a.at), x);
  }

  /**
   * Any number of valid submissions for an existing item, with any other calls in between, one at a
   * time: the item stays and every submission succeeds; at most one appends its ItemClosed, none if
   * the item was terminal at the start, and exactly one if it was not, somebody submitted and nobody
   * else closed it. Unless a caller forges the event, the log counts it too: submissions and other
   * closes together append one ItemClosed if the item became terminal and none otherwise.
   */
  lemma {:induction false} SubmissionsCloseOnce(acts: seq<Act>, x: Id, rows: Store)
    requires IsInboxSlot(Lookup(rows, x))
    ensures var rows' := Afterwards(acts, x, rows);
      && IsInboxSlot(Lookup(rows', x))
      && AllSubmitted(acts, x, rows)
      && Closings(acts, x, rows) <= 1
      && (Terminal(rows, x) ==> Terminal(rows', x) && Closings(acts, x, rows) == 0)
      && (Closings(acts, x, rows) == 1 ==> Terminal(rows', x))
      && (!Terminal(rows, x) && (forall a | a in acts && a.Else? :: !(a.op.CloseItem? && a.op.id == x)) ==>
            && (Terminal(rows', x) <==> Closings(acts, x, rows) == 1)
            && (Closings(acts, x, rows) == 1 <==> exists a | a in acts :: a.Submit?))
      && ((forall a | a in acts && a.Else? :: NoForgedClose(a.op, x)) ==>
            ClosedEvents(rows', x) == ClosedEvents(rows, x) + (if Terminal(rows', x) && !Terminal(rows, x) then 1 else 0))
    decreases |acts|
  {
    if acts != [] {
      hide ClosedEvents, NoForgedClose, Post, Alone;
      var front, last := acts[..|acts| - 1], acts[|acts| - 1];
      assert acts == front + [last] && last in acts;
      assert forall a :: a in acts <==> a in front || a == last;
      SubmissionsCloseOnce(front, x, rows);
      var before := Afterwards(front, x, rows);
      if last.Submit? {
        SubmitCounts(last, before, x);
      } else {
        AloneKeepsTerminal(last.op, before, last.moment, x);
        if NoForgedClose(last.op, x) {
          AloneCounts(last.op, before, last.moment, x);
        }
        if !Terminal(before, x) && !(last.op.CloseItem? && last.op.id == x) {
          OnlyCloseTerminates(last.op, before, last.moment, x);
        }
      }
    }
  }
}
