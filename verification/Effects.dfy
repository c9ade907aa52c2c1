/**
 * What each call does, made alone, in the words of its callers: the tags that stay and go, the one
 * event appended, the rest of the entity untouched. Statuses, keys and type names stand as literals.
 */
module Effects {
  import opened Types
  import opened Protocol
  import opened Serial
  import Tokenizer

  /** An inbox item is stored under the id, with this status. */
  predicate Stored(rows: Store, id: Id) {
    id in rows && rows[id].entityType == "inbox.v1.Item"
  }

  predicate StoredAs(rows: Store, id: Id, status: string) {
    Stored(rows, id) && rows[id].doc.status == status
  }

  /** Everything of a document but its status and its log. */
  predicate SameText(d: Doc, d': Doc) {
    && d'.idempotencyKey == d.idempotencyKey && d'.title == d.title && d'.description == d.description
    && d'.deadline == d.deadline && d'.payloadType == d.payloadType && d'.payload == d.payload
  }

  /** The event as it stands in the log: stamped now unless its caller preset a time. */
  predicate IsLogged(e: Event, at: Option<Time>, stamp: Time, actor: string, detail: string, dataType: string, data: Data) {
    && e.at == Some(if at.Some? then at.value else stamp)
    && e.actor == actor && e.detail == detail && e.dataType == dataType && e.data == data
  }

  /**
   * The call wrote the item and returned what it wrote: one entity changed, and of it the status, one
   * more event, the tags and the time of the update; the returned item carries the times it was read with.
   */
  predicate WroteOneEvent(rows: Store, id: Id, r: (Outcome, Store), status: string, at: Moment) {
    && Stored(rows, id) && id in r.1 && r.1 == rows[id := r.1[id]]
    && var (e, e') := (rows[id], r.1[id]);
       && e'.entityType == e.entityType && e'.tokens == e.tokens && e'.createdAt == e.createdAt && e'.updatedAt == at.now
       && SameText(e.doc, e'.doc) && e'.doc.status == status
       && |e'.doc.events| == |e.doc.events| + 1 && e'.doc.events[..|e.doc.events|] == e.doc.events
  }

  predicate ReturnedWritten(rows: Store, id: Id, r: (Outcome, Store)) {
    && id in rows && id in r.1
    && r.0 == Returned(Item(id, r.1[id].doc, r.1[id].tags, rows[id].createdAt, rows[id].updatedAt))
  }

  function LastEvent(r: (Outcome, Store), id: Id): Event
    requires id in r.1 && r.1[id].doc.events != []
  {
    r.1[id].doc.events[|r.1[id].doc.events| - 1]
  }

  // ---- creating and getting ----

  /**
   * Create under a fresh id: one open item with exactly the caller's content, one ItemCreated event by
   * the caller, and exactly the caller's tags except those under the status key, plus status:open.
   */
  lemma CreateStores(rows: Store, id: Id, actor: string, meta: Meta, at: Moment)
    requires id !in rows
    ensures var r := Alone(CreateItem(id, actor, meta), rows, at);
      && id in r.1 && r.1 == rows[id := r.1[id]]
      && var e := r.1[id];
         && r.0 == Returned(Item(id, e.doc, e.tags, at.stamp, at.stamp))
         && e.entityType == "inbox.v1.Item" && e.createdAt == e.updatedAt == at.now
         && e.doc.status == "open" && e.doc.title == meta.title && e.doc.description == meta.description
         && e.doc.deadline == meta.deadline && e.doc.idempotencyKey == meta.idempotencyKey
         && |e.doc.events| == 1
         && IsLogged(e.doc.events[0], None, at.stamp, actor, "", "inbox.v1.ItemCreated", ItemCreated(e.doc.payloadType))
         && forall t: Tag :: t in e.tags <==> t == Tag("status", "open") || (t.key != "status" && t in meta.tags)
  {
  }

  /** A packed payload goes before a message, and a message is stored under its own name. */
  lemma CreateStoresPayload(rows: Store, id: Id, actor: string, meta: Meta, at: Moment)
    requires id !in rows
    ensures var doc := Alone(CreateItem(id, actor, meta), rows, at).1[id].doc;
      && (meta.payloadAny.Some? ==> doc.payload == meta.payloadAny && doc.payloadType == meta.payloadTypeName)
      && (meta.payloadAny.None? && meta.payload.Some? ==>
            doc.payload == Some(meta.payload.value.blob) && doc.payloadType == meta.payload.value.name)
      && (meta.payloadAny.None? && meta.payload.None? ==> doc.payload == None && doc.payloadType == "")
  {
  }

  /** The index has the tokens of title and description under those names, and nothing else. */
  lemma CreateIndexes(rows: Store, id: Id, actor: string, meta: Meta, at: Moment)
    requires id !in rows
    ensures var tokens := Alone(CreateItem(id, actor, meta), rows, at).1[id].tokens;
      && (forall k | k in tokens :: k == "title" || k == "description")
      && (if Tokenizer.Tokens(meta.title) == [] then "title" !in tokens
          else "title" in tokens && tokens["title"] == Tokenizer.Tokens(meta.title))
      && (if Tokenizer.Tokens(meta.description) == [] then "description" !in tokens
          else "description" in tokens && tokens["description"] == Tokenizer.Tokens(meta.description))
  {
    assert "title"[0] != "description"[0];
  }

  /** Create under an id in use changes nothing and is an error. */
  lemma CreateIsRefused(rows: Store, id: Id, actor: string, meta: Meta, at: Moment)
    requires id in rows
    ensures Alone(CreateItem(id, actor, meta), rows, at) == (Failed(Other), rows)
  {
  }

  /** Get returns the item as it is stored, or not-found when nothing or something else is, and changes nothing. */
  lemma GetReads(rows: Store, id: Id, at: Moment)
    ensures Alone(GetItem(id), rows, at) ==
      (if Stored(rows, id) then Returned(Item(id, rows[id].doc, rows[id].tags, rows[id].createdAt, rows[id].updatedAt))
       else Failed(NotFound), rows)
  {
  }

  // ---- transitions ----

  /** Claim keeps every tag outside the status key and adds status:claimed and the claimer's assignee tag. */
  lemma ClaimMoves(rows: Store, id: Id, actor: string, at: Moment)
    requires StoredAs(rows, id, "open")
    ensures var r := Alone(ClaimItem(id, actor, true), rows, at);
      && WroteOneEvent(rows, id, r, "claimed", at) && ReturnedWritten(rows, id, r)
      && IsLogged(LastEvent(r, id), None, at.stamp, actor, "", "inbox.v1.ItemClaimed", ItemClaimed(actor))
      && forall t: Tag :: t in r.1[id].tags <==>
           t == Tag("status", "claimed") || t == Tag("assignee", actor) || (t.key != "status" && t in rows[id].tags)
  {
  }

  /** Release keeps every tag outside the status and assignee keys and adds status:open. */
  lemma ReleaseMoves(rows: Store, id: Id, actor: string, at: Moment)
    requires StoredAs(rows, id, "claimed")
    ensures var r := Alone(ReleaseItem(id, actor), rows, at);
      && WroteOneEvent(rows, id, r, "open", at) && ReturnedWritten(rows, id, r)
      && IsLogged(LastEvent(r, id), None, at.stamp, actor, "", "inbox.v1.ItemReleased", ItemReleased(actor))
      && forall t: Tag :: t in r.1[id].tags <==>
           t == Tag("status", "open") || (t.key != "status" && t.key != "assignee" && t in rows[id].tags)
  {
  }

  /** Close keeps every tag outside the status key, the assignee's included, and adds status:closed. */
  lemma CloseMoves(rows: Store, id: Id, actor: string, reason: string, at: Moment)
    requires StoredAs(rows, id, "open") || StoredAs(rows, id, "claimed")
    ensures var r := Alone(CloseItem(id, actor, reason), rows, at);
      && WroteOneEvent(rows, id, r, "closed", at) && ReturnedWritten(rows, id, r)
      && IsLogged(LastEvent(r, id), None, at.stamp, actor, "", "inbox.v1.ItemClosed", ItemClosed(actor, reason))
      && forall t: Tag :: t in r.1[id].tags <==> t == Tag("status", "closed") || (t.key != "status" && t in rows[id].tags)
  {
  }

  /** In any other status, and on anything but an inbox item, the three change nothing and say why. */
  lemma TransitionsAreRefused(rows: Store, id: Id, actor: string, reason: string, at: Moment)
    ensures !StoredAs(rows, id, "open") ==>
      Alone(ClaimItem(id, actor, true), rows, at) == (Failed(if Stored(rows, id) then InvalidTransition else NotFound), rows)
    ensures Alone(ClaimItem(id, actor, false), rows, at) == (Failed(Other), rows)
    ensures !StoredAs(rows, id, "claimed") ==>
      Alone(ReleaseItem(id, actor), rows, at) == (Failed(if Stored(rows, id) then InvalidTransition else NotFound), rows)
    ensures !StoredAs(rows, id, "open") && !StoredAs(rows, id, "claimed") ==>
      Alone(CloseItem(id, actor, reason), rows, at) == (Failed(if Stored(rows, id) then TerminalStatus else NotFound), rows)
  {
  }

  // ---- events without a transition ----

  /** AddEvent appends the caller's event, stamped unless it has a time, and leaves status and tags. */
  lemma AddEventAppends(rows: Store, id: Id, event: Event, at: Moment)
    ensures var r := Alone(Op.AddEvent(id, event), rows, at);
      if Stored(rows, id) then
        && WroteOneEvent(rows, id, r, rows[id].doc.status, at) && ReturnedWritten(rows, id, r)
        && IsLogged(LastEvent(r, id), event.at, at.stamp, event.actor, event.detail, event.dataType, event.data)
        && r.1[id].tags == rows[id].tags
      else r == (Failed(NotFound), rows)
  {
  }

  /** Comment is such an event, by the caller, with the body as detail and the whole comment as data. */
  lemma CommentAppends(rows: Store, id: Id, actor: string, body: string, visibility: seq<string>, refs: seq<string>, at: Moment)
    requires Stored(rows, id)
    ensures var r := Alone(CommentOn(id, actor, body, visibility, refs), rows, at);
      && WroteOneEvent(rows, id, r, rows[id].doc.status, at) && ReturnedWritten(rows, id, r)
      && IsLogged(LastEvent(r, id), None, at.stamp, actor, body, "inbox.v1.CommentAppended", CommentAppended(body, visibility, refs))
      && r.1[id].tags == rows[id].tags
  {
    AddEventAppends(rows, id, CommentOn(id, actor, body, visibility, refs).event, at);
  }

  /**
   * A Reassign whose actors are accepted takes the old assignee's tag away, if it names one, then adds
   * the new one's, if it names one, and appends one ItemReassigned that says who, whom and why.
   */
  lemma ReassignMoves(rows: Store, id: Id, actor: string, from: string, to: string, reason: string, at: Moment)
    requires Stored(rows, id)
    ensures var r := Alone(ReassignItem(id, actor, from, to, true, true, reason), rows, at);
      && WroteOneEvent(rows, id, r, rows[id].doc.status, at) && ReturnedWritten(rows, id, r)
      && IsLogged(LastEvent(r, id), None, at.stamp, actor, reason, "inbox.v1.ItemReassigned", ItemReassigned(from, to, reason))
      && forall t: Tag :: t in r.1[id].tags <==>
           || (to != "" && t == Tag("assignee", to))
           || (t in rows[id].tags && !(from != "" && t == Tag("assignee", from)))
  {
  }

  /** The tags, each with a plus sign, separated by commas. */
  function PlusList(tags: seq<Tag>): string {
    if tags == [] then "+"
    else "+" + tags[0].key + ":" + tags[0].value + (if |tags| == 1 then "" else ", " + PlusList(tags[1..]))
  }

  lemma {:induction false} JoinedIsPlusList(tags: seq<Tag>)
    ensures "+" + JoinTags(tags, ", +") == PlusList(tags)
    decreases |tags|
  {
    if |tags| > 1 {
      JoinedIsPlusList(tags[1..]);
      var first, rest := tags[0].key + ":" + tags[0].value, JoinTags(tags[1..], ", +");
      assert ", +" + rest == ", " + ("+" + rest);
      assert "+" + (first + ", +" + rest) == "+" + first + (", +" + rest);
      assert "+" + first == "+" + tags[0].key + ":" + tags[0].value;
    } else if |tags| == 1 {
      assert "+" + (tags[0].key + ":" + tags[0].value) == "+" + tags[0].key + ":" + tags[0].value;
      assert PlusList(tags) == "+" + tags[0].key + ":" + tags[0].value + "";
    }
  }

  /**
   * Tag adds the tags and reports only that: an error, and no change, when there is no such entity.
   * On an inbox item it also appends one TagsChanged with the tags it added.
   */
  lemma TagAdds(rows: Store, id: Id, actor: string, added: seq<Tag>, at: Moment)
    ensures var r := Alone(Op.TagItem(id, actor, added), rows, at);
      && (id !in rows ==> r == (Failed(Other), rows))
      && (id in rows ==>
            && r.0 == Changed && id in r.1
            && forall t: Tag :: t in r.1[id].tags <==> t in rows[id].tags || t in added)
      && (Stored(rows, id) ==>
            && WroteOneEvent(rows, id, r, rows[id].doc.status, at)
            && IsLogged(LastEvent(r, id), None, at.stamp, actor, PlusList(added), "inbox.v1.TagsChanged", TagsChanged(added, [])))
      && (id in rows && !Stored(rows, id) ==> r.1 == rows[id := rows[id].(tags := r.1[id].tags)])
  {
    JoinedIsPlusList(added);
  }

  /** Untag removes the tag, in the same way. */
  lemma UntagRemoves(rows: Store, id: Id, actor: string, removed: Tag, at: Moment)
    ensures var r := Alone(Op.UntagItem(id, actor, removed), rows, at);
      && (id !in rows ==> r == (Failed(Other), rows))
      && (id in rows ==>
            && r.0 == Changed && id in r.1
            && forall t: Tag :: t in r.1[id].tags <==> t in rows[id].tags && t != removed)
      && (Stored(rows, id) ==>
            && WroteOneEvent(rows, id, r, rows[id].doc.status, at)
            && IsLogged(LastEvent(r, id), None, at.stamp, actor, "-" + removed.key + ":" + removed.value,
                        "inbox.v1.TagsChanged", TagsChanged([], [removed])))
      && (id in rows && !Stored(rows, id) ==> r.1 == rows[id := rows[id].(tags := r.1[id].tags)])
  {
    assert "-" + (removed.key + ":" + removed.value) == "-" + removed.key + ":" + removed.value;
  }

  // ---- store calls that fail ----

  /**
   * A fetch or a write that fails leaves every document as it was; the call is an error, except that
   * Tag and Untag, their tag change made, still report success.
   */
  lemma FailingStoreKeepsDocuments(rows: Store, op: Op, at: Moment, f: Faults)
    requires (f.fetching && !op.CreateItem?) || (f.writing && !op.GetItem?)
    ensures var r := AloneUnder(op, rows, at, f);
      && r.1.Keys == rows.Keys
      && (forall x | x in rows :: r.1[x].doc == rows[x].doc)
      && (if op.TagItem? || op.UntagItem? then
            r.0 == if op.id in rows && !(if op.TagItem? then f.adding else f.removing) then Changed else Failed(Other)
          else r.0.Failed?)
      && (f.fetching && (IsTransition(op) || op.AddEvent? || op.GetItem?) && !(op.ClaimItem? && !op.tagOk) ==>
            r == (Failed(NotFound), rows))
      && (f.writing && (op.CreateItem? || (op.AddEvent? && Stored(rows, op.id) && !f.fetching)) ==> r == (Failed(Other), rows))
  {
  }
}
