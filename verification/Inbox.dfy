/**
 * The serial API: the Inbox object over the store object it writes, each method proved to do
 * exactly what its program of store calls does when nothing else runs.
 */
module Api {
  import opened Types
  import opened Protocol
  import opened Serial
  import Tokenizer

  /** The part of the entity store the inbox uses. Every call is atomic and, here, does not fail. */
  class EntityStore {
    var rows: Store

    constructor ()
      ensures rows == map[]
    {
      rows := map[];
    }

    method GetEntity(id: Id) returns (e: Option<Entity>)
      ensures e == Lookup(rows, id)
    {
      e := if id in rows then Some(rows[id]) else None;
    }

    /** An update replaces the data; tags only when given; tokens never. */
    method WriteUpdate(id: Id, data: Doc, tags: Option<TagSet>, now: Time) returns (ok: bool)
      modifies this
      ensures ok == (id in old(rows))
      ensures !ok ==> rows == old(rows)
      ensures ok ==>
        var e := old(rows)[id];
        rows == old(rows)[id := e.(doc := data, tags := if tags.Some? then tags.value else e.tags, updatedAt := now)]
    {
      ok := id in rows;
      if ok {
        var e := rows[id].(doc := data, updatedAt := now);
        if tags.Some? {
          e := e.(tags := tags.value);
        }
        rows := rows[id := e];
      }
    }

    method WriteCreate(id: Id, data: Doc, tags: TagSet, tokens: TokenIndex, now: Time) returns (ok: bool)
      modifies this
      ensures ok == (id !in old(rows))
      ensures rows == if ok then old(rows)[id := Entity(ENTITY_TYPE, data, tags, tokens, now, now)] else old(rows)
    {
      ok := id !in rows;
      if ok {
        rows := rows[id := Entity(ENTITY_TYPE, data, tags, tokens, now, now)];
      }
    }

    method AddTags(id: Id, tags: seq<Tag>) returns (ok: bool)
      modifies this
      ensures ok == (id in old(rows))
      ensures rows == Put(old(rows), id, Tagged(Lookup(old(rows), id), ToSet(tags)))
    {
      ok := id in rows;
      if ok {
        rows := rows[id := rows[id].(tags := rows[id].tags + ToSet(tags))];
      }
    }

    method RemoveTag(id: Id, tag: Tag) returns (ok: bool)
      modifies this
      ensures ok == (id in old(rows))
      ensures rows == Put(old(rows), id, Untagged(Lookup(old(rows), id), {tag}))
    {
      ok := id in rows;
      if ok {
        rows := rows[id := rows[id].(tags := rows[id].tags - {tag})];
      }
    }
  }

  /** A call that reads the clock once. */
  function Now(now: Time): Moment {
    Moment(now, now)
  }

  /** Two writes to one slot are one write of what the slot holds at the end. */
  lemma PutTwice(before: Store, between: Store, after: Store, id: Id)
    requires forall x | x != id :: Lookup(between, x) == Lookup(before, x)
    requires forall x | x != id :: Lookup(after, x) == Lookup(between, x)
    requires id in before ==> id in after
    ensures after == Put(before, id, Lookup(after, id))
  {
    SameStore(after, Put(before, id, Lookup(after, id)));
  }

  /** The status tag set, then any extra tags merged in. */
  function TransitionTags(tags: TagSet, toStatus: string, extraTags: TagSet): TagSet {
    if extraTags == {} then With(tags, STATUS, toStatus) else Merge(With(tags, STATUS, toStatus), extraTags)
  }

  /**
   * The inbox. `now` is the reading of the clock during the call; the flags say whether the tags
   * library accepts an actor as a tag value.
   */
  class Inbox {
    const es: EntityStore

    constructor (es: EntityStore)
      ensures this.es == es
    {
      this.es := es;
    }

    method Get(itemID: Id) returns (r: Outcome)
      ensures r == Whole(GetItem(itemID), Lookup(es.rows, itemID), Now(0), NO_FAULTS).0
    {
      var e := es.GetEntity(itemID);
      if e.None? {
        return Failed(NotFound);
      }
      if e.value.entityType != ENTITY_TYPE {
        return Failed(NotFound);
      }
      return Returned(ItemOf(itemID, e.value));
    }

    method Create(id: Id, actor: string, meta: Meta, now: Time) returns (r: Outcome)
      modifies es
      ensures (r, es.rows) == Alone(CreateItem(id, actor, meta), old(es.rows), Now(now))
    {
      var payload: Option<string>;
      var payloadType: string;
      if meta.payloadAny.Some? {
        payload := meta.payloadAny;
        payloadType := meta.payloadTypeName;
      } else if meta.payload.Some? {
        payload := Some(meta.payload.value.blob);
        payloadType := meta.payload.value.name;
      } else {
        payload := None;
        payloadType := "";
      }
      var created := NewEvent(actor, "", ItemCreated(payloadType));
      created := created.(at := Some(now));
      var tags := With(meta.tags, STATUS, OPEN);
      var p := Doc(meta.idempotencyKey, meta.title, meta.description, OPEN, meta.deadline, payloadType, payload, [created]);
      var tokens := Tokenizer.BuildTokens(p.title, p.description);
      var ok := es.WriteCreate(id, p, tags, tokens, now);
      if !ok {
        return Failed(Other);
      }
      return Returned(Item(id, p, tags, now, now));
    }

    method Claim(itemID: Id, actor: string, tagOk: bool, now: Time) returns (r: Outcome)
      modifies es
      ensures (r, es.rows) == Alone(ClaimItem(itemID, actor, tagOk), old(es.rows), Now(now))
    {
      if !tagOk {
        return Failed(Other);
      }
      var event := NewEvent(actor, "", ItemClaimed(actor));
      r := Transition(itemID, OPEN, CLAIMED, event, {Tag(ASSIGNEE, actor)}, now);
    }

    method Release(itemID: Id, actor: string, now: Time) returns (r: Outcome)
      modifies es
      ensures (r, es.rows) == Alone(ReleaseItem(itemID, actor), old(es.rows), Now(now))
    {
      var event := NewEvent(actor, "", ItemReleased(actor));
      r := Get(itemID);
      if r.Failed? {
        return;
      }
      var item := r.item;
      if item.doc.status != CLAIMED {
        return Failed(InvalidTransition);
      }
      item := item.(tags := Without(item.tags, ASSIGNEE));
      r := DoTransition(item, OPEN, event, {}, now);
    }

    method Close(itemID: Id, actor: string, reason: string, now: Time) returns (r: Outcome)
      modifies es
      ensures (r, es.rows) == Alone(CloseItem(itemID, actor, reason), old(es.rows), Now(now))
    {
      var event := NewEvent(actor, "", ItemClosed(actor, reason));
      r := Get(itemID);
      if r.Failed? {
        return;
      }
      if IsTerminal(r.item.doc.status) {
        return Failed(TerminalStatus);
      }
      r := DoTransition(r.item, CLOSED, event, {}, now);
    }

    method Transition(itemID: Id, fromStatus: string, toStatus: string, event: Event, extraTags: TagSet, now: Time)
      returns (r: Outcome)
      modifies es
      ensures !IsInboxSlot(Lookup(old(es.rows), itemID)) ==> r == Failed(NotFound) && es.rows == old(es.rows)
      ensures IsInboxSlot(Lookup(old(es.rows), itemID)) ==>
        var e := old(es.rows)[itemID];
        if e.doc.status != fromStatus then r == Failed(InvalidTransition) && es.rows == old(es.rows)
        else
          var doc := e.doc.(status := toStatus, events := e.doc.events + [Stamped(event, now)]);
          var tags := TransitionTags(e.tags, toStatus, extraTags);
          && r == Returned(Item(itemID, doc, tags, e.createdAt, e.updatedAt))
          && es.rows == old(es.rows)[itemID := e.(doc := doc, tags := tags, updatedAt := now)]
    {
      r := Get(itemID);
      if r.Failed? {
        return;
      }
      if r.item.doc.status != fromStatus {
        return Failed(InvalidTransition);
      }
      r := DoTransition(r.item, toStatus, event, extraTags, now);
    }

    /** Writes status, event and tags in one call; the written tags are those of the item handed in. */
    method DoTransition(item0: Item, toStatus: string, event: Event, extraTags: TagSet, now: Time)
      returns (r: Outcome)
      modifies es
      ensures var doc := item0.doc.(status := toStatus, events := item0.doc.events + [Stamped(event, now)]);
        var tags := TransitionTags(item0.tags, toStatus, extraTags);
        if item0.id in old(es.rows) then
          && r == Returned(item0.(doc := doc, tags := tags))
          && es.rows == old(es.rows)[item0.id := old(es.rows)[item0.id].(doc := doc, tags := tags, updatedAt := now)]
        else r == Failed(Other) && es.rows == old(es.rows)
    {
      var item := item0;
      item := item.(doc := item.doc.(status := toStatus));
      var evt := event;
      if evt.at == None {
        evt := evt.(at := Some(now));
      }
      item := item.(doc := item.doc.(events := item.doc.events + [evt]));
      item := item.(tags := With(item.tags, STATUS, toStatus));
      if extraTags != {} {
        item := item.(tags := Merge(item.tags, extraTags));
      }
      var ok := es.WriteUpdate(item.id, item.doc, Some(item.tags), now);
      if !ok {
        return Failed(Other);
      }
      return Returned(item);
    }

    method AddEvent(itemID: Id, event: Event, now: Time) returns (r: Outcome)
      modifies es
      ensures (r, es.rows) == Alone(Op.AddEvent(itemID, event), old(es.rows), Now(now))
    {
      r := Get(itemID);
      if r.Failed? {
        return;
      }
      var item := r.item;
      var evt := event;
      if evt.at == None {
        evt := evt.(at := Some(now));
      }
      item := item.(doc := item.doc.(events := item.doc.events + [evt]));
      var ok := es.WriteUpdate(itemID, item.doc, None, now);
      if !ok {
        return Failed(Other);
      }
      return Returned(item);
    }

    method Comment(itemID: Id, actor: string, body: string, visibility: seq<string>, refs: seq<string>, now: Time)
      returns (r: Outcome)
      modifies es
      ensures (r, es.rows) == Alone(CommentOn(itemID, actor, body, visibility, refs), old(es.rows), Now(now))
    {
      r := AddEvent(itemID, NewEvent(actor, body, CommentAppended(body, visibility, refs)), now);
    }

    method Reassign(itemID: Id, actor: string, fromActor: string, toActor: string, fromOk: bool, toOk: bool,
                    reason: string, now: Time)
      returns (r: Outcome)
      modifies es
      ensures (r, es.rows) ==
        Alone(ReassignItem(itemID, actor, fromActor, toActor, fromOk, toOk, reason), old(es.rows), Now(now))
    {
      if fromActor != "" {
        if !fromOk {
          return Failed(Other);
        }
        var _ := es.RemoveTag(itemID, Tag(ASSIGNEE, fromActor));
      }
      if toActor != "" {
        if !toOk {
          return Failed(Other);
        }
        assert ToSet([Tag(ASSIGNEE, toActor)]) == {Tag(ASSIGNEE, toActor)};
        var _ := es.AddTags(itemID, [Tag(ASSIGNEE, toActor)]);
      }
      ghost var moved := es.rows;
      r := AddEvent(itemID, NewEvent(actor, reason, ItemReassigned(fromActor, toActor, reason)), now);
      PutTwice(old(es.rows), moved, es.rows, itemID);
    }

    method TagItem(itemID: Id, actor: string, tags: seq<Tag>, now: Time) returns (r: Outcome)
      modifies es
      ensures (r, es.rows) == Alone(Op.TagItem(itemID, actor, tags), old(es.rows), Now(now))
    {
      var ok := es.AddTags(itemID, tags);
      if !ok {
        return Failed(Other);
      }
      ghost var tagged := es.rows;
      var _ := AddEvent(itemID, NewEvent(actor, "+" + JoinTags(tags, ", +"), TagsChanged(tags, [])), now);
      PutTwice(old(es.rows), tagged, es.rows, itemID);
      return Changed;
    }

    method UntagItem(itemID: Id, actor: string, tag: Tag, now: Time) returns (r: Outcome)
      modifies es
      ensures (r, es.rows) == Alone(Op.UntagItem(itemID, actor, tag), old(es.rows), Now(now))
    {
      var ok := es.RemoveTag(itemID, tag);
      if !ok {
        return Failed(Other);
      }
      ghost var untagged := es.rows;
      var _ := AddEvent(itemID, NewEvent(actor, "-" + TagText(tag), TagsChanged([], [tag])), now);
      PutTwice(old(es.rows), untagged, es.rows, itemID);
      return Changed;
    }
  }
}
