/** The values the inbox stores and returns: tags, events, documents, entities. */
module Types {

  datatype Option<+T> = None | Some(value: T)

  type Id = string
  type Time = int

  /** Go strings are bytes; the tokenizer works on them one byte at a time. */
  type byte = b: int | 0 <= b < 256
  type Text = seq<byte>

  // ---- statuses (status.go) ----

  const OPEN := "open"
  const CLAIMED := "claimed"
  const CLOSED := "closed"

  /** Anything that is neither open nor claimed, so legacy statuses count as terminal. */
  predicate IsTerminal(status: string) {
    status != OPEN && status != CLAIMED
  }

  // ---- tags: the contract assumed of the tags library ----

  /** A tag is a key and a value; its text form splits at the first colon. */
  datatype Tag = Tag(key: string, value: string)
  type TagSet = set<Tag>

  const STATUS := "status"
  const ASSIGNEE := "assignee"

  function OfKey(tags: TagSet, key: string): TagSet {
    set t | t in tags && t.key == key
  }

  function Without(tags: TagSet, key: string): TagSet {
    set t | t in tags && t.key != key
  }

  function With(tags: TagSet, key: string, value: string): TagSet {
    Without(tags, key) + {Tag(key, value)}
  }

  function Merge(tags: TagSet, more: TagSet): TagSet {
    tags + more
  }

  predicate HasAll(tags: TagSet, required: TagSet) {
    required <= tags
  }

  function ToSet(tags: seq<Tag>): TagSet {
    set t | t in tags
  }

  function TagText(t: Tag): string {
    t.key + ":" + t.value
  }

  function JoinTags(tags: seq<Tag>, sep: string): string {
    if |tags| == 0 then ""
    else if |tags| == 1 then TagText(tags[0])
    else TagText(tags[0]) + sep + JoinTags(tags[1..], sep)
  }

  // ---- events ----

  /** Event data: the messages of events.proto, or a caller's own opaque message. */
  datatype Data =
    | ItemCreated(payloadType: string)
    | ItemClaimed(claimedBy: string)
    | ItemReleased(releasedBy: string)
    | ItemClosed(closedBy: string, closeReason: string)
    | CommentAppended(body: string, visibility: seq<string>, refs: seq<string>)
    | ItemReassigned(fromActor: string, toActor: string, reason: string)
    | TagsChanged(added: seq<Tag>, removed: seq<Tag>)
    | Foreign(blob: Option<string>)

  datatype Event = Event(at: Option<Time>, actor: string, detail: string, dataType: string, data: Data)

  const ITEM_CREATED := "inbox.v1.ItemCreated"
  const ITEM_CLAIMED := "inbox.v1.ItemClaimed"
  const ITEM_RELEASED := "inbox.v1.ItemReleased"
  const ITEM_CLOSED := "inbox.v1.ItemClosed"
  const COMMENT_APPENDED := "inbox.v1.CommentAppended"
  const ITEM_REASSIGNED := "inbox.v1.ItemReassigned"
  const TAGS_CHANGED := "inbox.v1.TagsChanged"

  /** What an event means to the lifecycle; Activity means nothing to it. */
  datatype Kind = Created | Claimed | Released | Closed | Activity

  /** The kind is read off the type name alone, as every consumer of the log does. */
  function KindOf(dataType: string): Kind {
    if dataType == ITEM_CREATED then Created
    else if dataType == ITEM_CLAIMED then Claimed
    else if dataType == ITEM_RELEASED then Released
    else if dataType == ITEM_CLOSED then Closed
    else Activity
  }

  function MessageName(data: Data): string {
    match data
    case ItemCreated(_) => ITEM_CREATED
    case ItemClaimed(_) => ITEM_CLAIMED
    case ItemReleased(_) => ITEM_RELEASED
    case ItemClosed(_, _) => ITEM_CLOSED
    case CommentAppended(_, _, _) => COMMENT_APPENDED
    case ItemReassigned(_, _, _) => ITEM_REASSIGNED
    case TagsChanged(_, _) => TAGS_CHANGED
    case Foreign(_) => ""
  }

  function KindOfData(data: Data): Kind {
    match data
    case ItemCreated(_) => Created
    case ItemClaimed(_) => Claimed
    case ItemReleased(_) => Released
    case ItemClosed(_, _) => Closed
    case _ => Activity
  }

  /** The type names are pairwise different, so a name tells its message's kind. */
  lemma NameTellsKind(data: Data)
    ensures KindOf(MessageName(data)) == KindOfData(data)
  {
    assert ITEM_CREATED[14] == 'r' && ITEM_CLAIMED[14] == 'l';
    assert TAGS_CHANGED[9] == 'T' && ITEM_CREATED[9] == 'I' && ITEM_CLAIMED[9] == 'I';
  }

  /** An event not yet stamped with its time. */
  function NewEvent(actor: string, detail: string, data: Data): (e: Event)
    ensures e.at == None && e.actor == actor && e.data == data
    ensures KindOf(e.dataType) == KindOfData(data)
  {
    NameTellsKind(data);
    Event(None, actor, detail, MessageName(data), data)
  }

  function Stamped(e: Event, now: Time): Event {
    if e.at == None then e.(at := Some(now)) else e
  }

  // ---- documents and entities ----

  datatype Message = Message(name: string, blob: string)

  /** What a caller passes to Create. */
  datatype Meta = Meta(
    title: Text, description: Text, deadline: Option<Time>, payload: Option<Message>, tags: TagSet,
    idempotencyKey: string, payloadAny: Option<string>, payloadTypeName: string)

  /** The stored document; every update replaces it whole. */
  datatype Doc = Doc(
    idempotencyKey: string, title: Text, description: Text, status: string, deadline: Option<Time>,
    payloadType: string, payload: Option<string>, events: seq<Event>)

  const ENTITY_TYPE := "inbox.v1.Item"

  type TokenIndex = map<string, seq<Text>>

  datatype Entity = Entity(
    entityType: string, doc: Doc, tags: TagSet, tokens: TokenIndex, createdAt: Time, updatedAt: Time)

  /** The item handed back to callers: a snapshot of one entity. */
  datatype Item = Item(id: Id, doc: Doc, tags: TagSet, createdAt: Time, updatedAt: Time)

  function ItemOf(id: Id, e: Entity): Item {
    Item(id, e.doc, e.tags, e.createdAt, e.updatedAt)
  }

  datatype Error = NotFound | InvalidTransition | TerminalStatus | Other

  datatype Outcome =
    | Returned(item: Item)     // an item and no error
    | Changed                  // no error and nothing else, as Tag and Untag return
    | Failed(error: Error)

  type Store = map<Id, Entity>

  function Lookup(store: Store, id: Id): Option<Entity> {
    if id in store then Some(store[id]) else None
  }

  /** Nothing in the inbox deletes an entity, so writing back an absent slot changes nothing. */
  function Put(store: Store, id: Id, slot: Option<Entity>): (r: Store)
    ensures slot == Lookup(store, id) ==> r == store
  {
    if slot.Some? then store[id := slot.value] else store
  }

  /** AddTags and RemoveTag on one entity; a missing entity stays missing. */
  function Tagged(slot: Option<Entity>, add: TagSet): Option<Entity> {
    if slot.None? then slot else Some(slot.value.(tags := slot.value.tags + add))
  }

  function Untagged(slot: Option<Entity>, remove: TagSet): Option<Entity> {
    if slot.None? then slot else Some(slot.value.(tags := slot.value.tags - remove))
  }

  predicate IsInboxSlot(slot: Option<Entity>) {
    slot.Some? && slot.value.entityType == ENTITY_TYPE
  }
}
