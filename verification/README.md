# Inbox: a verified model

The inbox stores units of work ("items") as entities of an entity store. Every operation is a short
program of store calls: fetch the item, test its status, change the copy in memory, write the whole
document back. No version is passed with the write, so two operations on one item can overlap and
one can overwrite the other. This project models those programs step by step and proves what every
interleaving keeps, what holds only when operations on one item do not overlap, and what the
surrounding pieces (tokenizer, listing, filter signals, presigned links) compute.

| file | what it holds |
|---|---|
| `Types.dfy` | statuses, tags, events, documents, entities; the assumed tag and store contracts |
| `Tokenizer.dfy` | the tokenizer loop, its specification, its fixed-point, concatenation and cutting laws |
| `Lifecycle.dfy` | replay of an event log and the counting law equivalent to it |
| `Protocol.dfy` | the operations as programs of atomic store calls; runs that interleave any number of calls |
| `Safety.dfy` | what every interleaving keeps: consistent documents, unchanged content, agreeing index, sorted logs |
| `Mirror.dfy` | status tag and assignee tag against the document, and the runs that break them |
| `Overlap.dfy` | exactly when a write loses something; while none does: append-only log, final status, nothing acknowledged lost |
| `Exclusive.dfy` | when claims exclude each other |
| `Reduction.dfy` | an interleaving without overlap per item equals a serial run |
| `Tags.dfy` | the tags callers own stay what Create was given, whatever interleaves |
| `Serial.dfy` | the whole effect of a call with nothing in between, whichever of its store calls fail; histories of whole calls; refinement of the three-state machine; what a failing Reassign leaves; claim then release |
| `Effects.dfy` | what each call does to an entity, in the words of its callers |
| `Linear.dfy` | an interleaving without overlap per item is a history of whole calls |
| `Inbox.dfy` | module `Api`: the store and inbox objects with their methods, each proved to have that effect |
| `Listing.dfy` | tag filter, cursor rule, walks over all pages, staleness |
| `Json.dfy` | the JSON reader the filter signals go through (RFC 8259) |
| `JsonText.dfy` | every way to write a JSON text, and that the reader reads it |
| `Filters.dfy` | filter signals printed as JSON and read back |
| `RoundTrip.dfy` | the signals come back exactly when no value needs escaping |
| `Link.dfy` | the presigned-link handler: actor parsing and the repeatable close |

## How a run is modelled

`calls` is the sequence of calls clients make and `labels` the sequence of atomic store calls, in the
order the store performs them. A label names the call that steps, the store's clock, the time the
caller stamped its event with, and whether the store call fails without effect. `Protocol.At` is the
state after the first n labels: the store and, for each call, where it stands with its snapshot.
Calls may stop half-way and never finish. Theorems over `At` hold for every such sequence.

The same operations appear at three levels. `Protocol.Step` is one store call; `Serial.Whole` is the
effect of a call with nothing in between, and the methods of `Api.Inbox` are proved to have that effect;
`Linear.InterleavingsAreHistories` takes interleavings of the first to histories of the second.

Where the code and its documentation disagree, the model follows the code: the design record
(`doc/adr/001-inbox-on-entity-store.md`) says events are merged into the log and claims use a
compare-and-swap, the code replaces the whole document and compares nothing.
`Exclusive.OverlappingClaimsBothSucceed` and `Overlap.OverlapReopensClosedItem` are the consequences.

## Assumptions about libraries that are not part of this model

- Each store call is atomic, and a failing one has no effect.
- An update replaces the data; it replaces the tags when tags are given and otherwise leaves them, and never changes tokens. AddTags adds, RemoveTag removes, both report a missing entity as an error and leave the entity's times alone (no theorem depends on the last point).
- Creating under an id in use is refused. Nothing deletes entities.
- A tag is a key and a value, split at the first colon. `With` replaces every value of a key, `Without` drops a key, `Merge` is union, `HasAll` asks for every one of the required tags.
- The listing is newest first, strictly older than the cursor, with distinct update times.
- Principal types print as `user` and `service`.
- Clock readings, drawn ids, verified token claims and whether the tags library accepts an actor are parameters.

## Model

| member | source | states |
|---|---|---|
| Tokenizer.Tokenize | create.go:132-159 | the byte loop with its reused word buffer and seen-map returns the first occurrences of the words, for every byte string |
| Tokenizer.TokenBytes | create.go:161-170 | every byte of every token is in a-z or 0-9 |
| Tokenizer.EveryLetterIsInAToken | create.go:139-170 | every letter and digit of a text lies in a piece of it whose lowercase form is a token |
| Tokenizer.TokensIgnoreCase | create.go:165-170 | texts that differ in the case of letters alone have the same tokens |
| Tokenizer.WordsInOrder | create.go:139-170 | the words of the specification are all the maximal alphanumeric runs of the text in lowercase, each in its place, left to right, none missing |
| Tokenizer.TokensInTextOrder | create.go:145-155 | an earlier token has a run in the text that begins before every run of a later token |
| Tokenizer.DedupMeaning | create.go:145-155 | deduplication keeps the same words, each once, ordered by first occurrence |
| Tokenizer.TokensOfConcat | create.go:132-159 | tokenizing across any separator gives the first occurrences of both sides' tokens |
| Tokenizer.TokensAreAFixedPoint | create.go:132-159 | the tokens written out with any separator tokenize to themselves |
| Tokenizer.CutYieldsOnlyStoredTokens | get.go:44-53 | a query cut from a title at word boundaries has no token the title lacks |
| Tokenizer.BuildTokens | create.go:120-129 | the token map has a field's tokens exactly when there are any |
| Types.NewEvent | create.go:96-103 | an unstamped event whose type name tells its message's place in the lifecycle |
| Lifecycle.LegalIffConserved | lifecycle.go:15-56 | a log replays without an illegal event exactly when it has one ItemCreated, first, claims minus releases is 0 or 1 at every prefix, and only activity follows a close; the counts then determine the status |
| Lifecycle.AppendKeepsConsistentIff | events.go:18-43 | an appended event keeps status and log consistent exactly when it does not use one of the four lifecycle type names |
| Protocol.KindAppended | lifecycle.go:15-56 | only the three transitions append lifecycle events |
| Protocol.ExecIsLocal | events.go:18-43 | a step of any operation touches only its own item and its own progress |
| Protocol.StepShape | events.go:18-43 | a document changes only in the write that follows a snapshot, and a snapshot is the stored item as it stands, past the status test |
| Protocol.StepStaysInProgram | events.go:62-84 | every operation makes progress towards its end with each store call |
| Protocol.DriveEnds | events.go:18-84 | whatever fails on the way, a call is over after as many store calls as its place in the program has left, four at most |
| Safety.AfterIsConsistent | lifecycle.go:75-88 | an operation that passed its status test leaves a consistent document consistent |
| Safety.DocumentsAgreeIff | lifecycle.go:62-105 | in every interleaving every stored status of an item is the replay of its own log, so every lifecycle event was legal where it stands, and every returned item and pending snapshot is consistent too: all the way exactly when no AddEvent wrote an event with a lifecycle type name |
| Safety.DocumentsAgreeWithTheirLogs | lifecycle.go:62-105 | in every interleaving documents, snapshots and returned items of an item agree with their logs when callers' own events on it do not use the four lifecycle type names |
| Safety.EveryLogIsConserved | lifecycle.go:15-56 | in every interleaving from an empty store every log is conserved, has at most one ItemClosed, and its counts give the stored status, when callers' own events on it do not use the four lifecycle type names |
| Safety.ContentNeverChanges | create.go:48-57 | in every interleaving a stored item keeps title, description, deadline, payload, payload type, idempotency key, tokens and creation time |
| Safety.CreatedContentStays | create.go:29-67 | once Create returned, the stored content and tokens are what it was asked to store, whatever else runs |
| Safety.IndexAgreesWithText | create.go:59-67 | in every interleaving the stored tokens are those of the stored title and description |
| Safety.CutTitleIsIndexed | get.go:44-53 | in every interleaving each token of a query cut from a stored title is stored under that title |
| Safety.LogsAreSortedIff | events.go:24-27 | in every interleaving on one clock every stored log and pending snapshot of an item is sorted by time and lies in the past: all the way exactly when every preset time written lay between the last event of the snapshot it was appended to and the store's clock |
| Safety.LogsAreSorted | service/service.go:160-178 | with times stamped by the service every stored log is sorted and lies in the past |
| Safety.PresetTimeKeepsSortedIff | events.go:24-26 | an event with a preset time keeps a log sorted up to a bound exactly when it is neither before the last event nor beyond the bound |
| Mirror.MirrorHoldsIff | lifecycle.go:75-105 | in every interleaving the stored status tag of an item is that of its status field all the way exactly when no step breaks it: no event-only write whose snapshot's status has moved, no Tag that adds another status tag, no Untag that removes the current one |
| Mirror.StatusTagMirrorsStatus | lifecycle.go:75-105 | in every interleaving in which no event-only write straddles a transition's write on the item and no Tag or Untag of it names the status key, the stored status tag is that of the status field |
| Mirror.StatusTagSelectsStatus | get.go:91-100 | under the mirror, having the tag status:s is having the field s |
| Mirror.EventWriteKeepsMirrorIff | events.go:27-37 | an event-only write keeps the mirror exactly when the status did not move under its snapshot |
| Mirror.AddTagsKeepsMirrorIff | tags.go:13-17 | adding tags keeps the mirror exactly when every added status tag is the current one |
| Mirror.RemoveTagKeepsMirrorIff | tags.go:27-31 | removing a tag keeps the mirror exactly when it is not the current status tag |
| Mirror.AssigneeFollowsClaims | lifecycle.go:15-41 | in every interleaving without a straddle in which nothing but claims and releases touches the assignee key and callers' events are not named as lifecycle events, a claimed item carries its last claimer's assignee tag and an item last released carries none |
| Mirror.ClaimsAgreeUnderAnyOverlap | lifecycle.go:15-56 | creates, claims, releases and closes keep both agreements however they overlap |
| Tags.CallersTagsStay | lifecycle.go:75-105 | in every interleaving in which no Tag or Untag of an item names a key other than the status and assignee keys, the stored tags under that key never change |
| Tags.CreatedTagsStay | create.go:46-67 | once Create returned, a tag under such a key is stored, and is on the returned item, exactly when the caller gave it |
| Mirror.StraddlingCommentBreaksMirror | events.go:27-37 | for every open item, the run in which a comment straddles a claim leaves field open and tag claimed |
| Overlap.LastStaysFresh | events.go:18-43 | the snapshot of the call that stepped last on an item is the stored item |
| Overlap.LogIsAppendOnly | lifecycle.go:44-56 | from any store with legacy statuses, while no write of an item is overtaken, earlier logs are prefixes of later ones and a terminal status never changes |
| Overlap.NothingAcknowledgedIsLost | events.go:27-43 | while no write of an item is overtaken, the log of every item a call returned is still a prefix of the stored log |
| Overlap.NoOverlapOvertakesNothing | events.go:18-43 | in a run without overlap on an item no write of it is overtaken |
| Overlap.WriteContinuesIff | events.go:27-37 | a document write continues the stored log and a terminal status exactly when the stored log is a prefix of the snapshot's, or already the written one, and the terminal status is the one it writes |
| Overlap.OvertakenWriteLosesIff | events.go:18-43 | the first write of an item that could lose something keeps log and terminal status exactly when no other call wrote the item since its snapshot, unless that call appended the very same event |
| Overlap.OverlapReopensClosedItem | lifecycle.go:26-41 | for every claimed item, a release that straddles a close reopens it and drops the close |
| Exclusive.ClaimsAreExclusive | lifecycle.go:15-23 | from any store, while no write of an item is overtaken, as without overlap none is, two claims of it that both succeeded have an ItemReleased between their ItemClaimed events, in the log the later one returned |
| Exclusive.ClaimSucceedsIffFetchedInTime | lifecycle.go:62-72 | any number of claims of one open item, overlapping at will and mixed with any calls on other items: a claim that is over succeeded exactly when it fetched before the item was first written |
| Exclusive.BothClaimsSucceedIffTheyOverlap | lifecycle.go:62-72 | so two claims of one open item, in every order of their store calls, both succeed exactly when they overlap |
| Exclusive.OverlappingClaimsBothSucceed | lifecycle.go:62-72 | the interleaving fetch, fetch, write, write lets both claims of any open item succeed |
| Reduction.SameOrderSameEnd | events.go:18-84 | runs that order each item's steps alike end in the same store with the same results, however they mix items |
| Reduction.Reduces | events.go:18-84 | an interleaving without overlap per item ends as a serial run of its calls that keeps each item's order and never reverses two calls that did not overlap in time |
| Serial.DriveIsWhole | lifecycle.go:62-105 | the step-by-step program of every operation, run alone to its end, has exactly its whole effect under the faults it met |
| Serial.FailedReassignLeavesTraceIff | events.go:62-84 | a failing Reassign, whichever store call failed, actor was refused or entity was met, has changed its item exactly when the old assignee's tag was there and was removed and not put back, or the new assignee's was not there and was added |
| Serial.ServiceRefinesMachine | service/service.go:110-132 | after any serial history the code of Claim, Release and Close is decided by the item's abstract state alone; failures leave the store unchanged, successes move that item only |
| Serial.HistoriesSimulateMachine | README.md:34-53 | every serial history of all operations moves each item as the three-state machine does |
| Serial.ClaimThenReleaseRestores | lifecycle.go:15-41 | claim then release restores an open item: tags without assignee and with status:open, the log with exactly two more events, nothing else changed |
| Effects.CreateStores | create.go:24-90 | Create under a fresh id stores and returns one open item with the caller's content, one ItemCreated event by the caller, and exactly the caller's tags except those under the status key, plus status:open |
| Effects.CreateStoresPayload | create.go:29-37 | a packed payload goes before a message, and a message is stored under its own name |
| Effects.CreateIndexes | create.go:120-129 | the index has the tokens of title and description under those names and nothing else |
| Effects.GetReads | get.go:13-22 | Get returns the item as stored, or not-found when nothing or something else is, and changes nothing |
| Effects.ClaimMoves | lifecycle.go:15-23 | a claim of an open item keeps every tag outside the status key and adds status:claimed and exactly the claimer's assignee tag, appends one ItemClaimed by the claimer, and changes nothing else |
| Effects.ReleaseMoves | lifecycle.go:26-41 | a release of a claimed item keeps every tag outside the status and assignee keys, adds status:open, appends one ItemReleased, and changes nothing else |
| Effects.CloseMoves | lifecycle.go:44-56 | a close of an open or claimed item keeps every tag outside the status key, the assignee's included, adds status:closed, appends one ItemClosed with the reason, and changes nothing else |
| Effects.TransitionsAreRefused | lifecycle.go:26-72 | in any other status, and on anything but an inbox item, the three change nothing and say why |
| Effects.AddEventAppends | events.go:18-43 | AddEvent appends the caller's event, stamped unless it has a time, leaves status and tags, and is not-found on anything but an inbox item |
| Effects.CommentAppends | events.go:49-58 | a comment is such an event with the body as detail and the whole comment as data |
| Effects.ReassignMoves | events.go:62-84 | a Reassign with accepted actors takes away the old assignee's tag, if named, then adds the new one's, if named, and appends one ItemReassigned that says who, whom and why |
| Effects.TagAdds | tags.go:13-24 | Tag adds exactly the given tags and reports only that; on an inbox item it appends one TagsChanged that lists them |
| Effects.UntagRemoves | tags.go:27-38 | Untag removes exactly the given tag and reports only that; on an inbox item it appends one TagsChanged that names it |
| Effects.FailingStoreKeepsDocuments | events.go:27-40 | a fetch or write that fails leaves every document as it was and is an error, except that Tag and Untag still report their tag change |
| Linear.InterleavingsAreHistories | events.go:18-84 | every interleaving without overlap per item and with its calls run to their ends, store faults included, is a history of whole calls: exactly the calls that stepped, each once, under the faults its own store calls met and as of the last of them, in an order that never reverses calls that did not overlap in time, with every call's own outcome and the same final store |
| Linear.ExplainedByTheApi | events.go:18-84 | where no store call fails, such a run ends in the store that a serial history of API calls leads to |
| Api.Inbox.Get | get.go:13-22 | returns the stored item, or not-found for a missing entity and for one of another type |
| Api.Inbox.Create | create.go:24-90 | writes document, tags and tokens of a new open item and returns it, as the Create program does |
| Api.Inbox.Claim | lifecycle.go:15-23 | has exactly the effect and outcome of the Claim program |
| Api.Inbox.Release | lifecycle.go:26-41 | has exactly the effect and outcome of the Release program |
| Api.Inbox.Close | lifecycle.go:44-56 | has exactly the effect and outcome of the Close program |
| Api.Inbox.Transition | lifecycle.go:62-72 | refuses any other status and leaves the store; otherwise writes status, event and tags of that item together |
| Api.Inbox.DoTransition | lifecycle.go:75-105 | writes the document with new status and one more event and the tags in one call, and returns what it wrote |
| Api.Inbox.AddEvent | events.go:18-43 | has exactly the effect and outcome of the AddEvent program; tags stay |
| Api.Inbox.Comment | events.go:49-58 | is AddEvent with a comment event |
| Api.Inbox.Reassign | events.go:62-84 | has exactly the effect and outcome of the Reassign program, tag moves included |
| Api.Inbox.TagItem | tags.go:13-24 | adds the tags, appends the event when it can, and reports only the tag change |
| Api.Inbox.UntagItem | tags.go:27-38 | removes the tag, appends the event when it can, and reports only the tag change |
| Listing.FilterByTags | get.go:91-100 | keeps, in order, exactly the rows that have all required tags |
| Listing.FilteredRowsHaveAllTags | get.go:91-100 | a row is in the filtered result exactly when it is in the listing and every required tag is among its tags |
| Listing.FilterTwice | get.go:91-100 | filtering by two lists of tags is filtering by one and then by the other |
| Listing.DefaultPage | get.go:26-29 | without a positive page size a listing is that of the newest 50 rows |
| Listing.MatchingCounts | get.go:91-100 | the filter drops nothing exactly when all match and everything exactly when none does |
| Listing.ListByTags | get.go:25-41 | one page of the rows older than the cursor, 50 by default, filtered when tags are given |
| Listing.ListItems | service/service.go:71-94 | the page, and a cursor only for a positive page size and a full page after filtering |
| Listing.WalkVisitsAll | service/service.go:71-94 | following the cursor without tags visits every item once, in order, in exactly floor(n/p)+1 calls |
| Listing.WalkWithTags | service/service.go:81-92 | with tags the walk returns the filter of the pages up to the first short or not wholly matching one, in one call a full page and one more unless the last one does not match wholly, and is complete exactly when nothing beyond matches |
| Listing.Stale | get.go:74-87 | keeps, in order, the listed items whose last event is before now minus age |
| Listing.LastSpeaksForAll | get.go:102-112 | on a sorted log the last event is before the cutoff exactly when all are |
| Listing.UnstampedGoesByCreation | get.go:102-109 | an item without events, or whose last event has no time, is stale exactly when it was created before the cutoff |
| Listing.StaleMeansQuiet | get.go:72-112 | in every interleaving, overlapping or not, in which no preset time was written out of order, Stale keeps of a listed page, in order, exactly the items all of whose events are before the cutoff |
| Listing.LargerAgeKeepsFewer | get.go:74-87 | a larger age keeps a part, in order, of what a smaller age keeps |
| Listing.StatusFilterSelectsByField | get.go:91-100 | in every interleaving without a straddle and without a Tag or Untag under the status key, filtering by status:s selects exactly the items whose field is s |
| Filters.BuildFilterSignals | ui/helpers.go:66-82 | the buffer loop prints one object with a member per filter, in order |
| Filters.KeyDropsOneColon | ui/helpers.go:57-62 | a filter's key is its prefix less one trailing colon |
| Filters.SelectedExactly | ui/helpers.go:92-110 | exactly the non-empty values of the filters' keys are read, unchanged |
| Filters.ReadFilterValues | ui/helpers.go:87-113 | the non-empty string values of the filter keys, from the JSON parameter when it reads as an object, else from the query |
| JsonText.ObjectTextReads | ui/helpers.go:90-104 | an object text of any depth, however its strings are escaped and with any white space, gives the last text under each name |
| JsonText.TrailingTextIsRefused | ui/helpers.go:91 | an object followed by anything but white space is refused |
| JsonText.OnlyObjectsAndNullRead | ui/helpers.go:90-91 | a null reads as an object without members; no other value does |
| RoundTrip.RoundTripsIff | ui/helpers.go:57-113 | for distinct filter keys that need no escaping, reading the printed signals gives back exactly the non-empty active values if and only if no active value has a quote, a backslash or a control character |
| RoundTrip.QuoteDoesNotRoundTrip | ui/helpers.go:72-79 | with any value that holds a quote, whatever the others are, the signals do not read back |
| Link.LoggedActorIsTheLinksIff | cmd/inboxui/token/handler.go:96-108 | the logged actor is the link's actor exactly for user: and service: actors, further colons included |
| Link.LoggedActorOf | cmd/inboxui/token/handler.go:96-108 | a user's id is logged as user:id, any other type's as service:id, and an actor without a type as service: and the whole actor |
| Link.PostDecides | cmd/inboxui/token/handler.go:83-118 | a post changes the store exactly when its token was verified, its scope is respond and the item is stored and open or claimed; it succeeds exactly when the first two hold and the item is stored; any other scope is refused as view-only, an unverified token as a bad link, a missing item as not found |
| Link.Handler.HandlePost | cmd/inboxui/token/handler.go:75-118 | refuses bad and view-only links, otherwise closes the item; an item already terminal is no error |
| Link.PostSucceeds | cmd/inboxui/token/handler.go:110-117 | a valid post for an existing item succeeds; it appends one ItemClosed by the logged actor or changes nothing |
| Link.SubmissionsCloseOnce | cmd/inboxui/token/handler.go:96-117 | any number of valid posts with any calls in between all succeed and append at most one ItemClosed: none if the item was terminal, exactly one if it was not and nobody else closed it; with other closers the log gains one ItemClosed if the item became terminal and none otherwise |

## Left out

- Rendering (`ui/*.templ`), layouts, configuration, providers, event streams and HTTP plumbing.
- Protobuf packing and generated code: payloads and event data are opaque values with a type name; unmarshalling a stored document never fails here.
- The pointer to the document inside an item: every fetch unmarshals a fresh copy, so the in-memory item is a value that the methods reassign.
- Idempotency keys as anchors: deduplication is decided inside the store.
- Embeddings, SemanticSearch, and how FindByTokens ranks: unseen.
- Token signing and verification, identity construction (an identity the library refuses included), connect clients, seed data.
- Tags without a colon, and the panic of the tag filter on a malformed required tag.
- ListByTags, Search and Stale under a store that fails: the error is passed on.
- JSON nested deeper than the Go reader allows.
- The serial API on a store that fails: its methods assume store calls work; the step programs and `Serial.Whole` cover the faults.
- Text other than titles and descriptions is a sequence of characters; invalid UTF-8 is not modelled.
- Age formatting, badge variants, display names, filter options.
