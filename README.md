# Conversation bookkeeping of the Message chat client

This project models, in Dafny, the client-side bookkeeping of the Message
Android chat app. The app is a thin client over a realtime document store.
The model covers:

- the conversation key: the two user ids sorted and joined with `_`;
- the thread screen (`MessageScreen.kt`): the view it builds from a thread
  snapshot, the read acknowledgements it writes, one tick of the expiry sweep,
  the countdown, the " (modifié)" edit marker, the send and edit writes, and
  the deletes;
- the conversation list (`ConversationListScreen.kt`): the roster built from
  the whole message tree, the merge of the `conversations/{user}` index, the
  display-name cache, the All/Unread filter and the symmetric conversation
  delete;
- the new-message composer (`NewMessageScreen.kt`): validation, lookup of the
  recipient by `Nom`, and the record it pushes.

The store is in memory. It is the class `Database.Store` with three fields:

- `messages`: a map from thread key to a map from message id to `Message`;
- `index`: a map from user to a set of peers;
- `composed`: the records the composer pushes directly under `messages/`.

Each store write is a map update. The store has no empty node, so a thread or
peer set that loses its last child disappears. A child write (`read`,
`content`, `imageBase64`) to a record that is no longer there creates a record
with the data-class defaults, as the store would.

Screen state lives in three classes: `ThreadScreen`, `RosterScreen` and
`Composer`. Their methods change that state and the store, and their `ensures`
give the whole new state. The loops of the source are methods proved against
specification functions:

- `CollectSnapshot` is the `onDataChange` loop;
- `ScanThread` and `BuildRoster` are the inner and outer roster loops;
- `MergeIndex` is the index merge;
- `SweepTick` and `Store.MarkRead` are the sweep and the read writes.

The lemmas beside them prove what the source promises.

In these places the model follows the code as written:

- The view is a stable sort by timestamp. Equal timestamps keep snapshot order,
  and there is no secondary key (`ViewStable`).
- The sweep removes a message only when `now > expiryTimestamp`. A message at
  exactly its deadline survives a tick (`SweepAfterSend`).
- The thread menu's "Supprimer la conversation" removes only the messages, not
  the index entries (`ThreadScreen.DeleteConversation`). The conversation list's
  delete removes all three paths (`RosterScreen.DeleteConversation`).
- `lastTimestamp` starts at 0, so it is the maximum of 0 and the timestamps of
  the messages that involve the user.
- The conversation key is computed for any two ids, equal ones included.
- The composer writes `{from, to, message}` directly under `messages/{pushId}`.
  It does not use a thread key, and it uses other field names than the roster
  reads (`senderId`, `receiverId`). Such a record adds no line to any roster
  (`ComposerRecordNotInRoster`). It never shows in a thread either: the model
  keeps composer records in `Store.composed`, a map apart from the threads, and
  `Composer.OnSendClick` leaves `messages` unchanged.
- Starting an edit strips the marker in one left-to-right pass, like Kotlin's
  `String.replace`. The pass drops each occurrence it meets and resumes right
  after it (`StripMarkerFirst`). That pass can leave a marker behind
  (`StripMarkerMayLeaveMarker`). A text that itself contains the marker loses
  it.

## Model

| member | source | states |
|---|---|---|
| `Records.ConversationIdSymmetric` | app/src/main/java/com/example/message/ui/MessageScreen.kt:61 | the key for (a, b) equals the key for (b, a) |
| `Records.ConversationId` | app/src/main/java/com/example/message/ui/MessageScreen.kt:61 | the key is the two ids joined with "_", the one smaller in string order first |
| `Records.ConversationIdInjective` | app/src/main/java/com/example/message/ui/ConversationListScreen.kt:52 | for ids without "_", two pairs share a key exactly when they are the same unordered pair |
| `Text.LexLeqTotal` | app/src/main/java/com/example/message/ui/MessageScreen.kt:61 | the string order used by `sorted()` relates any two strings |
| `Text.Trim` | app/src/main/java/com/example/message/ui/MessageScreen.kt:341 | trim yields "" exactly for blank text and otherwise starts and ends with non-whitespace |
| `Text.IsBlank` | app/src/main/java/com/example/message/ui/MessageScreen.kt:329 | a text is blank exactly when its leading whitespace runs to its end |
| `Text.TrimIsSlice` | app/src/main/java/com/example/message/ui/MessageScreen.kt:332 | trim keeps a contiguous run of the input and cuts only whitespace around it |
| `Text.RemoveAll` | app/src/main/java/com/example/message/ui/MessageScreen.kt:264 | the one-pass removal of a pattern never lengthens the text |
| `Text.RemoveAllDeletes` | app/src/main/java/com/example/message/ui/MessageScreen.kt:264 | the removal only deletes characters: the result is a subsequence of the input |
| `Text.RemoveAllFirst` | app/src/main/java/com/example/message/ui/MessageScreen.kt:264 | the pass keeps everything before the first occurrence, drops that occurrence and resumes right after it |
| `Text.RemoveAllAbsent` | app/src/main/java/com/example/message/ui/MessageScreen.kt:264 | a text without the pattern is returned unchanged |
| `Sequences.Filter` | app/src/main/java/com/example/message/ui/ConversationListScreen.kt:199-205 | `filter` keeps, in order, each passing element as often as it occurs, and nothing else |
| `Sequences.SortBy` | app/src/main/java/com/example/message/ui/MessageScreen.kt:116 | `sortedBy` returns a permutation of its input |
| `Sequences.SortBySorted` | app/src/main/java/com/example/message/ui/MessageScreen.kt:116 | `sortedBy` output is non-decreasing by the key |
| `Sequences.SortByStable` | app/src/main/java/com/example/message/ui/ConversationListScreen.kt:93 | `sortedBy` keeps input order among elements with equal keys |
| `MessageScreen.Decoded` | app/src/main/java/com/example/message/ui/MessageScreen.kt:107-110 | one entry per decodable child, keyed by the child's key ("" when missing), and nothing else |
| `MessageScreen.DecodedAppend` | app/src/main/java/com/example/message/ui/MessageScreen.kt:107-115 | decoding a snapshot is decoding its parts in order |
| `MessageScreen.AckIds` | app/src/main/java/com/example/message/ui/MessageScreen.kt:111-113 | the acknowledged ids are exactly those of messages to the current user with read == false |
| `MessageScreen.CollectSnapshot` | app/src/main/java/com/example/message/ui/MessageScreen.kt:106-115 | the loop yields the decoded list and the ids to mark read |
| `MessageScreen.View` | app/src/main/java/com/example/message/ui/MessageScreen.kt:116 | the view is a permutation of the decoded children, non-decreasing by timestamp |
| `MessageScreen.ViewStable` | app/src/main/java/com/example/message/ui/MessageScreen.kt:116 | the view keeps snapshot order among messages with equal timestamps |
| `MessageScreen.ReadAckComplete` | app/src/main/java/com/example/message/ui/MessageScreen.kt:111-113 | after one cycle no record to the user is unread; only such records change, and only their read flag becomes true |
| `MessageScreen.ThreadScreen.OnDataChange` | app/src/main/java/com/example/message/ui/MessageScreen.kt:105-117 | the view is replaced by the sorted snapshot; exactly the acknowledged records get read = true in the store |
| `MessageScreen.ExpiryDeadline` | app/src/main/java/com/example/message/ui/MessageScreen.kt:337 | a deadline exists exactly for a positive duration, and lies seconds * 1000 after the send time |
| `MessageScreen.IsExpired` | app/src/main/java/com/example/message/ui/MessageScreen.kt:129 | a message the sweep removes shows no countdown |
| `MessageScreen.ExpiredIds` | app/src/main/java/com/example/message/ui/MessageScreen.kt:127-131 | exactly the ids of view messages with a deadline strictly before now |
| `MessageScreen.ThreadScreen.SweepTick` | app/src/main/java/com/example/message/ui/MessageScreen.kt:126-132 | one tick removes exactly the expired ids of the view from the thread and touches nothing else |
| `MessageScreen.SweepAfterSend` | app/src/main/java/com/example/message/ui/MessageScreen.kt:129 | a message sent with a duration survives a tick at its deadline and is removed one millisecond later; a permanent one never is |
| `MessageScreen.TruncDiv` | app/src/main/java/com/example/message/ui/MessageScreen.kt:201 | Long division truncates toward zero |
| `MessageScreen.Countdown` | app/src/main/java/com/example/message/ui/MessageScreen.kt:200-203 | a countdown shows exactly when at least one whole second is left, and shows the whole seconds left |
| `MessageScreen.CountdownAfterSend` | app/src/main/java/com/example/message/ui/MessageScreen.kt:200-203 | k seconds after a send with duration d the countdown shows d - k, then nothing |
| `MessageScreen.EditedContent` | app/src/main/java/com/example/message/ui/MessageScreen.kt:332 | the stored content is the trimmed draft followed by " (modifié)" |
| `MessageScreen.EditRoundTrip` | app/src/main/java/com/example/message/ui/MessageScreen.kt:264 | starting a new edit of an edited message preloads the trimmed text, when that text has no marker |
| `MessageScreen.ReEditStable` | app/src/main/java/com/example/message/ui/MessageScreen.kt:264-267 | re-editing without changes stores the same content again |
| `MessageScreen.StripMarker` | app/src/main/java/com/example/message/ui/MessageScreen.kt:264 | starting an edit deletes characters only; a content without the marker is preloaded unchanged |
| `MessageScreen.StripMarkerFirst` | app/src/main/java/com/example/message/ui/MessageScreen.kt:264 | starting an edit drops the first marker of the content, keeps what precedes it and strips the rest the same way |
| `MessageScreen.StripMarkerMayLeaveMarker` | app/src/main/java/com/example/message/ui/MessageScreen.kt:264 | a single-pass strip can leave a marker in the preloaded draft |
| `MessageScreen.CanSend` | app/src/main/java/com/example/message/ui/MessageScreen.kt:329 | sending acts exactly when the trimmed draft is not empty or an image is attached |
| `MessageScreen.NewRecord` | app/src/main/java/com/example/message/ui/MessageScreen.kt:336-346 | the pushed record has the sender, receiver, trimmed content, timestamp now, read false, the deadline and the image |
| `MessageScreen.NewRecordNeedsAck` | app/src/main/java/com/example/message/ui/MessageScreen.kt:343 | a new message is unread for its receiver |
| `MessageScreen.ThreadScreen.OnSendClick` | app/src/main/java/com/example/message/ui/MessageScreen.kt:328-353 | nothing when the draft is blank and no image is attached; otherwise the edit writes or the push and both index directions, then the draft is cleared |
| `MessageScreen.ThreadScreen.StartEdit` | app/src/main/java/com/example/message/ui/MessageScreen.kt:263-268 | the draft is the content with the markers stripped; the image is preloaded |
| `MessageScreen.ThreadScreen.SelectDuration` | app/src/main/java/com/example/message/ui/MessageScreen.kt:164-171 | the duration is one of 0, 10, 30, 60 |
| `MessageScreen.ThreadScreen.DeleteMessage` | app/src/main/java/com/example/message/ui/MessageScreen.kt:367 | removes one record of the thread and nothing else |
| `MessageScreen.ThreadScreen.DeleteConversation` | app/src/main/java/com/example/message/ui/MessageScreen.kt:158 | removes the thread's messages; the index is left as it was |
| `Database.WithRead` | app/src/main/java/com/example/message/ui/MessageScreen.kt:112 | writing read = true changes only that field of the listed records |
| `Database.WithEdit` | app/src/main/java/com/example/message/ui/MessageScreen.kt:331-333 | an edit changes only content and image of one record |
| `Database.Store.MarkRead` | app/src/main/java/com/example/message/ui/MessageScreen.kt:112 | the read writes of one cycle, one per id, equal marking the set of ids at once |
| `Database.Store.Push` | app/src/main/java/com/example/message/ui/MessageScreen.kt:347 | adds one record under a fresh id |
| `Database.Store.Edit` | app/src/main/java/com/example/message/ui/MessageScreen.kt:331-333 | the two child writes of an edit |
| `Database.Store.RemoveMessage` | app/src/main/java/com/example/message/ui/MessageScreen.kt:130 | removes one record; an absent one is a no-op |
| `Database.Store.RemoveThread` | app/src/main/java/com/example/message/ui/ConversationListScreen.kt:53 | removes one thread |
| `Database.Store.Link` | app/src/main/java/com/example/message/ui/MessageScreen.kt:348-349 | adds one index direction |
| `Database.Store.Unlink` | app/src/main/java/com/example/message/ui/ConversationListScreen.kt:54-55 | removes one index direction |
| `Database.Store.PushComposed` | app/src/main/java/com/example/message/ui/NewMessageScreen.kt:58 | adds one composer record under a fresh id |
| `ConversationListScreen.LastTimestamp` | app/src/main/java/com/example/message/ui/ConversationListScreen.kt:70-81 | the maximum of 0 and the timestamps (missing: 0) of the messages that involve the user |
| `ConversationListScreen.UnreadCount` | app/src/main/java/com/example/message/ui/ConversationListScreen.kt:78-84 | zero exactly when no message to the user has read == false; a missing read flag counts as read |
| `ConversationListScreen.UnreadCountAppend` | app/src/main/java/com/example/message/ui/ConversationListScreen.kt:84 | the unread count adds up over the parts of a thread |
| `ConversationListScreen.Peer` | app/src/main/java/com/example/message/ui/ConversationListScreen.kt:82-83 | the other party of the last involving message that names one; none when no message does |
| `ConversationListScreen.Summary` | app/src/main/java/com/example/message/ui/ConversationListScreen.kt:88-90 | a thread yields a line exactly when it names a peer, with that peer, the last timestamp and the unread count |
| `ConversationListScreen.Items` | app/src/main/java/com/example/message/ui/ConversationListScreen.kt:69-91 | the lines are exactly the summaries of the threads that have one |
| `ConversationListScreen.ItemsAppend` | app/src/main/java/com/example/message/ui/ConversationListScreen.kt:69-91 | the lines of a split snapshot are the lines of its parts, in order: one line per thread that names a peer |
| `ConversationListScreen.Roster` | app/src/main/java/com/example/message/ui/ConversationListScreen.kt:93 | the roster is a permutation of the lines, non-increasing by lastTimestamp |
| `ConversationListScreen.RosterStable` | app/src/main/java/com/example/message/ui/ConversationListScreen.kt:93 | the roster keeps snapshot order among lines with the same lastTimestamp |
| `ConversationListScreen.ScanThread` | app/src/main/java/com/example/message/ui/ConversationListScreen.kt:70-86 | one pass over a thread yields its last timestamp, its peer and its unread count |
| `ConversationListScreen.BuildRoster` | app/src/main/java/com/example/message/ui/ConversationListScreen.kt:67-93 | the loop over threads yields the roster the sort of the lines defines |
| `ConversationListScreen.SentMessageCounted` | app/src/main/java/com/example/message/ui/ConversationListScreen.kt:80-84 | a message just received names its sender, adds one unread and raises the time to the send time |
| `ConversationListScreen.Merged` | app/src/main/java/com/example/message/ui/ConversationListScreen.kt:121-124 | the merge keeps the old lines as a prefix and adds at most one line per indexed uid |
| `ConversationListScreen.MergedProperties` | app/src/main/java/com/example/message/ui/ConversationListScreen.kt:119-124 | existing lines unchanged; each indexed peer without a line gets exactly one (uid, 0, 0); nothing else is added |
| `ConversationListScreen.MergeIndex` | app/src/main/java/com/example/message/ui/ConversationListScreen.kt:121-124 | the loop computes the merge and every indexed peer then has a line |
| `ConversationListScreen.UidsOf` | app/src/main/java/com/example/message/ui/ConversationListScreen.kt:95 | the uids of the lines, in order |
| `ConversationListScreen.PendingLookups` | app/src/main/java/com/example/message/ui/ConversationListScreen.kt:95-97 | a name lookup goes out exactly for the uids without a cached name, once each |
| `ConversationListScreen.NameLoaded` | app/src/main/java/com/example/message/ui/ConversationListScreen.kt:99-101 | a completed lookup adds uid -> name, or "Utilisateur inconnu", and leaves other names unchanged |
| `ConversationListScreen.Filtered` | app/src/main/java/com/example/message/ui/ConversationListScreen.kt:199-205 | "Unread" keeps exactly the lines with unreadCount > 0, any other label keeps all; order is kept |
| `ConversationListScreen.WithoutUid` | app/src/main/java/com/example/message/ui/ConversationListScreen.kt:56 | the local list drops exactly the lines for the uid and keeps the rest in order |
| `ConversationListScreen.RosterScreen.OnMessagesChanged` | app/src/main/java/com/example/message/ui/ConversationListScreen.kt:66-107 | the roster is rebuilt and the lookups for uncached names are issued |
| `ConversationListScreen.RosterScreen.OnIndexChanged` | app/src/main/java/com/example/message/ui/ConversationListScreen.kt:118-137 | the indexed peers are merged in and the lookups for uncached names are issued |
| `ConversationListScreen.RosterScreen.OnNameLoaded` | app/src/main/java/com/example/message/ui/ConversationListScreen.kt:99-101 | the cache gains the loaded name |
| `ConversationListScreen.RosterScreen.SelectFilter` | app/src/main/java/com/example/message/ui/ConversationListScreen.kt:186 | the selected label is stored |
| `ConversationListScreen.RosterScreen.Visible` | app/src/main/java/com/example/message/ui/ConversationListScreen.kt:199-205 | the shown lines keep list order; "Unread" shows exactly the lines with unreadCount > 0, any other label shows all |
| `ConversationListScreen.RosterScreen.DeleteConversation` | app/src/main/java/com/example/message/ui/ConversationListScreen.kt:51-56 | removes the thread under the same key either user computes, both index directions, and the peer's lines |
| `NewMessageScreen.FindRecipient` | app/src/main/java/com/example/message/ui/NewMessageScreen.kt:48-50 | the first user in snapshot order whose Nom equals the name exactly; none when nobody matches |
| `NewMessageScreen.FieldsFilled` | app/src/main/java/com/example/message/ui/NewMessageScreen.kt:45 | the form is complete exactly when both trimmed fields are non-empty and someone is signed in |
| `NewMessageScreen.Compose` | app/src/main/java/com/example/message/ui/NewMessageScreen.kt:45-65 | missing fields exactly when a field is blank or nobody is signed in; not found exactly when no name matches; otherwise the record {sender, recipient, text} |
| `NewMessageScreen.ComposerRecordNotInRoster` | app/src/main/java/com/example/message/ui/NewMessageScreen.kt:53-58 | a composer record adds no line to any roster |
| `NewMessageScreen.Composer.OnSendClick` | app/src/main/java/com/example/message/ui/NewMessageScreen.kt:44-66 | one record is pushed exactly on a match; the confirmation line matches the outcome |

## Left out

- Store reads, writes and listeners are not modelled as calls. Snapshots are
  parameters (a thread as a sequence of children, the message tree as a
  sequence of threads, the index and `users` as sequences of keys). Store-generated
  push ids are fresh parameters.
- Each write is modelled as a completed map update. Asynchrony, failures and
  listener errors are left out.
- The `delay` loops are left out. The clock and the sweep are one tick, with `now`
  as a parameter.
- Interleaving of callbacks and races on the screen state are left out.
- In `OnDataChange`, the read writes are issued after the collecting loop
  rather than inside it. They are fire-and-forget, so the resulting store state
  is the same.
- Base64 and bitmap handling (`uriToBase64`, JPEG compression, decoding) is left
  out. The image is an opaque optional string.
- `SimpleDateFormat` time formatting is left out. The countdown is the number of
  seconds, not the "N s" text.
- Layout, navigation, the snackbar and the title name fetch are left out. The
  title fetch (`MessageScreen.kt:95-100`) reads `Nom` with fallback
  "Utilisateur".
- The authentication, registration and profile screens are not part of this model.
- Timestamps and counts are unbounded integers. Long and Int overflow is not
  modelled.
- A child whose fields have the wrong type would make decoding throw. The model
  treats such a field as absent, and a child as undecodable only when its value
  is null.
- String order compares Unicode code points. Kotlin compares UTF-16 units. The
  two differ only for characters outside the Basic Multilingual Plane.
- `MessageScreen.ThreadScreen.StartEdit`: requires the message to be the user's
  own, because the source only offers "Modifier" on the user's own messages.
