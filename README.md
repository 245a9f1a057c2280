# WhatsApp clone: relay, local store and message helpers in Dafny

This project models the core of a small WhatsApp-style chat app and proves
properties of the model. The model has five parts.

- **Relay** (`relay.dfy`) is the WebSocket server. It keeps a registry
  from client-chosen user ids to connections. A login frame sets an entry,
  replacing whatever the id was mapped to before (except for the id
  `__proto__`; see "Left out"). A message frame is fanned
  out as `{from, message}` to every other registered id whose connection is
  open. The frame's `to` field is never read. Closing a connection deletes
  every entry that maps to it. A frame that does not parse changes nothing.
  `Relay.Relay` is a class whose methods are the event handlers. The
  transport's `readyState` is a map that environment steps (`Accept`,
  `BeginClose`) update.
- **Database** (`database.dfy`) is the app's local SQLite store.
  - The users, chats and messages tables are sequences of rows in insertion
    order. Ids come from per-table counters, as under AUTOINCREMENT.
  - The queries are pure functions built on one `Filter`.
  - The statements that change tables are methods of the class
    `Database.Db`: register, add chat, add message, the two deletions, and
    the two "make sure a chat exists" operations.
  - `EnsureChatsForUser` has the source's two loops: one collects the
    owner's conversation partners, one inserts the missing chats. Each loop
    is proved against a specification function (`Partners`, `EnsureAll`).
- **MessageBubble** (`message_bubble.dfy`) covers the message bubble's pure
  helpers:
  - the `m:ss` rendering of an audio duration;
  - the file-extension and file-icon lookup;
  - the choice between showing an audio player, a file card or plain text.
- **AudioRecorder** (`audio_recorder.dfy`) covers the recorder. It has the
  live `m:ss` counter. Its state (recording, isRecording, recordingTime) is
  a class driven by start, tick, stop and cancel. Each audio-library call is
  reduced to whether it succeeds.
- **Updates** (`updates.dfy`) is the updates screen:
  - avatar colours and initials;
  - the two-section list of statuses and fixed channels;
  - the per-row render dispatch.

`text.dfy` models the JavaScript string and number built-ins that the source
relies on, restricted to ASCII: `Number.prototype.toString` for
non-negative integers, `padStart(2, '0')`, `toLowerCase`, `split`, `join`,
`startsWith`, `substring` and `pop`. `wrappers.dfy` holds the `Option` type.

The model follows the code:

- The relay broadcasts every message to all other open, registered ids.
  There is no directed delivery to `to`.
- A login does not check that the id is non-empty.
- A connection that is closing but has not yet closed stays in the registry;
  it is only skipped while routing.

`MessageBubble.ParseClock` reads an `m:ss` label back into seconds, as the
inverse of the two `m:ss` formatters. Proving that both labels read back
to the number of seconds is what ties `formatDuration` in the bubble to
`formatTime` in the recorder.

## Model

| member | source | states |
|---|---|---|
| Text.NatToString | components/MessageBubble.tsx:88 | the decimal rendering of a count is a non-empty digit string, with a leading '0' only for zero |
| Text.DigitsValueOfNatToString | components/AudioRecorder.tsx:154 | the decimal rendering reads back as the number it renders |
| Text.PadStart2 | components/MessageBubble.tsx:88 | padding to two places keeps the text as a suffix and adds only '0's in front, up to length 2 |
| Text.Lower | components/MessageBubble.tsx:102 | lower-casing keeps the length and maps each character on its own |
| Text.Split | app/updates/index.tsx:132 | splitting gives at least one piece, and no piece contains the separator |
| Text.JoinSplit | components/MessageBubble.tsx:102 | joining the pieces of a split with the same separator gives back the original string |
| Text.SplitJoin | components/MessageBubble.tsx:102 | splitting a join of separator-free pieces gives back the pieces |
| Text.LastPieceIsTail | components/MessageBubble.tsx:102 | the last piece of a split is the suffix after the last separator, or the whole string when there is none |
| Text.SplitLower | components/MessageBubble.tsx:102 | for a non-letter separator, splitting the lower-cased string gives the lower-cased pieces, in order |
| Text.Take | app/updates/index.tsx:132 | `substring(0, n)` is a prefix of length min(n, length) |
| MessageBubble.FormatDuration | components/MessageBubble.tsx:84-89 | the `m:ss` label of a duration; `FormatDurationReadsBack`, `FormatDurationSecondsField` and `FormatDurationIgnoresMilliseconds` state its meaning |
| MessageBubble.FormatDurationReadsBack | components/MessageBubble.tsx:84-89 | the `m:ss` label of a duration in milliseconds reads back as exactly its whole seconds |
| MessageBubble.SecondsField | components/MessageBubble.tsx:87-88 | a seconds count below 60 renders as exactly two digits worth that count, with no colon |
| MessageBubble.FormatDurationSecondsField | components/MessageBubble.tsx:87-88 | the last two characters of a duration label are digits worth the seconds mod 60 (below 60), preceded by ':' |
| MessageBubble.ClockLabelReadsBack | components/MessageBubble.tsx:86-88 | a minutes count, a colon and a padded seconds count below 60 read back as minutes*60 + seconds |
| MessageBubble.FormatDurationIgnoresMilliseconds | components/MessageBubble.tsx:85 | a sub-second remainder does not change the label |
| MessageBubble.GetFileExtension | components/MessageBubble.tsx:101-103 | the extension of a file name; `FileExtensionIsTail` and `FileExtensionOfLower` state its meaning |
| MessageBubble.FileExtensionIsTail | components/MessageBubble.tsx:101-103 | the extension is the lower-cased text after the last '.', free of '.'; the whole name lower-cased when there is no '.'; empty when the name ends in '.' |
| MessageBubble.FileExtensionOfLower | components/MessageBubble.tsx:101-103 | the extension is lower-case and does not change when the name is lower-cased first |
| MessageBubble.IconForExtension | components/MessageBubble.tsx:108-140 | the icon switch; `GenericIconIffUnlisted` states which extensions get the generic icon |
| MessageBubble.GetFileIcon | components/MessageBubble.tsx:106-140 | the icon of a file name; `FileIconCaseInsensitive` states that it ignores letter case |
| MessageBubble.GenericIconIffUnlisted | components/MessageBubble.tsx:108-140 | the generic 'document' icon goes to exactly the extensions the switch gives no icon of their own, and 'doc' and 'docx' are among them |
| MessageBubble.FileIconCaseInsensitive | components/MessageBubble.tsx:106-107 | names that differ only in letter case get the same icon |
| MessageBubble.RenderMessageContent | components/MessageBubble.tsx:167-238 | audio player iff the type is 'audio' and the audio URI is non-empty, with the duration label of the duration (0 when missing); file card iff the type is 'file' and the file URI and name are non-empty, with the name's icon; plain text otherwise |
| AudioRecorder.FormatTime | components/AudioRecorder.tsx:151-155 | the live counter's `m:ss` label; `FormatTimeReadsBack` and `DurationLabelMatchesCounter` state its meaning |
| AudioRecorder.FormatTimeReadsBack | components/AudioRecorder.tsx:151-155 | the live counter's `m:ss` label reads back as exactly the elapsed seconds |
| AudioRecorder.DurationLabelMatchesCounter | components/AudioRecorder.tsx:105 | the duration handed on by stop, `recordingTime * 1000`, renders in the bubble exactly as the counter showed it |
| AudioRecorder.Recorder.constructor | components/AudioRecorder.tsx:17-35 | mounting starts with no recording, recording off, counter 0, and the permission answer stored |
| AudioRecorder.Recorder.StartRecording | components/AudioRecorder.tsx:53-81 | without permission nothing changes; a successful start stores the new recording, turns recording on and resets the counter; a failed start changes nothing |
| AudioRecorder.Recorder.Tick | components/AudioRecorder.tsx:38-50 | the counter goes up by one while recording is on, and nothing else changes |
| AudioRecorder.Recorder.StopRecording | components/AudioRecorder.tsx:84-120 | with no recording nothing happens; otherwise the completion callback gets the URI and `recordingTime * 1000` when stopping succeeds with a non-empty URI, and the state is always reset |
| AudioRecorder.Recorder.CancelRecording | components/AudioRecorder.tsx:123-148 | the cancel callback is invoked exactly once, and the state is reset when a recording existed |
| Updates.GetUpdateColor | app/updates/index.tsx:117-121 | the colour is an entry of the update palette, and it is the k-th entry exactly when the name's length is k mod 6 |
| Updates.GetChannelColor | app/updates/index.tsx:124-128 | the colour is an entry of the channel palette, and it is the k-th entry exactly when the name's length is k mod 6 |
| Updates.ColorDependsOnLengthOnly | app/updates/index.tsx:119-126 | two names get the same colour, from either palette, exactly when their lengths agree mod 6 |
| Updates.FirstLetters | app/updates/index.tsx:132 | each character is the first character of some non-empty word, and there are at most as many characters as words; its value is pinned by `FirstLettersOfWord` and `FirstLettersAppend` |
| Updates.FirstLettersOfWord | app/updates/index.tsx:132 | a single word contributes its first character, or nothing when it is empty |
| Updates.FirstLettersAppend | app/updates/index.tsx:132 | the letters of two lists of words concatenated are the letters of each list, in order |
| Updates.Initials | app/updates/index.tsx:131-138 | the initials (the same function for updates and channels) are the first min(2, n) of the n first letters of the space-separated words, and contain no space |
| Updates.InitialsOfWords | app/updates/index.tsx:132 | for words joined by single spaces, the initials are the first letters of the first two words |
| Updates.UpdateItems | app/updates/index.tsx:37 | every update row becomes an item, in order |
| Updates.RenderItem | app/updates/index.tsx:97-107 | in 'Durumlar' the add-status item renders the add card and every other item an update card; 'Kanallar' renders channel cards; any other section renders nothing |
| Updates.SectionsData | app/updates/index.tsx:32-48 | the two sections of the list; what they hold and how they render is stated by `ScreenRows` |
| Updates.ScreenRows | app/updates/index.tsx:32-48 | the statuses section is the add card followed by one update card per update in order; the channels section is exactly the three fixed channels, as channel cards |
| Relay.Purge | backend/server.js:48-52 | the registry without the closing connection keeps every other entry unchanged and no longer maps any id to that connection |
| Relay.Relay.constructor | backend/server.js:9 | the registry starts empty |
| Relay.Relay.Accept | backend/server.js:11 | a new connection is open and not registered |
| Relay.Relay.BeginClose | backend/server.js:32 | a connection that starts closing is no longer open but stays registered |
| Relay.Relay.Login | backend/server.js:21-22 | a login maps the id to the connection, replacing any earlier connection, and leaves every other entry unchanged |
| Relay.Relay.Route | backend/server.js:27-36 | one send of `{from, message}` per registry key other than `from` whose connection is open, to that key's connection, at most one per key, and no other send |
| Relay.Relay.OnFrame | backend/server.js:14-42 | a login changes only the registry and sends nothing; a message sends as Route does and leaves the registry alone; any other or malformed frame changes nothing and sends nothing |
| Relay.Relay.Close | backend/server.js:46-53 | closing removes exactly the entries mapped to the connection, keeps all others, and marks it closed |
| Relay.SelfExclusion | backend/server.js:30-32 | the sender never receives its own message, a connection that is not open never receives, and a sender alone in the registry reaches nobody |
| Relay.UnregisteredSenderReachesAll | backend/server.js:29-35 | a sender that is not registered reaches every registered key whose connection is open |
| Database.Filter | app/database.ts:243 | a WHERE clause keeps exactly the rows that satisfy it, and only those |
| Database.FilterKeepsOrder | app/database.ts:243 | over ascending ids a filtered table is still in ascending id order |
| Database.FilterFirst | app/database.ts:53 | the first row a filter returns is the first row of the table that satisfies it |
| Database.AppendKeepsTable | app/database.ts:40 | an insert under the next id keeps the ids ascending, positive and below the next id |
| Database.FilterKeepsTable | app/database.ts:374 | a deletion keeps the ids ascending, positive and below the next id |
| Database.LoginUser | app/database.ts:50-55 | a user is returned iff some user has that username and password, and it is the first such user of the table |
| Database.LoginFindsRegisteredUser | app/database.ts:50-55 | under the unique username, logging in with a stored user's credentials returns exactly that user |
| Database.GetChats | app/database.ts:119-124 | every chat when no owner is given, otherwise exactly the chats of that owner |
| Database.GetMessagesForChat | app/database.ts:242-244 | exactly the messages of that chat |
| Database.BetweenOrToAll | app/database.ts:249-252 | the WHERE clause of the conversation query; `GetMessagesBetweenUsers` and `MessagesBetweenSymmetric` state its meaning |
| Database.GetMessagesBetweenUsers | app/database.ts:247-256 | exactly the messages between the two users in either direction, plus every message sent to 'all' |
| Database.MessagesBetweenSymmetric | app/database.ts:247-256 | the conversation query gives the same rows with its two users swapped |
| Database.MessageQueriesOrdered | app/database.ts:243-253 | over a well-formed table both message queries return rows in ascending id order |
| Database.StringOrNull | app/database.ts:232 | a missing or empty string argument is stored as NULL, any other as given |
| Database.NumberOrNull | app/database.ts:232 | a missing or zero number argument is stored as NULL, any other as given |
| Database.StoredMessage | app/database.ts:226-233 | the inserted row keeps chat, text and time; isMine becomes 1 or 0; a missing type becomes 'text'; each of the seven optional fields is stored as `StringOrNull` or `NumberOrNull` of its argument, i.e. NULL when falsy and as given otherwise |
| Database.WithoutMessage | app/database.ts:373-375 | the messages left are exactly those with another id |
| Database.WithoutChat | app/database.ts:378 | the chats left are exactly those with another id |
| Database.WithoutChatMessages | app/database.ts:379 | the messages left are exactly those of other chats |
| Database.DeleteRemovesAtMostOne | app/database.ts:373-378 | over unique ids, deleting a message or a chat by id removes at most one row |
| Database.SetAdd | app/database.ts:279-280 | adding to the set gives the old members and the new one |
| Database.OneToOne | app/database.ts:263-268 | the WHERE clause of the partner query; `PartnersAreCounterparts` states its meaning |
| Database.Partners | app/database.ts:263-281 | the partner ids of the owner in the set's order; `PartnersAreCounterparts` states what they are |
| Database.AddPartnersContents | app/database.ts:275-281 | the collecting loop never records an id twice, and records exactly the earlier ids plus the other party of each row the owner sent (or received) with a non-empty other side |
| Database.PartnersAreCounterparts | app/database.ts:263-281 | the partners collected are, without repetition, exactly the non-empty other parties of the owner's one-to-one messages (both ids present, receiver not 'all') |
| Database.OtherUserIds | app/database.ts:263-281 | the first loop of `ensureChatsForUser` computes exactly the partner list `Partners` |
| Database.FindUserById | app/database.ts:295-306 | the first user of the table with that id is found; none is found exactly when no user has it |
| Database.FindUserByUniqueId | app/database.ts:295-306 | over ascending ids, the user found is the stored user with that id |
| Database.UserNumber | app/database.ts:288-289 | the numeric part of a `user_` id; `UserNumberOfNatToString` states that the rendering of a number reads back as that number |
| Database.UserNumberOfNatToString | app/database.ts:288-289 | the suffix of an id `user_<n>` made from a number n gives back n |
| Database.ChatNameFor | app/database.ts:287-307 | an id without the `user_` prefix, or whose suffix is not a number, gives no chat; otherwise the chat is named after the first user with that number when that user's name is non-empty, and after the id itself when there is no such user or the name is empty |
| Database.ChatNameForUserId | app/database.ts:287-307 | over ascending user ids, `user_<n>` gives a chat named after the user with id n when that user's name is non-empty, and after the id otherwise |
| Database.EnsureAll | app/database.ts:286-320 | the insert loop as a fold over the chat names; its meaning is stated by `EnsureAllAppends`, `EnsureAllCovers`, `EnsureAllNoOp`, `EnsureAllIdempotent` and `EnsureAllNewRows` |
| Database.ChatNames | app/database.ts:286-307 | one chat name per partner id, in order |
| Database.EnsureChat | app/database.ts:313-316 | the chats table is unchanged or gains exactly one row for the owner, named and filled with 'Son Mesaj Yok', an empty time and an empty avatar; earlier rows are kept |
| Database.EnsureChatProvides | app/database.ts:313-316 | a row is added only when the owner has no chat of that name, and afterwards one exists |
| Database.EnsureAllStep | app/database.ts:286-320 | one pass of the insert loop advances the fold by exactly one name |
| Database.EnsureAllAppends | app/database.ts:286-320 | the insert loop only appends; all earlier chats are kept as they were |
| Database.HasChatPersists | app/database.ts:286-320 | a chat that exists before the insert loop still exists after it |
| Database.EnsureAllCovers | app/database.ts:286-320 | after the insert loop the owner has a chat for every name |
| Database.EnsureAllNoOp | app/database.ts:313-316 | when every name already has a chat, the insert loop changes nothing |
| Database.EnsureAllIdempotent | app/database.ts:306-316 | running the insert loop a second time over the same names adds no row, whatever the next id |
| Database.EnsureAllNewRows | app/database.ts:316 | every added row belongs to the owner, carries 'Son Mesaj Yok', an empty time and avatar, takes the next ids in turn, and has one of the names |
| Database.EnsureManyForIds | app/database.ts:286-320 | for partner ids, a second pass adds nothing, and each added chat is named after a partner id that starts with `user_` |
| Database.EnsureManyCoversIds | app/database.ts:286-320 | every partner id that passes the `user_` gate ends up with a chat of its name |
| Database.Db.constructor | app/database.ts:25-90 | the tables start empty with every next id at 1 |
| Database.Db.RegisterUser | app/database.ts:37-47 | a taken username gives null and changes nothing; otherwise the user is inserted under the next id and that new row is returned |
| Database.Db.AddChat | app/database.ts:93-98 | the chat is appended under the next id, and nothing else changes |
| Database.Db.AddMessage | app/database.ts:226-240 | the stored form of the message is appended under the next id, and nothing else changes |
| Database.Db.DeleteMessage | app/database.ts:373-375 | only the messages with that id are removed |
| Database.Db.DeleteChat | app/database.ts:377-380 | the chat with that id and every message of that chat are removed, and nothing else |
| Database.Db.EnsureChatForIncomingMessage | app/database.ts:324-367 | the chats table becomes `EnsureChat` of the sender's chat name for the receiver, and the next chat id follows the rows added |
| Database.Db.EnsureChatsForUser | app/database.ts:259-321 | the chats table becomes `EnsureAll` over the chat names of the owner's partners, in the set's order, and nothing else changes |

## Left out

- Transport: the WebSocket server, port binding, JSON parsing and printing, and logging. Frames arrive already decoded. `Malformed` stands for any frame that does not parse, or whose parsed value throws when read.
- Relay.Relay.Route: the order of sends follows `for..in` key order in the source. Here each key is picked arbitrarily, so the model fixes the set of sends but not their order.
- Relay.Relay.Route: a `send` that throws part-way through the loop would stop the remaining sends. The model treats every send as going through.
- Relay.Relay.Login: the source's registry is a plain object, so a login as `__proto__` calls the inherited prototype setter. That swaps the object's prototype for the connection and adds no entry, so the id is never registered or delivered to. The model registers `__proto__` like any other id.
- Relay.Relay.OnFrame: a login frame with the id `__proto__` has the same gap as `Login`. The source changes the registry object's prototype and adds no entry, while the model registers the id.
- JavaScript quirks: a numeric `from` or `userId` is compared against string keys, and a login without `userId` registers the key "undefined". Ids are strings here.
- Concurrency: the relay's handlers are synchronous, so each runs to completion and is one atomic step. The recorder's handlers are not; see the three lines below.
- AudioRecorder.Recorder.StartRecording: `startRecording` is `async` and waits at its audio-mode and recording calls, but the model treats it as one atomic step. A short tap can run `stopRecording` (bound to press-out) while the start is still waiting: the stop finds no recording and returns, and the start then leaves a recording running. That interleaving is not modelled.
- AudioRecorder.Recorder.StopRecording: `stopRecording` is `async` and waits while the recording stops, but the model treats it as one atomic step. A cancel or a tick that runs during that wait is not modelled, so neither is `onCancel` firing before `onRecordingComplete`, nor a start that is still waiting while the stop runs.
- AudioRecorder.Recorder.CancelRecording: `cancelRecording` is `async` and waits while the recording stops and its file is deleted, but the model treats it as one atomic step. Its running during a stop, or a stop running during it, is not modelled.
- The SQLite engine, the SQL text, and the schema helpers (`setup*`, `dropAndRecreate*`, `clear*`). The calls, communities and updates tables are also not part of this model.
- The `id`/`userId` column fallback in the two ensure operations. The model uses the `id` column of `setupUserTable`.
- Database.UserNumber: `Number(...)` and `Number.isFinite` are modelled as a partial parse. The empty string gives 0, a decimal digit string gives its value, and anything else gives no number. JavaScript also accepts surrounding whitespace, a sign, hexadecimal, binary and octal prefixes, exponents and fractions, so suffixes such as `" 1"`, `"+1"`, `"1.0"`, `"0x1"` or `"1e0"` give the number 1. For those, the source looks up the user with that number and names the chat after that user, or after the id when there is no such user or the name is empty (a fraction such as `"1.5"` matches no integer id). The model creates no chat for them. The reverse also happens. A digit string worth 2^1024 - 2^970 or more, about 309 digits or longer, makes `Number(...)` Infinity, so `Number.isFinite` skips it and the source makes no chat. The model reads its exact value and names a chat after the id. A digit string worth more than 2^53 may be rounded by `Number` before the user lookup, while the model looks up the exact value.
- Database.ChatNameFor: a user's name is a string, so a SQL NULL name is folded into the empty string. Both fall back to the id.
- Database.Db.RegisterUser: only the UNIQUE constraint makes the insert fail here. Any other database error is not modelled.
- Database.Db.EnsureChatsForUser: the second loop calls `EnsureChatForIncomingMessage` for each partner. The source repeats that function's body inline, with `continue` in place of `return`.
- `formatFileSize` uses floating point (`Math.log`, `Math.pow`, `toFixed`).
- Media and files: audio playback and recording, the file system, sharing and alerts. The microphone permission request becomes a constructor argument. The one-second timer becomes an explicit `Tick`.
- Unicode: `toLowerCase` and string lengths are modelled over ASCII characters, not UTF-16.
- Text.NatToString: `toString` switches to exponent notation at 1e21 and above. Durations and counters that large are not modelled.
- Durations, sizes and counters are non-negative integers. A fractional or negative millisecond count is not modelled.
- The UI: layout, styles, navigation, the other screens, and the database seeding effect of the updates screen.
