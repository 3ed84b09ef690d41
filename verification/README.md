# Real-time group chat: a Dafny model of the hub and its client-side logic

This project models the logic of a small Socket.IO group chat:

- **The server hub.** It holds a `users` table keyed by connection id and a bounded message history. It handles `user_join`, `send_message`, `typing_start`, `typing_stop` and `disconnect`.
- **The client hooks.** These are:
  - the username validator and the local name store (IndexedDB);
  - the updaters that keep a client's roster, messages and typing list in step with server events;
  - the message search filter;
  - the message box's typing-indicator state machine.

Each socket handler is a pure step `(state, connection id, command, clock) -> (state', events)`. Every emitted event carries its audience:
- `Requester` for `socket.emit`;
- `Everyone` for `io.emit`;
- `Others` for `socket.broadcast.emit`.

The Node event loop runs each handler to completion, so a step is atomic.

Modules, one per source file or component:

| file | module | models |
|---|---|---|
| wrappers.dfy | `Wrappers` | `Option` for absent fields |
| seqs.dfy | `Seqs` | `filter`, subsequences, duplicate freedom, last-n window |
| js_text.dfy | `JsText` | `trim`, ASCII `toLowerCase`, `includes`, `Number.toString` |
| chat_types.dfy | `ChatTypes`, `Protocol` | `User`, `Message`, the wire payloads, commands, audiences |
| registry.dfy | `Registry` | the insertion-ordered `Map<string, User>` |
| history.dfy | `History` | push-then-shift history bounded at 1000 |
| hub.dfy | `Hub` | the five socket handlers, the hub invariant, runs of handlers |
| user_store.dfy | `UserStore` | `checkUsername`, `addUser`, `userExists`, `updateLastSeen`, `deleteUser` |
| client_view.dfy | `ClientView` | the `useWebSocket` state updaters, and hub/client agreement |
| message_search.dfy | `MessageSearch` | `filteredMessages`, `searchResultsCount` |
| message_input.dfy | `MessageInput` | `handleInputChange`, `handleSendMessage`, the stop timer |

The hub invariant `Hub.Valid` has four parts:
- connection ids are distinct;
- usernames are distinct;
- every entry is online and has no last-seen date;
- the history holds at most 1000 messages.

Every handler preserves it (`Hub.StepPreservesValid`), and so does every run of handlers (`Hub.RunPreservesValid`). From server start, the history always equals the last `min(n, 1000)` messages sent, oldest first (`Hub.HistoryIsRecentWindow`).

Nothing in `send_message` checks that the connection has joined: any connection's message is stamped, stored and broadcast (`Hub.SendAcceptsAnyConnection`).

## Model

| member | source | states |
|---|---|---|
| Hub.OnJoin | server/index.ts:50-74 | A name held by an online entry gets only `username_taken` to the requester, with no state change. Otherwise the connection's entry becomes `{id, username, isOnline: true}` and no other entry changes. Four events follow, in order: `user_joined` to others; `users_list` and `messages_history` to the requester; `users_update` to everyone. Both rosters are the table in insertion order: a new connection's entry is appended at the end, and a re-joining connection's entry is replaced in place with every other entry at its position. Connection ids stay distinct. |
| Hub.JoinTakenRejected | server/index.ts:52-59 | A join under a name an online user holds changes nothing, and every event it emits is `username_taken` to the requester. |
| Hub.JoinPreservesValid | server/index.ts:52-67 | After any join, usernames stay pairwise distinct and every entry stays online. This holds when the connection re-joins and overwrites its own entry. |
| Hub.RejoinReplacesOwnEntry | server/index.ts:61-67 | A connection re-joining under a free name replaces its entry in place. The roster keeps its length and the order of the other entries. |
| Hub.SecondAliceRejected | server/index.ts:50-59 | A joins as "alice", then B asks for "alice". B alone receives `username_taken`, and the roster holds only A's entry. |
| Hub.Stamp | server/index.ts:76-81 | The stored message keeps the client's author, content, kind and file info. Its id is the decimal rendering of `Date.now()` and its timestamp is `new Date()`. |
| Hub.StampIdsDistinct | server/index.ts:79 | Messages stamped in different milliseconds get different ids. |
| Hub.StampIgnoresClientIdentity | server/index.ts:77-81 | Whatever `id` and `timestamp` a client supplies, the stored message is the same. |
| Hub.OnSendMessage | server/index.ts:76-90 | The roster is unchanged. The history is the old one with the stamped message pushed. Exactly one `new_message` goes to everyone, the sender included. |
| Hub.SendAcceptsAnyConnection | server/index.ts:76-90 | A connection with no roster entry still has its message stored and broadcast. |
| Hub.OnTyping | server/index.ts:92-98 | Typing start and stop change no state. Each emits one event, `user_typing` or `user_stop_typing`, to the other connections only. |
| Hub.OnDisconnect | server/index.ts:100-109 | For a known connection, events go in order: `user_left` with `isOnline = false` and `lastSeen` set, to the others; then `users_update` without the entry, to everyone. Only that entry is removed and the other entries keep their order. An unknown connection causes no events and no change. |
| Hub.DisconnectPreservesValid | server/index.ts:100-109 | Removing an entry keeps names distinct and all entries online. |
| Hub.DisconnectTwiceIsNoOp | server/index.ts:101-102 | A second disconnect of the same connection emits nothing and changes nothing. |
| Hub.StepPreservesValid | server/index.ts:44-112 | Every handler preserves the hub invariant: distinct ids, distinct names, all online, history at most 1000. |
| Hub.RunPreservesValid | server/index.ts:44-112 | Any sequence of handler runs from a valid state ends in a valid state. |
| Hub.RunHistoryIsPushAll | server/index.ts:76-87 | Over any run, the history changes only by pushing the stamped `send_message` payloads, in order. |
| Hub.HistoryIsRecentWindow | server/index.ts:83-87 | From server start, the history is the last `min(n, 1000)` of the `n` messages sent, oldest first. |
| History.Push | server/index.ts:83-87 | The message lands at the tail. Below the bound nothing is evicted. At the bound exactly the oldest message is evicted. A history within the bound stays within it. |
| History.PushKeepsWindow | server/index.ts:83-87 | Pushing onto the last-1000 window of a log gives the last-1000 window of the extended log. |
| History.PushAllIsWindow | server/index.ts:83-87 | From any history within the bound, successive pushes leave the last 1000 of the history followed by the pushed messages. |
| Registry.Get | server/index.ts:101 | `users.get` finds an entry exactly when one has that id, and returns an entry with that id. |
| Registry.Set | server/index.ts:67 | `users.set` makes `get` return the new entry and leaves every other key's entry as it was. A present key is replaced in place; a new key is appended at the end. Distinct keys stay distinct. |
| Registry.Delete | server/index.ts:107 | `users.delete` makes the key absent and leaves other keys untouched. The rest keep their order. Deleting an absent key is the identity. |
| JsText.DecimalString | server/index.ts:79 | `Date.now().toString()` is a non-empty string of decimal digits with no leading zero. |
| JsText.DecimalRoundTrip | server/index.ts:79 | Reading the decimal rendering back gives the number. |
| JsText.Trim | src/hooks/useIndexedDB.ts:157 | `trim()` returns a contiguous piece of the input with whitespace only cut from either side. The result neither starts nor ends with whitespace. |
| JsText.Utf16LengthAppend | src/hooks/useIndexedDB.ts:161-167 | JavaScript's `length` (UTF-16 code units, between one and two per character) of a concatenation is the sum of the lengths. |
| JsText.Utf16Length | src/hooks/useIndexedDB.ts:161-167 | JavaScript's `length` counts UTF-16 code units: at least one and at most two per character. |
| JsText.Utf16LengthBmp | src/hooks/useIndexedDB.ts:161-167 | A string of characters at most U+FFFF has `length` equal to its number of characters. |
| JsText.Utf16LengthAstral | src/hooks/useIndexedDB.ts:161-167 | A string of characters above U+FFFF has `length` twice its number of characters. |
| JsText.Lower | src/hooks/useMessageSearch.ts:10-13 | `toLowerCase` keeps the length, maps `A`-`Z` to `a`-`z`, keeps every other character, and leaves no ASCII capital. |
| JsText.Includes | src/hooks/useMessageSearch.ts:12-13 | `includes(t)` is true exactly when `t` occurs at some position. |
| UserStore.UserExists | src/hooks/useIndexedDB.ts:63-78 | `userExists` is true exactly when a record is stored under the name. |
| UserStore.AddUser | src/hooks/useIndexedDB.ts:32-61 | On an existing key it returns false with the store unchanged. Otherwise it inserts `{username, lastSeen, joinDate}` from its two `new Date()` readings and returns true. It never alters other records. |
| UserStore.UpdateLastSeen | src/hooks/useIndexedDB.ts:80-114 | This is an upsert. An existing record keeps its name and join date and gets a new `lastSeen`. A missing one is created from the two `new Date()` readings. Other records are unchanged. |
| UserStore.DeleteUser | src/hooks/useIndexedDB.ts:133-147 | Removes exactly that key. Every other record is unchanged. |
| UserStore.AddThenExists | src/hooks/useIndexedDB.ts:40-51 | After `addUser` the name exists, whether or not it was inserted. After `deleteUser` it does not. |
| UserStore.AddDeleteRoundTrip | src/hooks/useIndexedDB.ts:40-51 | Adding a new name and deleting it restores the store. |
| UserStore.AddUserIdempotent | src/hooks/useIndexedDB.ts:40-43 | A second `addUser` of the same name returns false and changes nothing. |
| UserStore.CheckUsername | src/hooks/useIndexedDB.ts:156-185 | A whitespace-only name gets 'Username cannot be empty' with `exists: false`. There is no error exactly when the name is not blank, its untrimmed length in UTF-16 code units is 2 to 20, and it has none of `< > / " \ &`. Only then is `exists` reported, and it is true exactly when the store has the key. Any error has `exists: false`. |
| UserStore.CheckUsernameFirstFailure | src/hooks/useIndexedDB.ts:156-173 | The rules apply in order, and the first rule the name breaks decides the error. |
| UserStore.CheckUsernameIgnoresStoreOnError | src/hooks/useIndexedDB.ts:156-178 | A rejected name's answer does not depend on the store, so the store is consulted only after all rules pass. |
| UserStore.HasForbidden | src/hooks/useIndexedDB.ts:170-171 | `invalidChars.test` is true exactly when some character of the name is one of `< > / " \ &`. |
| UserStore.UpperBoundInclusive | src/hooks/useIndexedDB.ts:165-167 | Despite the "less than 20" wording, every non-blank name of at least 2 characters, none forbidden and none above U+FFFF, passes exactly when it has at most 20 characters and is otherwise rejected as too long. |
| UserStore.LengthIsUntrimmed | src/hooks/useIndexedDB.ts:157-163 | Length is measured before trimming: " a" passes the length rules. |
| UserStore.SurrogatePairsCountTwice | src/hooks/useIndexedDB.ts:161-167 | A character above U+FFFF counts as two: every non-empty name made only of such characters passes exactly when it has at most 10 of them and is otherwise rejected as too long. |
| ClientView.AddTyping | src/hooks/useWebSocket.ts:42-46 | `user_typing` appends a new name at the end and keeps the rest in order. A present name leaves the list unchanged. The list stays free of duplicates. |
| ClientView.RemoveTyping | src/hooks/useWebSocket.ts:48-50 | `user_stop_typing` removes every occurrence of the name and keeps every other name, in order. The list stays free of duplicates. |
| ClientView.AddTypingIdempotent | src/hooks/useWebSocket.ts:43-45 | Adding a name twice is adding it once. |
| ClientView.RemoveAbsentIsIdentity | src/hooks/useWebSocket.ts:49 | Removing an absent name leaves the list unchanged. |
| ClientView.StartThenStopRestores | src/hooks/useWebSocket.ts:42-50 | For a name not in the list, a start followed by a stop restores the original list. |
| ClientView.Apply | src/hooks/useWebSocket.ts:26-50 | `users_list` and `users_update` replace the roster wholesale. `messages_history` replaces the messages. `new_message` appends exactly one message at the tail and keeps the earlier ones. The typing events update only the typing list. |
| ClientView.TypingStaysDuplicateFree | src/hooks/useWebSocket.ts:42-50 | Whatever events arrive, the typing list never holds a name twice. |
| ClientView.FreshClientTypingDuplicateFree | src/hooks/useWebSocket.ts:10 | A client starting from empty lists never shows a typing name twice, whatever events reach it. |
| ClientView.JoinSyncsRequester | src/hooks/useWebSocket.ts:26-36 | After a successful join, the joining client's roster and messages equal the hub's roster and history. |
| ClientView.JoinSyncsOthers | src/hooks/useWebSocket.ts:26-32 | After a successful join, every other client's roster equals the hub's. |
| ClientView.DisconnectSyncsOthers | src/hooks/useWebSocket.ts:30-32 | After a disconnect, the remaining clients' roster equals the hub's and lacks the departed connection. A disconnect of an unknown connection leaves their views unchanged. |
| ClientView.SendReachesEveryone | src/hooks/useWebSocket.ts:38-40 | Every client, the sender included, appends the stamped message to its list. |
| MessageSearch.Matches | src/hooks/useMessageSearch.ts:11-14 | A message matches exactly when the lowercased term occurs at some position of its lowercased content or of its lowercased username. The empty term matches every message. |
| MessageSearch.FilteredMessages | src/hooks/useMessageSearch.ts:7-14 | A blank term returns the list unchanged. Otherwise the result is a subsequence of the input in original order. Every result matches: its lowercased content or username contains the lowercased term. Every matching input is in the result. |
| MessageSearch.FilteredMessagesCounts | src/hooks/useMessageSearch.ts:7-14 | Every copy of a matching message is kept and no copy of another: each message occurs in the result as often as in the input when the term is blank or it matches, and not at all otherwise. |
| MessageSearch.SearchResultsCount | src/hooks/useMessageSearch.ts:17-19 | The count is the number of results. It never exceeds the number of messages and equals it for a blank term. |
| MessageSearch.SearchIdempotent | src/hooks/useMessageSearch.ts:7-14 | Searching the results again with the same term returns them unchanged. |
| MessageSearch.SearchIgnoresCase | src/hooks/useMessageSearch.ts:10-14 | Terms that differ only in letter case give the same results. |
| MessageSearch.TermIsNotTrimmed | src/hooks/useMessageSearch.ts:8-14 | The term is trimmed only for the blankness test. " hi" finds nothing in a message "hi" from "bob", while "hi" finds it. |
| MessageInput.OnInput | src/components/MessageInput.tsx:20-36 | Every input sets the buffer and (re)arms the stop timer. `onTypingStart` fires once when the box was not typing, no signal fires when it was, and no other signal ever fires. |
| MessageInput.OnTimeout | src/components/MessageInput.tsx:32-35 | The timer firing emits `onTypingStop` and clears the typing flag. The buffer is unchanged. |
| MessageInput.OnSend | src/components/MessageInput.tsx:38-52 | A blank buffer or a disabled box emits nothing and changes nothing. Otherwise the box sends the trimmed, non-empty text, empties the buffer and disarms the timer. It emits `onTypingStop` if and only if it was typing, and is not typing afterwards. |
| MessageInput.StepKeepsSynced | src/components/MessageInput.tsx:20-52 | The stop timer is pending exactly while the box is typing, after every event. |
| MessageInput.StepTracks | src/components/MessageInput.tsx:23-46 | One event never emits a start while typing or a stop while idle, and it ends on the new typing flag. |
| MessageInput.TypingSignalsAlternate | src/components/MessageInput.tsx:20-52 | Over any series of events, start and stop signals strictly alternate and agree with the final typing flag. |
| MessageInput.FromFirstRender | src/components/MessageInput.tsx:16-52 | From the first render (empty text, not typing), the first typing signal is a start, starts and stops alternate, and the box is typing at the end exactly when the last one was a start. |
| Seqs.Filter | src/hooks/useWebSocket.ts:49 | `filter` returns a subsequence, in original order, of elements satisfying the predicate, holding every satisfying element, and keeps a duplicate-free list duplicate-free. |
| Seqs.FilterMultiset | src/hooks/useWebSocket.ts:49 | `filter` keeps every copy of a satisfying element and no copy of any other: each value occurs as often as in the input when it satisfies the predicate, and never otherwise. |
| Seqs.FilterIdempotent | src/hooks/useMessageSearch.ts:11-14 | Filtering twice with one predicate is filtering once. |

## Left out

- Transport and bootstrap are left out: express, CORS, static files, `listen` and the console logs (server/index.ts:1-20, 115-118). Audiences are tags on events, and delivery to each connection is `ClientView.Deliver`.
- Clocks are parameters: `Date.now()`, `new Date()` in the hub and in the name store. `addUser` and `updateLastSeen` read `new Date()` twice, and the model takes the two readings as two parameters. Message ids are not claimed unique, because two sends in the same millisecond get the same id.
- Concurrency is not modelled. The event loop runs each handler to completion, so a handler is one atomic step.
- The IndexedDB plumbing is left out: opening the database, transactions, request callbacks and the catch-and-log paths. This also drops the 'Error checking username availability' answer of `checkUsername`, which only a failing database read produces. The React `isChecking` flag is left out too.
- `getAllUsers` is left out: nothing in the application calls it. `registerUser` and `updateUserActivity` only delegate to `addUser` and `updateLastSeen`.
- The client hook's connection flag (`isConnected`) is left out. So are its emit wrappers (`joinChat`, `sendMessage`, `startTyping`, `stopTyping`), which only forward to the socket.
- Only the declared fields of a `send_message` payload are modelled. Any extra fields a client adds would be copied by the spread, and the model drops them.
- Strings are sequences of Unicode scalar values. JavaScript's `length`, which the name length rules use, is modelled as `JsText.Utf16Length` (two code units above U+FFFF). Lone surrogates, which a JavaScript string may hold, cannot be represented.
- JsText.Lower: lowercases only the ASCII letters `A`-`Z`. JavaScript's `toLowerCase` also folds non-ASCII letters, so MessageSearch.FilteredMessages is case-insensitive only for ASCII letters.
- `FileInfo.size` is a JavaScript number; the model uses an integer.
- The message box sees each event against the latest state. React closures that capture an older `isTyping` across batched updates are not modelled.
- The user interface components are left out: chat room orchestration, message and user lists, the search box, the file upload progress bar, and size and time formatting.
