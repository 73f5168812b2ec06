# OddSockets C client: verified model

The OddSockets C client speaks Socket.IO over WebSocket frames. libcurl and libwebsockets move the bytes;
everything above them is written by hand, and that is what is modelled here in Dafny: the text codecs, the
connection and subscription state machines, the token refresh, the outbound frame queue, the channel
registry and the manager URL normaliser.

    dafny verify dfyconfig.toml

checks everything.

## How it is organised

Code that moves pointers through buffers or updates structs is written as methods over indices, arrays and
class fields. Each is proved against a function of its inputs or of the old state, and in
the words of its own fields; what the client is for is then proved about those functions, in terms that do
not name them: literal texts, round trips, independent readers, and the history of a run.

| module | content |
|---|---|
| `CStrings` | C strings as texts without NUL, cursors as indices, `strstr`, `strchr`, trimming, decimal numbers |
| `JsonText` | a JSON tree with its whitespace, its printer, and the bracket counting the scanners rely on |
| `StringScan`, `RawValue`, `SplitArray` | string literals, the raw-value extractor, the array splitter |
| `JsonTable`, `Flatten` | the flattening parser and its lookups; printed trees and their dotted leaves |
| `EventFrame` | Socket.IO event frames: the framer and the deframer |
| `Emitters` | the bounded escaper and the payloads of the typing and reaction events |
| `Base64Url`, `Jwt`, `TokenRefresh` | decoding, the `exp` claim, and minting against a clock |
| `SendQueue` | the linked list of outbound frames |
| `Connection`, `ClientObject` | the connection state machine over all runs, and the client whose methods refine it |
| `Subscription`, `Dispatch` | subscription flags and history waiter over all runs, and the channel whose methods refine them |
| `Publish`, `PublishOptions`, `HistoryAnswer` | what publish puts on the wire and what a receiver isolates of it; history answers and their lists |
| `ServerEvents` | presence, errors and snapshots as the client reads them; the CONNECT packet as the server does |
| `Registry`, `Receive` | the channel table; a received event message, from its frame through the table to the callback |
| `ManagerUrl` | the URL normaliser that runs twice |

## What the proofs found

Each of these is a lemma below, usually an exact condition.

- The array splitter never returns exactly when it meets a `}` at depth 0 outside a string
  (`HangsExactlyOnStrayBrace`). A history answer can carry such a list, so one event can hang a client that
  waits for an answer (`EventHangsIff`, `HangingAnswer`). Well-formed lists cannot, whatever their strings
  hold (`WellFormedListEnds`).
- The extractor finds the end of a value by counting one kind of bracket and does not look at strings. The
  value comes out exactly when the brackets inside it balance, those in its strings included (buffer sizes
  and text ends aside): a closing one too many cuts the value short, an opening one too many makes the scan run on, and brackets that balance
  over several strings do no harm (`ExtractsExactlyIff`, `StringBraceCutsShort`, `StringBraceRunsOn`,
  `StringBracesCancelOut`). Text bodies are embedded without escaping and arrive exactly when they are
  complete literals (`ShortBodyArrivesIff`).
- "Connected" implies an open, acknowledged websocket exactly on the runs in which no callback of a live
  websocket makes an `oddsockets_connect` that gets as far as the websocket. Such a call breaks it at the
  old websocket's next ack; one that is refused, or fails at the token or the worker assignment, is harmless
  (`CarefulIffHarmless`, `SafeIffCareful`).
- The on-join snapshot of a channel is told from an answer by the flag "query" alone (`QueryDecides`), and the
  parser takes a list for a word. So a snapshot whose first message carries a true member "query" of its own
  is delivered as an answer and uses up the waiter (`SnapshotMistaken`, `MistakenExample`); one that does not
  mention "query" is ignored (`SnapshotIsIgnored`).
- A dial that fails leaves the client CONNECTING, and every further connect is refused until
  `oddsockets_disconnect` is called (`DialErrorSticks`, `OnlyDisconnectHelps`, `DisconnectHelps`).
- A channel named `message` gets the whole envelope in place of the body (`ChannelNamedMessage`).
- A body of exactly 32768 bytes passes the size check, but the receiver's buffer holds one byte less
  (`PublishedBodyArrives`).
- A newline, carriage return or tab in a field comes back as the letter `n`, `r` or `t` from this client's
  own parser, which drops backslashes without interpreting them (`SurvivesIff`, `ReactionArrives`).
- Resolving a manager URL twice differs from resolving it once exactly when whitespace stands before its
  trailing slashes (`ResolvesAgainIff`; `BlankBeforeSlash` is accepted the first time and refused the second).
- A token that lives no longer than the refresh lead is minted again at every pump (`ShortLifeMintsEveryPump`).
- The client's own README.md (line 128) says a non-zero expiry from the provider is used; the code uses a
  positive one and reads the claim otherwise. The model follows the code.

## Model

| member | source | states |
|---|---|---|
| `StringScan.ExtractStringInto` | src/json_parser.c:35-48 | reading a string literal into a bounded buffer: none without an opening quote (buffer untouched), else the text and the cursor after it |
| `StringScan.ReadsLiteral` | src/oddsockets.c:366-379 | a literal whose escapes are complete is read back without its backslashes, and the cursor ends just after its closing quote |
| `StringScan.ReadsItselfIff` | src/oddsockets.c:366-379 | the text comes back as it stands between the quotes if and only if it has no quote or backslash and fits |
| `StringScan.ReadsCut` | src/json_parser.c:39-46 | a literal that does not fit is cut, and the cursor stays inside it, in front of the rest |
| `StringScan.RawConcat` | src/oddsockets.c:368-379 | reading back distributes over concatenation of complete literal texts |
| `CStrings.AtollOfInt` | src/oddsockets.c:214 | a printed number of either sign is read as itself, and saturates outside 64 bits |
| `JsonText.PrintNeutral` | src/oddsockets.c:395-402 | printed trees with no unbalanced brackets of a kind in their strings are balanced in that kind, whatever the other kind does |
| `JsonText.MatchesOwnBracket` | src/json_parser.c:80-89 | counting depth from an opening bracket stops just after its own closing bracket, whatever follows |
| `JsonText.BracketEnds` | src/oddsockets.c:395-402 | over any bracketed text the loop stops inside, at, or after its end as the depth inside falls below zero, returns to zero, or stays above |
| `JsonText.BalancedStringsSuffice` | src/oddsockets.c:395-402 | for a well-formed value it is enough that each string and key balances by itself |
| `JsonText.ProperPrefixIsOpen` | src/oddsockets.c:395-402 | every proper non-empty prefix of an object or array whose inside balances has positive depth in its own bracket kind, and the whole has depth 0 |
| `RawValue.ExtractRawValue` | src/oddsockets.c:384-415 | the extractor: success exactly when there is a value, the buffer then holds it cut to the buffer, and is untouched otherwise |
| `RawValue.ExtractsExactly` | src/oddsockets.c:384-415 | an object or array that balances, or a complete string, after the first mention of its key is returned exactly up to the buffer, whatever text follows |
| `RawValue.ExtractsExactlyIff` | src/oddsockets.c:384-415 | for every bracketed or quoted text, well-formed or not: it is returned exactly if and only if it fits and its scan stops at its end, by itself or because a scan that runs on meets the end of the text or of the buffer there |
| `RawValue.LiteralFateIsRawOk` | src/oddsockets.c:403-406 | the scan over a quoted text stops at its closing quote by itself if and only if every quote in it is escaped and it does not end in a backslash |
| `RawValue.ExtractsPrimitive` | src/oddsockets.c:407-409 | any other value is returned with everything before the next comma, closing brace or bracket, or the end: a number directly followed by one of them exactly |
| `RawValue.NothingWithoutMention` | src/oddsockets.c:387-388 | a key that is not mentioned has no value |
| `RawValue.NothingWithoutColon` | src/oddsockets.c:387-391 | nor has one whose first mention is not followed by a colon, whatever comes later |
| `RawValue.StringBraceCutsShort` | src/oddsockets.c:395-402 | a closing brace in a key ends its object early |
| `RawValue.StringBraceRunsOn` | src/oddsockets.c:395-402 | an opening brace in a key makes the scan run on into the text that follows |
| `RawValue.StringBracesCancelOut` | src/oddsockets.c:395-402 | a key with an opening brace and a value with a closing one do no harm together |
| `SplitArray.SplitJsonArray` | src/oddsockets.c:420-480 | the splitter with its growing array: the full result when memory suffices; otherwise the elements before the first refused request, which are a proper prefix of it |
| `SplitArray.Append` | src/oddsockets.c:459-472 | an element takes a copy and, at capacity, a growth to 8 or to twice the capacity; a refused request leaves the elements as they were |
| `SplitArray.SplitInvertsJoin` | src/oddsockets.c:417-480 | splitting the comma-join of trimmed, balanced elements with any whitespace gives exactly the non-empty ones, whether the array is closed or breaks off there |
| `SplitArray.NoArrayNoItems` | src/oddsockets.c:422-423 | a text that is no array has no elements |
| `SplitArray.SplitsJsonArray` | src/oddsockets.c:417-480 | splitting any printed well-formed array gives the printed texts of its elements, whatever their strings hold |
| `SplitArray.HangsExactlyOnStrayBrace` | src/oddsockets.c:429-476 | the loop never ends if and only if a closing brace is met at depth 0 outside a string before the array's end |
| `SplitArray.SpinsForever` | src/oddsockets.c:429-476 | in that case no number of turns leaves the loop |
| `SplitArray.LeavesEventually` | src/oddsockets.c:429-476 | in every other case finitely many turns reach the result |
| `SplitArray.StrayInPart` | src/oddsockets.c:429-476 | a part of a text has the stray brace if and only if the whole has it before the end of the part |
| `SplitArray.PrefixEnds` | src/oddsockets.c:429-476 | every prefix of a text that is split in finite time is split in finite time |
| `SplitArray.WellFormedPrefixEnds` | src/oddsockets.c:429-476 | splitting ends on every prefix of a well-formed array with any text after it |
| `EventFrame.BuildFrame` | src/oddsockets.c:528-542 | the framer: the text of the frame, literally; the allocated length always suffices, an empty payload counts as none |
| `EventFrame.ParseEventFrame` | src/oddsockets.c:484-507 | the deframer, cutting the closing bracket in place in the frame's buffer |
| `EventFrame.FrameRoundTrip` | src/oddsockets.c:484-542 | deframing a framed event gives its name and the payload as the receiver sees it |
| `EventFrame.PayloadUnchangedIff` | src/oddsockets.c:494-505 | the payload comes back unchanged if and only if it does not start with whitespace or a closing bracket |
| `EventFrame.NameUnchangedIff` | src/oddsockets.c:487-493 | the name comes back unchanged if and only if it has no quote or backslash and at most 63 characters |
| `EventFrame.BareFrameRoundTrip` | src/oddsockets.c:534-538 | an absent or empty payload comes back as none |
| `EventFrame.ReadsAnyFrame` | src/oddsockets.c:484-507 | frames of any sender: with a namespace before the list and whitespace between and after the tokens, event and payload are read, the payload ending before the closing bracket |
| `EventFrame.UnclosedArgument` | src/oddsockets.c:500-504 | without a closing bracket the payload is everything to the end |
| `EventFrame.DeframesIff` | src/oddsockets.c:487-493 | a text is an event if and only if a quote is the first character other than whitespace after its first bracket |
| `JsonTable.JsonObject.constructor` | src/json_parser.c:119-128 | parsing a text fills a fresh table with the entries `Parse` gives |
| `JsonTable.JsonObject.ParseInto` | src/json_parser.c:51-117 | one object's members are appended under a prefix to what the table holds |
| `JsonTable.JsonObject.FillMembers` | src/json_parser.c:56-116 | the member loop from an index on, until the object ends or the table is full |
| `JsonTable.JsonObject.ReadHead` | src/json_parser.c:61-69 | key and colon: nothing without either, else the key and where its value starts |
| `JsonTable.JsonObject.ReadValue` | src/json_parser.c:80-115 | a nested object recurses under its dotted key, a string or primitive adds one entry |
| `JsonTable.JsonObject.GetString` | src/json_parser.c:130-138 | the value of the first entry with the key, or none |
| `JsonTable.JsonObject.GetBoolean` | src/json_parser.c:145-149 | true for `true` and `1`, the default when the key is missing |
| `Flatten.ParsesToLeaves` | src/json_parser.c:51-117 | for every tree of strings, primitives and nested objects that balance their braces, with its texts fitting the buffers, parsing its printed text gives exactly the first 64 of its in-order leaves, under dotted keys of at most 127 characters |
| `Flatten.LeavesSurviveWhatFollows` | src/json_parser.c:51-117 | with a comma and any text in place of the top-level closing brace, those leaves are still a prefix of the table |
| `Flatten.StopsAtNoKey` | src/json_parser.c:61-64 | a member that does not begin with a quote ends the parsing: exactly the leaves before it are in the table |
| `Flatten.StopsWithoutColon` | src/json_parser.c:66-67 | so does a key without a colon |
| `Flatten.NeverRead` | src/json_parser.c:51-117 | text with no backslash and no mention of a quoted key never makes an entry for it, however it is nested |
| `Flatten.TableGrows` | src/json_parser.c:51-117 | whatever the text, what is in the table stays at its front |
| `Flatten.LookupInPrefix` | src/json_parser.c:130-138 | so an earlier lookup keeps its answer |
| `Flatten.LookupSnoc` | src/json_parser.c:130-138 | the first entry with a key wins |
| `Emitters.JsonEscape` | src/enhanced_features.c:20-35 | the escaper: the buffer holds the escape of the prefix that is kept, and a terminator |
| `Emitters.KeptIsMaximal` | src/enhanced_features.c:23-34 | the output fits, never splits an escape, and stops only when fewer than two characters and the terminator are left |
| `Emitters.KeepsAllIff` | src/enhanced_features.c:23-34 | nothing is cut off if and only if all but the last character leave room for two more and the terminator |
| `Emitters.EscapeReadsBack` | src/enhanced_features.c:25-31 | the escape is a complete literal; a reader that drops backslashes gets the text with control characters turned into letters |
| `Emitters.EscapeMeansText` | src/enhanced_features.c:25-31 | to a reader that follows section 7 of RFC 8259 the escape of any text means that text, control characters included |
| `Emitters.SurvivesIff` | src/enhanced_features.c:20-35 | a field survives escaping and reading if and only if it fits and has no newline, carriage return or tab |
| `Emitters.TypingPayload` | src/enhanced_features.c:39-65 | the typing payload is the printed object of its two escaped fields: the 512-byte buffer never truncates |
| `Emitters.AddReactionPayload` | src/enhanced_features.c:69-89 | the same for five fields in 1024 bytes, the user name defaulting to the user id |
| `Emitters.RemoveReactionPayload` | src/enhanced_features.c:91-109 | the same for four fields in 768 bytes |
| `Emitters.RecordReadsBack` | src/json_parser.c:51-138 | looking up any key in the parsed text of a flat record gives the member's value, and none for every other key |
| `Emitters.AddReactionReadsBack` | src/enhanced_features.c:69-89 | parsing the reaction payload gives, for every input, each field as the receiver reads it |
| `Emitters.ReactionArrives` | src/enhanced_features.c:69-89 | emitted, framed, deframed and parsed, all five fields come back as given if and only if each fits its buffer and has no newline, carriage return or tab |
| `Emitters.RemovalArrives` | src/enhanced_features.c:91-109 | the same for the four fields of a removal |
| `Emitters.TypingArrives` | src/enhanced_features.c:39-65 | and for the two fields of both typing events |
| `Base64Url.DecodeInto` | src/oddsockets.c:178-199 | the decoder succeeds if and only if all characters before the first `=` are in the alphabet and floor(6n/8) bytes and a terminator fit |
| `Base64Url.DigitIsPosition` | src/oddsockets.c:179-189 | the digit of a character is its position in the alphabet of section 5 of RFC 4648, written out |
| `Base64Url.WrapNeverMatters` | src/oddsockets.c:189-194 | wrapping the accumulator at 32 bits never changes a byte nor the bits that are kept |
| `Base64Url.DecodesLeadingBytes` | src/oddsockets.c:184-196 | the output is the leading floor(6n/8) bytes of the concatenated 6-bit groups, as a number |
| `Base64Url.DecodesEncoded` | src/oddsockets.c:178-199 | decoding inverts encoding for all byte strings (section 5 of RFC 4648) |
| `Base64Url.RoundTrip` | src/oddsockets.c:178-199 | padded or not |
| `Jwt.ExpiryFromJwt` | src/oddsockets.c:203-216 | the expiry method, through its 2048-byte and 32-byte buffers |
| `Jwt.PayloadOf` | src/oddsockets.c:204-210 | for a token under 1024 bytes the payload segment is found and decoded completely: the buffer never overflows |
| `Jwt.ClaimIsRead` | src/oddsockets.c:212-214 | the decimal value of the `exp` claim, of either sign, is read as that number, whatever follows it |
| `Jwt.ExpiryIsClaim` | src/oddsockets.c:203-216 | for every such token the expiry is exactly 1000 times a positive claim, and 0 for any other (section 4.1.4 of RFC 7519) |
| `Jwt.NoClaimNoExpiry` | src/oddsockets.c:203-216 | a token without the claim has the expiry 0 |
| `Jwt.NoTokenNoExpiry` | src/oddsockets.c:204-205 | so has a text without a dot |
| `TokenRefresh.KeylessClient.ResolveToken` | src/oddsockets.c:219-245 | a failed mint changes nothing; a successful one stores the token with the provider's expiry if it is positive, else the claim's |
| `TokenRefresh.KeylessClient.MaybeRefresh` | src/oddsockets.c:251-269 | a pump asks exactly from the lead before a known expiry on, 120 s if none is configured; failure sets the expiry to 0 and keeps the token |
| `TokenRefresh.KeylessClient.MintForConnect` | src/oddsockets.c:818-826 | a connect mints whatever the old expiry |
| `TokenRefresh.AttemptsAreApart` | src/oddsockets.c:251-269 | pump-driven mints are at least life minus lead apart, also across failures and connects |
| `TokenRefresh.AttemptsPerWindow` | src/oddsockets.c:251-269 | any window of T ms has at most 1 + T / (life - lead) of them |
| `TokenRefresh.NeverExpired` | src/oddsockets.c:247-269 | with a provider that succeeds at once and pumps at most a lead apart, the stored token is not expired at or between pumps |
| `TokenRefresh.ShortLifeMintsEveryPump` | src/oddsockets.c:254-259 | when tokens live no longer than the lead, every pump mints |
| `TokenRefresh.FailureSilences` | src/oddsockets.c:264-268 | after a failed refresh no pump mints until a connect has minted again |
| `TokenRefresh.RefreshFollowsClaim` | src/oddsockets.c:232-257 | with no expiry from the provider, refresh is due exactly from 1000 times the token's claim minus the lead |
| `SendQueue.WebSocketClient.Send` | src/websocket_client.c:213-239 | on a connected socket with memory one frame more at the end, however many wait, and a writable callback requested on a live one; else -1 and nothing changes |
| `SendQueue.WebSocketClient.Append` | src/websocket_client.c:224-232 | linking a node in at the tail, all other nodes and their order unchanged |
| `SendQueue.WebSocketClient.OnWriteable` | src/websocket_client.c:78-105 | exactly the oldest frame leaves; another callback is requested if frames remain |
| `SendQueue.WebSocketClient.Pop` | src/websocket_client.c:83-88 | unlinking the head, the tail pointer cleared with the last node |
| `SendQueue.WebSocketClient.OnEstablished` | src/websocket_client.c:59-64 | sets the connected flag, queue unchanged |
| `SendQueue.WebSocketClient.OnConnectionError` | src/websocket_client.c:107-113 | clears the connected flag and keeps the handle and the queue |
| `SendQueue.WebSocketClient.OnClosed` | src/websocket_client.c:115-122 | clears the connected flag and the handle |
| `SendQueue.WebSocketClient.Disconnect` | src/websocket_client.c:246-250 | clears the connected flag, queue unchanged |
| `SendQueue.WebSocketClient.Connect` | src/websocket_client.c:207-210 | stores the handle, or reports that there is none |
| `SendQueue.WebSocketClient.Destroy` | src/websocket_client.c:263-272 | the teardown frees every node once, in order, and leaves both pointers null |
| `SendQueue.FirstInFirstOut` | src/websocket_client.c:78-105 | over every interleaving: what was queued before plus what was accepted equals what was drained plus what is left, in order |
| `SendQueue.SendsAreKept` | src/websocket_client.c:213-239 | a run of sends on a connected socket with memory leaves the old frames and then all the messages in order |
| `SendQueue.RefusedSendsLeaveNoTrace` | src/websocket_client.c:214 | on a socket that is not connected no run of sends changes anything |
| `SendQueue.NeverStuck` | src/websocket_client.c:224-236 | on every run that libwebsockets allows, frames waiting on a live socket have a writable callback pending |
| `SendQueue.CallbacksFlush` | src/websocket_client.c:78-105 | as many callbacks as frames flush the queue, and each but the last requests the next |
| `Connection.AlwaysSafe` | src/oddsockets.c:659-887 | every careful run keeps "connected means open and acked", "a live pumped websocket is the client's own" and "the client is connecting while its websocket dials" |
| `Connection.AckWasDelivered` | src/oddsockets.c:695-699 | an acked websocket has delivered a `40` packet earlier in the run, while it was pumped |
| `Connection.FramesGoToAckedSocket` | src/oddsockets.c:528-542 | on every careful run each `42` frame is queued on the client's own websocket, still open, whose `40` packet came before |
| `Connection.CarefulIffHarmless` | src/oddsockets.c:807-872 | after every careful run and for every way a connect can end: it is careful if and only if a next `40` packet leaves the client connected to an open, acked websocket |
| `Connection.SafeIffCareful` | src/oddsockets.c:680-872 | a run is careful if and only if a `40` packet at any point of it leaves the client connected to an open, acked websocket |
| `Connection.CarelessRunsBreak` | src/oddsockets.c:680-872 | every run with a careless connect has a point where one `40` packet leaves it connected without such a websocket |
| `Connection.CarelessRunExists` | src/oddsockets.c:680-722 | such a run exists from the start: a `41` packet, a callback that connects, a late ack |
| `Connection.CloseDialsAgain` | src/oddsockets.c:659-678 | every close with attempts left, if the dial succeeds, ends CONNECTING on a new dialing websocket, one attempt counted |
| `Connection.FailedReconnectIsError` | src/oddsockets.c:659-678 | for each of the four ways a reconnect can fail it ends in the error state, with no new websocket |
| `Connection.NoAttemptsLeftIsFinal` | src/oddsockets.c:659-678 | a close with none left ends disconnected and stays so on every run without a connect |
| `Connection.DialErrorSticks` | src/websocket_client.c:107-113 | connect, pump, connection error: the client is CONNECTING on a dead websocket |
| `Connection.DialErrorAlwaysSticks` | src/websocket_client.c:107-113 | and so on every careful run with a connection error |
| `Connection.OnlyDisconnectHelps` | src/oddsockets.c:812-814 | from there every run without a disconnect ends CONNECTING on that dead websocket, with connects refused |
| `Connection.DisconnectHelps` | src/oddsockets.c:874-887 | after a disconnect the next connect dials a new websocket |
| `Connection.CounterInBounds` | src/oddsockets.c:659-678 | on every run the reconnect counter is between 0 and the configured attempts |
| `Connection.Backoff` | src/oddsockets.c:668-676 | the delay in 32-bit arithmetic equals the exact one, with no overflow when base * 2^(n-1) < 2^31 |
| `Connection.DelaysNeverDecrease` | src/oddsockets.c:668-670 | later delays are not shorter, and none exceeds 30 s |
| `Connection.DelaysDouble` | src/oddsockets.c:668-670 | the first wait is the configured delay, each further one twice the one before, up to 30 s |
| `Connection.WaitsBetweenAcks` | src/oddsockets.c:659-699 | between two acks at most the configured number of automatic connects, the k-th after min(30000, base * 2^(k-1)) ms |
| `Connection.TotalWaitBounded` | src/oddsockets.c:659-678 | their sum is at most base * (2^n - 1) |
| `ClientObject.Websocket.Send` | src/websocket_client.c:213-239 | a frame is queued exactly on an open websocket with memory for it |
| `ClientObject.Client.Connect` | src/oddsockets.c:807-872 | the fields change as the state machine says for each way a connect can end, with the result code of each |
| `ClientObject.Client.Disconnect` | src/oddsockets.c:874-887 | refines the disconnect step: websocket closed and dropped |
| `ClientObject.Client.BeginPump` | src/oddsockets.c:1023-1037 | the pump enters the service call of the client's websocket exactly if there is one |
| `ClientObject.Client.EndPump` | src/websocket_client.c:241-244 | refines the end of the pump |
| `ClientObject.Client.OnConnectionError` | src/websocket_client.c:107-113 | refines the connection error: the websocket is dead, the client's state stays |
| `ClientObject.Client.OnMessage` | src/oddsockets.c:680-722 | on the text itself: `40` connects and resets the counter, `41` disconnects, nothing else changes the state; `0` is answered with the CONNECT packet, `2` with a pong, on the client's websocket and no other |
| `ClientObject.Client.OnEstablished` | src/websocket_client.c:59-64 | refines the established step |
| `ClientObject.Client.OnDisconnected` | src/oddsockets.c:659-678 | with attempts left it counts one, waits, and dials a new websocket or ends in the error state; with none left the close is final; the wait in 32-bit arithmetic is the exact one |
| `ClientObject.Client.CountAttempt` | src/oddsockets.c:661-676 | counts an attempt exactly while attempts are left, and its capped wait in 32-bit arithmetic is the exact one |
| `ClientObject.Client.Emit` | src/oddsockets.c:1039-1048 | the result code for every cause; the framed event is queued on success, else nothing |
| `ClientObject.Client.Handshake` | src/oddsockets.c:680-872 | a connect and one pump with the connection, a `0` and a `40` packet end connected, with exactly the CONNECT packet queued |
| `Subscription.NeverBoth` | src/oddsockets.c:599-605 | on every run a channel is never both subscribed and subscribing |
| `Subscription.SubscribedIff` | src/oddsockets.c:599-605 | a channel is subscribed if and only if the server's last word on it was "subscribed" |
| `Subscription.SubscribingIff` | src/oddsockets.c:1185-1189 | it is subscribing if and only if a subscribe was sent and "subscribed" has not come since |
| `Subscription.SendsAreSeparated` | src/oddsockets.c:1145-1196 | between two successful subscribe sends there is a "subscribed" event and later an "unsubscribed" event |
| `Subscription.WaiterIsLatest` | src/oddsockets.c:1323-1327 | the waiter is the latest registration, and nothing has been delivered since |
| `Subscription.DeliversToLatest` | src/oddsockets.c:612-641 | only a history event with query true delivers, and to the latest registration since the last delivery |
| `Subscription.DeliversOnce` | src/oddsockets.c:617-623 | no registration is delivered to twice, callbacks that register again included |
| `Subscription.FirstAnswerIsDelivered` | src/oddsockets.c:612-641 | the first query answer after a registration reaches it; on-join snapshots in between do not consume it |
| `Dispatch.Channel.Subscribe` | src/oddsockets.c:1145-1196 | refines the subscribe step, with the result code for every cause; the callback is replaced unless refused |
| `Dispatch.Channel.Unsubscribe` | src/oddsockets.c:1198-1223 | changes no flag, with the result code |
| `Dispatch.Channel.GetHistory` | src/oddsockets.c:1311-1342 | refines the registration step, with the result code for every cause |
| `Dispatch.Channel.GetPresence` | src/oddsockets.c:1290-1309 | registers the presence callback when connected, with the result code for every cause |
| `Dispatch.Channel.OnEvent` | src/oddsockets.c:586-642 | the flags follow the server's word; a history event whose "query" reads neither `true` nor `1` leaves the waiter alone, one that does goes to the waiter once; messages and presence reach their own callbacks; what is lost when memory runs out |
| `Dispatch.QueryDecides` | src/oddsockets.c:612-618 | a history event delivers if and only if "query" reads `true` or `1` and a callback waits, in terms of the parsed table |
| `Dispatch.ExtractBody` | src/oddsockets.c:590-595 | the body under "message", or the envelope if it cannot be isolated, both cut to the buffer |
| `Dispatch.ExtractItems` | src/oddsockets.c:625-639 | the elements of "messages", none if it cannot be isolated; when memory runs out the front of them |
| `Dispatch.ExtractOccupancy` | src/oddsockets.c:609-610 | the occupancy, "0" if absent |
| `Dispatch.ExtractError` | src/oddsockets.c:642-646 | the text of an error event, "worker error" if there is none |
| `Dispatch.ItemsSpinIff` | src/oddsockets.c:420-480 | the list of a payload hangs the splitter if and only if "messages" is an array with a stray brace before the extractor's end and inside its buffer |
| `Dispatch.EventHangsIff` | src/oddsockets.c:612-641 | an event never returns if and only if it answers a pending history request with such a list |
| `Dispatch.StrayBraceHangs` | src/oddsockets.c:625-631 | any payload that first mentions "messages" with the list `[}]` hangs |
| `Publish.BuildPayload` | src/oddsockets.c:1225-1276 | bodies over 32768 bytes are refused; otherwise none of the writes into the payload buffer truncates, for all metadata that fits the slack |
| `Publish.FitsSlackIff` | src/oddsockets.c:1249-1276 | the payload fits its buffer if and only if name, time to live, flag, metadata and the quotes of a text body together take at most 691 bytes, or there is no metadata |
| `Publish.RawIff` | src/oddsockets.c:1245-1247 | a message is embedded as JSON if and only if its first character other than a space or tab is a bracket |
| `Publish.KeyIsFirstMention` | src/oddsockets.c:384-391 | in the envelope the key's first mention is the key itself unless the channel is named like it |
| `Publish.BodyIsFound` | src/oddsockets.c:582-592 | in an envelope with any text after the body, the channel is read, and the body isolated if and only if it is shorter than the buffer and its scan stops at its end or at the end of the buffer |
| `Publish.PublishedBodyArrives` | src/oddsockets.c:1225-1288 | published, framed, deframed and dispatched as a "message" event, the channel is found and the body delivered byte for byte under exactly that condition, for every bracketed body, spaces before and text after it aside, and every text body |
| `Publish.ShortBodyArrivesIff` | src/oddsockets.c:1242-1260 | with room to spare: if and only if the brackets inside an object or array balance, strings included, or a text has no bare quote and no backslash before its end |
| `Publish.ChannelNamedMessage` | src/oddsockets.c:592-595 | for a channel named "message" the callback gets the envelope, for every body |
| `PublishOptions.OptionsArrive` | src/oddsockets.c:1262-1276 | the receiver's parser finds body, time to live, history flag and metadata of a text message each under its key |
| `HistoryAnswer.HistoryArrives` | src/oddsockets.c:612-641 | a query answer in compact form delivers exactly the texts of its elements, unless the scan for the end of the list is cut short |
| `HistoryAnswer.ListArrives` | src/oddsockets.c:625-631 | wherever "messages" is first mentioned, a well-formed list that fits and is not cut short is split into exactly its elements |
| `HistoryAnswer.AnswerIsFor` | src/oddsockets.c:582-618 | members before the list in any order and with any whitespace decide the channel and the query flag, whatever the parser makes of the rest |
| `HistoryAnswer.WellFormedListEnds` | src/oddsockets.c:612-641 | a well-formed list never hangs the client, whatever its strings and its length |
| `HistoryAnswer.HangingAnswer` | src/oddsockets.c:612-641 | for every channel there is a query answer that hangs |
| `ServerEvents.PresenceArrives` | src/oddsockets.c:608-611 | a presence event with a number hands its callback exactly that number, whatever members follow |
| `ServerEvents.WithoutTheMember` | src/oddsockets.c:586-645 | events that do not mention their member deliver "0", "worker error", the envelope, or no items |
| `ServerEvents.ErrorTextArrives` | src/oddsockets.c:642-646 | an error event reports the value of "message" as written, up to 255 bytes |
| `ServerEvents.SnapshotIsIgnored` | src/oddsockets.c:612-618 | a history event that does not mention "query" after its channel reaches nobody |
| `ServerEvents.EmptySnapshot` | src/oddsockets.c:612-618 | for instance the snapshot of an empty list |
| `ServerEvents.FlagDecides` | src/oddsockets.c:612-618 | a flag before the list decides by itself: `false`, and any word but `true` and `1`, makes a snapshot whatever follows |
| `ServerEvents.SnapshotMistaken` | src/oddsockets.c:612-618 | a snapshot whose list continues with a true member "query" is taken for an answer |
| `ServerEvents.MistakenExample` | src/oddsockets.c:612-618 | for instance a well-formed one of a single message, on every channel |
| `ServerEvents.ConnectPacketIsRead` | src/oddsockets.c:511-525 | key and user id of the CONNECT packet are each found under their own name |
| `Registry.Client.Find` | src/oddsockets.c:545-553 | the channel with the name if and only if there is one |
| `Registry.Client.ChannelCreate` | src/oddsockets.c:1097-1143 | an existing name gives the same channel; a new one of at most 127 bytes is appended while there are fewer than 32 and memory; otherwise nothing changes |
| `Registry.Client.Append` | src/oddsockets.c:1130-1137 | one channel more, its bytes accounted, the peak raised if exceeded |
| `Registry.Client.ShiftDown` | src/oddsockets.c:1373-1376 | the entries after the gap move down by one, those before stay |
| `Registry.Client.ChannelDestroy` | src/oddsockets.c:1352-1388 | a subscribed channel is unsubscribed first, with the result that gives; exactly that channel goes, the rest keep their order, its bytes are released |
| `Registry.Client.Remove` | src/oddsockets.c:1368-1381 | the removal alone: exactly one channel less, in order, with its bytes |
| `Registry.Client.Destroy` | src/oddsockets.c:1074-1093 | the drain loop ends with an empty registry and all channel bytes released |
| `Registry.AlwaysSound` | src/oddsockets.c:1097-1143 | over every sequence of creates and destroys: distinct short names, at most 32, bytes are client plus channels |
| `Registry.CreatesAreKept` | src/oddsockets.c:1097-1143 | creating distinct names fills the table with them in order up to 32, later ones are refused |
| `Registry.PeakIsMaximum` | src/oddsockets.c:1134-1137 | the peak is the maximum of the bytes over the whole run, reached at some point of it |
| `Receive.DispatchEvent` | src/oddsockets.c:580-648 | the channel that the payload names takes the event and its callback gets its part, an error goes to the error callback, all other channels stay as they are |
| `Receive.ArrivalChanges` | src/oddsockets.c:586-624 | only the channel that a payload names changes, and how, in the words of its fields |
| `Receive.ReachesItsChannel` | src/oddsockets.c:582-584 | every event but an error is delivered to the one channel its payload names |
| `Receive.Deframe` | src/oddsockets.c:703-707 | the message is copied and parsed in place; event and payload are those of the deframing function |
| `Receive.OnEventMessage` | src/oddsockets.c:703-711 | a `42` message from its frame to its delivery |
| `Receive.Relay` | src/oddsockets.c:582-598 | through a server that relays it, a body published on a channel reaches the message callback of a client that has the channel, byte for byte if and only if it is one of the bodies that can be delivered |
| `ManagerUrl.CopyNormalizedUrl` | src/manager_discovery.c:77-103 | the trimmed source or nothing, never a partial URL |
| `ManagerUrl.HasPrefixCi` | src/manager_discovery.c:23-39 | prefix up to the case of ASCII letters |
| `ManagerUrl.AbsoluteHttp` | src/manager_discovery.c:42-61 | http or https, and a host |
| `ManagerUrl.DiscoverManagerUrl` | src/manager_discovery.c:118-166 | configured, else environment, else default; the buffer holds the whole URL or the empty string |
| `ManagerUrl.AcceptedIff` | src/manager_discovery.c:41-61 | a URL is accepted if and only if what is left after trimming fits, spells http:// or https:// in any case, and goes on with a host; it is then what is left |
| `ManagerUrl.CandidateOrder` | src/manager_discovery.c:136-143 | a configured URL wins, then the environment, then the default; empty counts as not given |
| `ManagerUrl.TrimmedParts` | src/manager_discovery.c:85-94 | the source is whitespace, the result, slashes and whitespace |
| `ManagerUrl.TrimmedIsUnique` | src/manager_discovery.c:85-94 | and the result is the only non-empty text that splits it so |
| `ManagerUrl.TrimmedAgainIff` | src/manager_discovery.c:85-94 | trimming again changes nothing if and only if no whitespace stands before the trailing slashes of the source |
| `ManagerUrl.ResolvesAgainIff` | src/oddsockets.c:276-284 | resolving an accepted URL again gives the same URL under exactly that condition on the text it was read from, whatever the environment has become |
| `ManagerUrl.ShownManagerIsUsed` | src/oddsockets.c:738-743 | so the manager shown in the configuration is the one worker assignment asks |
| `ManagerUrl.BlankBeforeSlash` | src/manager_discovery.c:77-103 | a URL accepted the first time and refused the second |

## Left out

- libwebsockets, libcurl, TLS, `lws_service`, the wake timer and HTTP bodies: they are events and outcomes.
- pthread scheduling: the client is pumped from one thread, locked sections are atomic.
- Callbacks while a libwebsockets context is destroyed, and `oddsockets_disconnect` from inside a callback: the timing is fixed outside this code. Nothing is claimed about reconnects after a disconnect.
- Frames, closes and dial results of a websocket other than the one being pumped, and a dial result delivered inside the dial call itself.
- Error, connection, log and raw-listener callbacks and the token provider are assumed not to call back into the client in the middle of a step; calls from message callbacks are modelled.
- `ClientObject.Client.OnMessage`: shows the CONNECT packet of a client with an API key; token mode differs only in the credential named there. The packet's buffer size is not modelled.
- `Connection.Backoff`: requires a configuration whose uncapped delays are 32-bit numbers, because the source shifts and multiplies signed ints; `ClientObject.Client.CountAttempt` and `OnDisconnected` inherit that from their client.
- `TokenRefresh.KeylessClient.ResolveToken`: requires, of a token that is accepted without an expiry, that its claim in seconds times 1000 fits in 64 bits, because the source's multiplication is undefined otherwise.
- `Base64Url.DecodeInto`: does not model NUL characters inside the input, which `strchr` would take for the end of the alphabet.
- `Publish.BuildPayload`: requires metadata that fits the slack (`Publish.FitsSlackIff`), which the source's size arithmetic takes for granted.
- `Publish.PublishedBodyArrives`: the server between the two ends is taken to deliver the envelope unchanged under the event "message".
- `JsonTable.JsonObject.ParseInto`: the temporary copy of a nested object is always allocated; keys and values of an entry are texts instead of fixed char arrays.
- `JsonTable.JsonObject.ReadValue`: likewise does not model a nested object skipped for want of memory.
- `PublishOptions.OptionsArrive`: for text bodies without a bracket in front; braces in the metadata must balance.
- `Dispatch.Channel.Subscribe`: does not store the subscribe options, which only shape the request text.
- `Receive.DispatchEvent`: the table of a parsed payload is always allocated; raw listeners are left out.
- `SendQueue.WebSocketClient.Send`: one flag stands for both allocations; the write buffer of the drain is always allocated.
- Payload texts of subscribe, unsubscribe, presence and history requests, including oversized history times, and the error messages of URL discovery.
- Server behaviour: resubscription after a reconnect, challenge events. The flags are not claimed to agree with the server.
- The remaining emitters, string tables, logging, memory setters and usage statistics: they would only add easy members.
