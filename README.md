# sandbox-bot core, modelled in Dafny

sandbox-bot lets members of a Discord server run code in languages that other
members host. A language author registers a language (name, short form, key)
with the bot, then runs an evaluator client that connects to the bot's
websocket server with that key. A Discord user's "run" or "eval" command becomes
an EVALUATE message on a conversation with the evaluator, which answers with a
RESULT (or an Error) message.

This project models four parts of that system and proves properties about them:

- `protocol.dfy` (module `Protocol`): the message codec of `protocol.py`.
  Messages form a two-level tagged variant, first the side and then the kind.
  `Encode` is `to_dict`. `Decode` is the strict `from_dict`, which works on an
  already parsed JSON object and uses `get_value`'s exact-type checks. Each
  `ValueError` is a `Failure` that carries the exact message text.
- `client_hook.dfy` (module `ClientHook`): the broker of `server/client_hook.py`.
  It holds classes for the connection socket, the registered `Client` and its
  table of conversation queues, a `Conversation`, the per-connection `Handler`
  locals, and the `ClientHookServer` registry. There is one method per loop
  step, for `conversation`, for `kill_client_conn` and for the `finally`
  clean-up. Short scenario methods chain these steps.
- `store.dfy` (module `Store`): the language store of `server/store.py`. It is a
  class over an in-memory `map<string, Language>` keyed by `str(user_id)`. Its
  scanning loops are proved against the map.
- `discord_cog.dfy` (module `DiscordCog`): the string handling of
  `server/discord_cog.py`. This covers `is_identifier`, the parsing in
  `process_run_command`, and the truncation of long stdout/stderr in an embed
  field.
- `text.dfy` (module `Text`) holds the Python `str` operations that the core
  uses: `isspace`, `strip`, `find`, `split`, `join`, `count` and `str(int)`.
  `wrappers.dfy` holds `Option` and `Result`.

The code is followed as written. The model keeps several behaviours that a
caller of the broker would not expect, and says so here:

- Disconnecting does not signal open conversations.
- A reply that arrives after a conversation has ended is still queued.
- An Error message loses its `error` text in transit.

Disconnect is modelled as written and listed under Left out; the other two,
and the other defects, are listed under Findings. The broker and the
parser use the as-written definitions. Each corrected definition sits next to
its as-written one.

## Model

| member | source | states |
|---|---|---|
| Protocol.GetValue | protocol.py:11-18 | The four outcomes: `None` for an absent optional key; "Key … not defined" for an absent required key; a type error naming the expected and the actual type name when the type is not exactly `ty` (a bool is not an int); otherwise the stored value |
| Protocol.Encode | protocol.py:20-56 | Every encoded message carries its id, version 0, its kind and its side; a CLIENT message also carries its key |
| Protocol.Decode | protocol.py:35-48 | A successful decode returns a message whose id, kind, side and key are the object's own, and only with version 0; the header fields are read in the order id, version, kind, side, and the first one that is missing or not of its type fails with the error naming it; any other int version fails with "Only version 0…"; any side other than SERVER/CLIENT fails with "Invalid side"; with a valid version-0 header, a CLIENT or SERVER object gets exactly that side's decoder's outcome |
| Protocol.Describe | protocol.py:15-90 | The text of each decode error names what it is about: the missing or mistyped field (and the type it had), the unsupported version, the invalid side or the invalid kind |
| Protocol.DecodeClientEncoded | protocol.py:58-70 | Decoding an encoded CLIENT message gives it back, except that an Error message comes back without its error and a RESULT keeps only the fields of the branch `success` selects |
| Protocol.DecodeServerEncoded | protocol.py:79-90 | Decoding an encoded SERVER message gives it back, except that INVALID without an error fails on the `null` it was encoded with |
| Protocol.RoundTrip | protocol.py:27-205 | `from_dict(to_dict(m)) == m` holds exactly for the messages that are not an Error with an error, not an INVALID without one, and not a RESULT carrying fields of its inactive branch |
| Protocol.ErrorMessageLosesError | protocol.py:144-149 | An Error message's error text does not survive encoding: the decoded message has none |
| Protocol.InvalidWithoutErrorRejected | protocol.py:131-136 | INVALID with no error encodes `error: null`, and decoding it fails with "Expected value of error to be of type str, got NoneType" |
| Protocol.ClientKeyCheckedFirst | protocol.py:58-59 | A CLIENT object with no `key` fails with "Key key not defined", whatever its kind |
| Protocol.UnknownKindRejected | protocol.py:60-90 | A kind outside the side's four fails with "Invalid kind … for ClientMessage" or "… for ServerMessage" |
| Protocol.ResultEncoding | protocol.py:185-199 | A RESULT encodes as the CLIENT header plus `success` and exactly the present fields of its own branch; a success never carries `error` and a failure carries nothing but `error` |
| Protocol.EncodeResult | protocol.py:185-199 | `ResultMessage.to_dict` adds `success` and exactly the present fields of the branch it selects (`exit_code`, `stdout`, `stderr` on success, `error` on failure), each with its value |
| Protocol.DecodeClient | protocol.py:58-70 | A missing or non-string `key` fails, naming `key`, before the kind is looked at; with a string key, REGISTER and CLIENTOK always decode and Error decodes iff `error` is absent or a string; a mistyped payload field (`error`, `success`, then `exit_code`, `stdout`, `stderr` in that order on success) fails naming that field; a decoded message has the given id and kind, the object's key, and no fields of the inactive RESULT branch; an unknown kind fails naming ClientMessage; a RESULT decodes iff `success` is a bool and every present field of its branch has the right type; the decoded payload is the object's own: Error's `error`, RESULT's `success`, and the present `exit_code`, `stdout` and `stderr` on success or `error` on failure |
| Protocol.DecodeServer | protocol.py:79-90 | A decoded message has the given id and kind; an unknown kind fails naming ServerMessage; SERVEROK and TIMEOUT always decode; INVALID iff `error` is absent or a string; EVALUATE iff `code` is a string; a missing or non-string `code`, or a non-string `error`, fails naming that field; the decoded `error` and `code` are the object's own |
| Protocol.ResultIgnoresOtherBranch | protocol.py:201-205 | Decoding a RESULT ignores the fields of the other branch: removing them does not change the outcome |
| Protocol.FixedRoundTrip | protocol.py:131-149 | With the encoder corrected (Error emits `error`; INVALID omits a missing error), every message with no inactive RESULT fields round-trips |
| Store.LanguageStore.RegisterLang | server/store.py:23-35 | Rejected, with the store unchanged and the clashing name or short form in the message, iff another user's language has the same name or the same short form; otherwise the language is stored under `str(user_id)`, nothing else changes, and the user's previous language (or None) is returned; the store invariant is kept |
| Store.LanguageStore.FindLang | server/store.py:37-42 | Returns a stored language whose name or short form is the argument, and None iff there is none |
| Store.LanguageStore.ValidateKey | server/store.py:44-49 | True iff some stored language holds the key |
| Store.RegisterKeepsConsistent | server/store.py:25-33 | Storing a language that clashes with no other user's keeps every language under its own user's key and keeps names and short forms unique across users |
| Store.ReplacedKeyDisabled | server/store.py:31-33 | After a user's language is replaced, a key validates iff it is the new key or another user's language holds it, so the old key is disabled unless shared |
| Store.NameMayEqualOtherShort | server/store.py:26-28 | Names are never compared with short forms: in any consistent store, a language whose name is another user's short form, and which clashes with nothing else, is stored and the store stays consistent, holding that text as one user's name and another's short form |
| ClientHook.Discard | server/client_hook.py:35-36 | The table loses exactly the given id, and is unchanged for `None` |
| ClientHook.Client.constructor | server/client_hook.py:11-15 | A new client has its key, its socket and no conversations |
| ClientHook.Conversation.Enter | server/client_hook.py:24-29 | The conversation takes the fresh id, and the client's table gains that id with an empty queue, all else unchanged |
| ClientHook.Conversation.Exit | server/client_hook.py:31-36 | As written: the id is cleared and the client's table is left unchanged |
| ClientHook.Conversation.Close | server/client_hook.py:31-36 | Corrected exit: the id is cleared and exactly its entry leaves the table |
| ClientHook.Conversation.Send | server/client_hook.py:38-42 | Only inside the block; the message is appended to the client socket's output |
| ClientHook.Conversation.Receive | server/client_hook.py:44-45 | Takes the oldest queued message and removes it from the queue; an empty queue yields nothing |
| ClientHook.ClientHookServer.constructor | server/client_hook.py:48-53 | The registry starts empty |
| ClientHook.ClientHookServer.Dispatch | server/client_hook.py:77-99 | REGISTER: "Already registered", "Invalid key…" or "Client already logged in…" with nothing changed, or a fresh client bound under its key (no other binding changed) and SERVEROK with the request id; otherwise, when registered, the message is appended to exactly its conversation's queue or answered "No active conversation…"; when unregistered, "Client needs to be registered first"; no branch asks the socket to stop pinging or to close |
| ClientHook.ClientHookServer.HandleFrame | server/client_hook.py:64-99 | One loop step: a decode error is answered INVALID with id "" and the registry, the client and its queues are unchanged; a SERVER-side message is answered "Expected CLIENT side message, got SERVER" with the same unchanged; a CLIENT message is dispatched; an unparsable frame crashes the loop iff no message was decoded before, and then only the INVALID reply with the parse error is sent and nothing else changes; the socket is never asked to stop pinging or to close |
| ClientHook.ClientHookServer.HandleUnparsable | server/client_hook.py:72-73 | As written: after the INVALID reply, the previous message is dispatched again, or the loop crashes when there is none; either way the socket is not asked to stop pinging or to close |
| ClientHook.ClientHookServer.HandleUnparsableFixed | server/client_hook.py:72-76 | With `continue`: only the INVALID reply; the registry, the client, its queues and the socket's ping and close state are unchanged |
| ClientHook.ClientHookServer.Disconnect | server/client_hook.py:104-107 | A registered connection's key leaves the registry and every other binding stays; its conversations are left as they are; a key already gone is a `KeyError`, which cannot happen for a connection still filed under its key (`Bound`, kept by every loop step) |
| ClientHook.ClientHookServer.ConversationFor | server/client_hook.py:109-113 | A new conversation with the client bound under the key, returned iff the key is registered |
| ClientHook.ClientHookServer.KillClientConn | server/client_hook.py:115-119 | The registry is not changed; the bound socket is asked to stop pinging and to close |
| ClientHook.LoggedIn | server/client_hook.py:77-90 | A REGISTER with a valid key on a new server binds a fresh client and is answered SERVEROK |
| ClientHook.EvaluateExchange | server/client_hook.py:92-95 | An EVALUATE goes out on the client's socket, and the client's RESULT with the same id reaches the caller |
| ClientHook.LateReplyAfterExit | server/client_hook.py:31-36 | As written, a RESULT arriving after the block ends is still queued and no INVALID is sent |
| ClientHook.LateReplyAfterClose | server/client_hook.py:92-97 | With the corrected exit, the same RESULT finds no conversation and is answered "No active conversation…" |
| ClientHook.StaleResultDeliveredTwice | server/client_hook.py:72-73 | As written, an unparsable frame after a RESULT queues that RESULT a second time |
| ClientHook.SecondLoginRefused | server/client_hook.py:84-87 | A second connection with a logged-in key is refused and the registry keeps the first binding |
| DiscordCog.PatternMatches | server/discord_cog.py:21-25 | `^[_a-zA-Z][_a-zA-Z0-9]*$` matches exactly the identifier-shaped strings, with or without one final newline |
| DiscordCog.IsIdentifier | server/discord_cog.py:22-25 | False outside 3 to 16 characters; within, true iff identifier-shaped, allowing one final newline |
| DiscordCog.IsIdentifierFixed | server/discord_cog.py:21-25 | True iff 3 to 16 characters and identifier-shaped, with no newline |
| DiscordCog.TrailingNewlineAccepted | server/discord_cog.py:21-25 | As written, "abc\n" is accepted; the corrected check refuses it |
| DiscordCog.LeadingLanguage | server/discord_cog.py:98-101 | A block that holds a newline and starts with an alphanumeric character gives its stripped first line as the language and the rest as code; otherwise no language and the whole block as code |
| DiscordCog.TagBlob | server/discord_cog.py:102-106 | Present iff the prefix ends in a backtick and holds at least two; it is then the stripped text between the last two backticks of the prefix, so it holds no backtick and has no whitespace at either end |
| DiscordCog.LanguageTag | server/discord_cog.py:102-108 | Only the index error or the unpack error can fail it; an empty prefix fails on `prefix[-1]`; with no tag the language is kept; a `lang:`/`language:` tag fails the unpack iff it has other than one colon, and otherwise succeeds with what follows its colon |
| DiscordCog.LanguageTagFixed | server/discord_cog.py:102-108 | Never the index error; an empty prefix keeps the language; a non-empty prefix gets exactly the as-written outcome, tag included |
| DiscordCog.ParseRunCommand | server/discord_cog.py:88-109 | "No code block" iff fewer than two fences; "Multiple code blocks" iff more than two; the index error iff two fences and an empty stripped prefix; the unpack error iff two fences, a non-empty prefix and a tag with other than one colon; on success the code is the fenced block or what follows its first line, the language is what follows the tag's colon when there is a tag, and otherwise the one named on the block's first line |
| DiscordCog.ParseRunCommandFixed | server/discord_cog.py:88-109 | The same fence rules, never the index error, the code taken from the fenced block, and the same outcome as the as-written parse, language included, whenever the stripped prefix is not empty |
| DiscordCog.BlockBetweenFences | server/discord_cog.py:89-96 | With two fences the message is prefix, fence, block, fence, rest, and the block holds no fence |
| DiscordCog.BareBlockRefused | server/discord_cog.py:96-102 | "```x```" fails on `prefix[-1]` as written and parses to code "x" when corrected |
| DiscordCog.EmptyPrefixParsesFixed | server/discord_cog.py:96-109 | With the corrected test, a message whose block comes first parses, with its language and code taken from the block |
| DiscordCog.ShownOutput | server/discord_cog.py:147-153 | Output shorter than 1014 characters is shown in full; longer output shows the slice of its last 512 characters left after removing the whitespace at both ends: it neither starts nor ends with whitespace, and every character of the tail outside it is whitespace |
| DiscordCog.OutputField | server/discord_cog.py:146-163 | The field value never exceeds 1024 characters; the full output is attached as a file iff it was truncated and the reply is visible |
| Text.Strip | server/discord_cog.py:97 | `str.strip`: the result is the slice left after removing the leading and trailing whitespace, and it neither starts nor ends with whitespace |
| Text.Find | server/discord_cog.py:100 | `str.find`: -1 or the index of an occurrence, with no occurrence before it |
| Text.SplitAtFirst | server/discord_cog.py:89 | `str.split` (`Text.Split`) scans from the left: with no occurrence the string is the only piece; otherwise the first piece ends at the first occurrence and the rest is the split of what follows it |
| Text.SplitJoin | server/discord_cog.py:89 | Joining the pieces of `split(sep)` with `sep` gives back the string |
| Text.SplitCount | server/discord_cog.py:89-95 | `split(sep)` gives one piece more than `count(sep)` |
| Text.SplitPiecesFree | server/discord_cog.py:89 | No piece of `split(sep)` contains `sep` |
| Text.SplitOnce | server/discord_cog.py:108 | With exactly one separator, `split` gives the text before and after it |
| Text.IntToDecimalInjective | server/store.py:31-33 | `str(user_id)` is one-to-one, so the map key identifies the user |

## Left out

- The websocket transport is not modelled. `serve`, iterating the socket, and `send`, `abort_pings` and `close` are reduced to a `Socket` that records what was sent and which requests were made.
- JSON text is not modelled. `json.loads`/`json.dumps` are out of scope; a frame is either a parsed object or text that failed to parse. A parsed top-level value that is not an object is not modelled. In the source, a list or string that does not contain `"id"` fails the membership test in `get_value` with "Key id not defined", which the broker answers with INVALID; a number, a boolean, `null`, or a list or string that contains `"id"` raises a `TypeError` instead, which is not caught and ends `handle_client`.
- ClientHook.ClientHookServer.Disconnect: open conversations are not signalled when their connection goes away, as in the source (server/client_hook.py:104-107); a caller waiting on one is left to its own timeout.
- Locks, blocking and timeouts are not modelled. asyncio locks, the race between connections, blocking `Queue.get` and `asyncio.wait_for` are left out. Each method is one atomic step, and `Receive` returns nothing where Python would wait.
- `new_id` and `new_key` (uuid4, `os.urandom`, Base64) are randomness. A fresh id is a parameter with a freshness precondition.
- shelve persistence and `sync()` in server/store.py are disk I/O. The store is the in-memory map.
- `register_lang`, `find_lang` and `validate_key` scan `items()` in shelve order. The model scans keys in an unspecified order, so `FindLang` may return any matching language.
- Discord UI is not modelled: slash commands, permissions, embeds other than the output field, `ctx.respond`/`defer`, `text_to_memfile`, and `evaluate` outside its truncation rule. Neither are server/config.py (only `MAX_EMBED_FIELD_SIZE = 1024` is used), server/main.py or client/example_client.py.
- `evaluate` has two defects of its own that are not modelled. It falls through after "Invalid language" (server/discord_cog.py:116-118). It leaves `embed` unbound for a long failure message (server/discord_cog.py:168).
- DiscordCog.IsAlnum: `str.isalnum` is taken as ASCII letters and digits only. Unicode letters and digits are not modelled.
- Text.IsSpace follows `str.isspace` for the code points listed. Unicode normalisation and encodings are not modelled.
- ClientHook.ClientHookServer.KillClientConn: `socket.close()` is a coroutine that the source never awaits. The model records only the request, not how the connection reacts.
- ClientHook.ClientHookServer.HandleFrame: the `UnboundLocalError` that ends the loop is reported as `crashed`. The exception and the `finally` clean-up that follows are separate steps (`Disconnect`).
- Protocol.Value: floats, lists and nested objects are `Other`, known only by their Python type name (`float`, `list` or `dict`).

## Findings

| source | as written | input that shows it | evidently intended | confidence | as-written member | corrected member |
|---|---|---|---|---|---|---|
| protocol.py:144-145 | `ErrorMessage.to_dict` merges `key` again and never emits `error` | `ErrorMessage("i", "k", "boom")` decodes with `error` None | `to_dict` emits `error` when set | high, not executed | Protocol.ErrorMessageLosesError | Protocol.FixedRoundTrip |
| protocol.py:131-135 | `InvalidMessage.to_dict` emits `'error': None`, which `from_dict` rejects on type | `InvalidMessage("i")` fails to decode | a missing error is omitted, or decoding accepts null | high, not executed | Protocol.InvalidWithoutErrorRejected | Protocol.FixedRoundTrip |
| server/client_hook.py:31-36 | `self.id = None` before the membership test, so the queue is never removed | a RESULT for a conversation whose block has ended is queued, not answered INVALID | the conversation's own id is removed from the table | high, not executed | ClientHook.LateReplyAfterExit | ClientHook.LateReplyAfterClose |
| server/client_hook.py:72-73 | the `JSONDecodeError` branch has no `continue` | a RESULT, then a non-JSON frame: the RESULT is queued twice (the loop crashes if the first frame is non-JSON) | `continue` after the INVALID reply, as in the `ValueError` branch | high, not executed | ClientHook.StaleResultDeliveredTwice | ClientHook.ClientHookServer.HandleUnparsableFixed |
| server/discord_cog.py:102 | `prefix[-1]` on the stripped prefix | "```x```" (any message that starts with its code block) raises `IndexError` | `prefix.endswith('`')` | high, not executed | DiscordCog.BareBlockRefused | DiscordCog.EmptyPrefixParsesFixed |
| server/discord_cog.py:21-25 | `re.match` with `$`, which also matches before a final newline | `is_identifier("abc\n")` is True | the whole name must match, with no newline | medium, not executed | DiscordCog.TrailingNewlineAccepted | DiscordCog.IsIdentifierFixed |
