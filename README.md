# Telegram chat analysis — a verified model of the chat core

The repository reads a Telegram chat export (JSON) and draws plotly charts of message
activity. Between the decoded JSON and the charts sits a small in-memory model:

- `Message.from_dict` turns one export record into a `Message`. The edit time is optional
  and so is the id of the replied-to message; the reply reference itself is left unset.
- `Chat.__init__` does the following in order:
  - rejects chats that are not personal chats;
  - keeps the records of type `"message"`;
  - builds an id→message dict, where the last record with a given id wins but the id keeps
    its first position;
  - links every reply to its target in place, raising `KeyError` for an id that has no
    target.
- `Chat.groupby` buckets messages by day, by week (the Monday starting it) or by month (its
  first day). `get_trace_messages_by` turns the buckets into x (keys) and y (sizes) lists.
- `Chats.fig_bar` counts each chat's messages, optionally only those whose text contains a
  given substring.

This project models that core in Dafny and proves what it promises. The modules are:

| module | file | contents |
|---|---|---|
| `Wrappers` | wrappers.dfy | `Option` and `Result` (Python exceptions become `Failure`) |
| `Export` | export.dfy | decoded JSON values, Python truthiness, the exceptions the core raises |
| `Sequences` | sequences.dfy | first occurrences, duplicate-free order of first occurrence, sums |
| `Dicts` | dicts.dfy | Python's insertion-ordered `dict`: a key sequence plus a map |
| `Dates` | dates.dfy | proleptic Gregorian dates, `toordinal`, `weekday`, the day/week/month keys |
| `Messages` | message.dfy | `Message` and `from_dict` |
| `Grouping` | grouping.dfy | one-pass bucketing into a `defaultdict(list)`, over any key function |
| `ChatAnalysis` | chat.dfy | `Chat.__init__`, `groupby`, the trace lists, the `fig_bar` counts |

Messages are values. The in-place assignment `msg.reply_to = replied_to` is modelled by the
loop method `LinkReplies`. That loop replaces each message in the chat's message sequence
with a copy whose `replyTo` holds the position of the target message in the same list.
Methods that loop in the source (`BuildIndex`, `LinkReplies`, `GroupBy`, `FigBar`) are
proved equal to specification functions (`Kept`/`Index`, `Resolve`, `Bucket`,
`MatchCount`). The properties are proved about those functions: the comprehension `Kept` by
`KeptSelectsMessageRecords` and `KeptFailure`, the linking `Resolve` by `ResolveMeaning`, and
the whole construction `LoadSpec` by `Load`, `LoadedChat` and `DanglingReplyRejected`.

`datetime.fromisoformat` is a parameter `fromIso: string -> Option<Timestamp>`, where
`None` stands for its `ValueError`.

The linking loop visits only the values of the id map, that is, for each id the last record
with that id. If such a stored message replies to an id that no kept message has, the
subscript at src/chat.py:29 raises `KeyError` and no chat is built (`DanglingReplyRejected`,
`ResolveMeaning`). A reply on a record that a later record with the same id overwrote is never
looked up.

## Model

| member | source | states |
|---|---|---|
| `Export.Truthy` | src/message.py:64 | a JSON value is falsy exactly when it is null, false, 0, the empty string, the empty list or the empty object |
| `Messages.ParseTimestamp` | src/message.py:62 | parsing succeeds exactly when the value is a string the ISO parser accepts, and yields the parser's timestamp. A non-string fails with TypeError, and a string the parser rejects fails with ValueError |
| `Messages.EditedTimestamp` | src/message.py:63-65 | a falsy or absent "edited" gives no edit time. A truthy one succeeds exactly when the parser accepts it, and gives the parsed time |
| `Messages.ReplyToId` | src/message.py:66 | an absent or null "reply_to_message_id" gives no reply id, and an integer gives that id |
| `Messages.FromDict` | src/message.py:56-67 | succeeds exactly on parsable records. A KeyError names a missing one of "id", "from", "text" and "date". On success: id, from and text are copied verbatim; dt is the parse of "date"; edited_dt is None exactly when "edited" is absent or falsy, and is otherwise the parse of "edited"; reply_to_id is None exactly when "reply_to_message_id" is absent or null, and is otherwise that integer; reply_to is unset |
| `Dicts.Dict.Set` | src/chat.py:22-26 | dict assignment keeps keys distinct and sets the value. An existing key keeps its position; a new key is appended last; no other key moves |
| `Sequences.Distinct` | src/chat.py:22-26 | the keys of a dict filled from a sequence are duplicate-free, and each of them is an element of the sequence and each element is one of them |
| `Sequences.DistinctInFirstOccurrenceOrder` | src/chat.py:22-26 | those keys are listed in the order in which they first occur |
| `ChatAnalysis.Iterate` | src/chat.py:24 | iterating `data["messages"]` succeeds exactly on a list, an empty object or an empty string. A list gives its elements, and the other two give nothing. Everything else fails with TypeError |
| `ChatAnalysis.Classify` | src/chat.py:23-25 | a record that is not an object fails with TypeError, and one without "type" fails with KeyError. A record of another type yields nothing. A record of type "message" yields exactly its `from_dict` message, or fails with exactly `from_dict`'s error |
| `ChatAnalysis.MessagePositions` | src/chat.py:25 | the positions of the records of type "message": every such record's position, in range, in ascending order |
| `ChatAnalysis.KeptSelectsMessageRecords` | src/chat.py:22-26 | when the comprehension (`Kept`) succeeds, it keeps one message per record of type "message", in record order. The t-th kept message is `from_dict` of the t-th such record |
| `ChatAnalysis.KeptFailure` | src/chat.py:22-26 | the comprehension (`Kept`) fails exactly when some record fails, and then with the error of the first such record |
| `ChatAnalysis.KeptFailurePersists` | src/chat.py:22-26 | once a prefix of the records fails, the whole comprehension fails with that prefix's error, whatever follows |
| `ChatAnalysis.KeptFromMessageRecords` | src/chat.py:22-26 | every kept message is `from_dict` of some record of type "message" |
| `ChatAnalysis.LastKeptIsLastRecord` | src/chat.py:22-26 | the last kept message with an id is `from_dict` of the last record of type "message" carrying that id |
| `ChatAnalysis.Index` | src/chat.py:22-26 | the id map is a well-formed dict |
| `ChatAnalysis.IndexKeys` | src/chat.py:22-26 | the id map's keys are the kept ids without repetition, in first-occurrence order |
| `ChatAnalysis.IndexLastWins` | src/chat.py:22-26 | each id maps to a message with that id, and no later kept message has that id (the last one wins) |
| `Dicts.Dict.Values` | src/chat.py:27-31 | the values of a dict are the values stored under its keys, in key order, one per key |
| `Dicts.Dict.ValuesComplete` | src/chat.py:27 | every value stored under a key is among the dict's values |
| `ChatAnalysis.BuildIndex` | src/chat.py:22-26 | the comprehension loop returns the comprehension's first error, or else the id map of the kept messages |
| `ChatAnalysis.Linked` | src/chat.py:28-30 | linking changes only the reply reference. Without a reply id the message is unchanged; with one, the reference is the position of that id in the map |
| `ChatAnalysis.ResolveMeaning` | src/chat.py:27-30 | linking succeeds exactly when no reply id is missing from the map, and then links every message in place. Otherwise it fails with KeyError naming the first missing reply id in value order |
| `ChatAnalysis.LinkReplies` | src/chat.py:27-30 | the in-place linking loop computes exactly `Resolve` over the map's values |
| `ChatAnalysis.ResolvedIndex` | src/chat.py:27-31 | the linked message list has pairwise-distinct ids in first-occurrence order. Every reply reference points at a message with the reply's id, and a message without a reply id has no reference. Apart from the reference, each message is the last kept one with its id |
| `ChatAnalysis.LoadedChat` | src/chat.py:16-31 | a built chat comes from a personal-chat export and holds the chat's name. The kept messages are `from_dict` of every record of type "message", in record order. The chat's message ids are those ids without repetition, in first-occurrence order, and its replies are resolved. Apart from its reply reference, each message is `from_dict` of the last record of type "message" with its id |
| `ChatAnalysis.DanglingReplyRejected` | src/chat.py:28-29 | if a stored message replies to an id that no kept message has, construction fails with KeyError on an integer id |
| `ChatAnalysis.Load` | src/chat.py:16-31 | `Chat.__init__` returns exactly the specified chat or error. An export that is not an object gives TypeError. A missing "name" or "type" gives KeyError, checked in that order. A type other than "personal_chat" gives NotImplementedError, and then a missing "messages" gives KeyError. A built chat has distinct ids and resolved replies |
| `Dates.Ordinal` | src/chat.py:45 | `toordinal` is at least 1 and is 1 exactly on 0001-01-01 |
| `Dates.Weekday` | src/chat.py:45 | `weekday()` is between 0 and 6, and 0001-01-01 is a Monday (0) |
| `Dates.PrevDay` | src/chat.py:45 | the previous calendar day has the ordinal one less |
| `Dates.PrevDayWeekday` | src/chat.py:45 | the previous calendar day falls on the previous weekday |
| `Dates.SubtractDays` | src/chat.py:45 | subtracting n days lowers the ordinal by n and keeps the time of day |
| `Dates.WeekKey` | src/chat.py:45 | the week key is a Monday no later than the date and at most six days before it |
| `Dates.MonthKey` | src/chat.py:46 | the month key is day 1 of the date's year and month, and the date falls within that month |
| `ChatAnalysis.KeyOf` | src/chat.py:40-47 | the day key is the message's date; the week key is a Monday within the six days up to it; the month key is the first of its month |
| `ChatAnalysis.KeysOf` | src/chat.py:49-50 | the key sequence has one key per message, in message order |
| `Grouping.BucketSize` | src/chat.py:48-50 | a bucket has as many items as its key occurs among the keys |
| `Grouping.BucketMembers` | src/chat.py:48-50 | every item in a bucket is an item whose key is the bucket's key |
| `Grouping.BucketComplete` | src/chat.py:48-50 | every item is in the bucket of its key |
| `Grouping.Positions` | src/chat.py:49-50 | the positions carrying a key are in range, strictly increasing and complete |
| `Grouping.BucketInOrder` | src/chat.py:49-50 | a bucket holds exactly the items at the positions of its key, in increasing position order |
| `ChatAnalysis.GroupBy` | src/chat.py:36-51 | the grouping loop yields a well-formed dict with the distinct keys in first-occurrence order, and each bucket is the ordered bucket of its key. Every message is in its own key's bucket, every member's key is its bucket's key, and the sizes sum to the number of messages |
| `ChatAnalysis.GroupedIsPartition` | src/chat.py:48-51 | the finished loop state is a partition: each message is in the bucket of its key, and a bucket holds only messages with that key |
| `ChatAnalysis.TraceMessagesBy` | src/chat.py:55-57 | x and y have equal length; x is the distinct keys in first-occurrence order; y[i] is the number of messages whose key is x[i]; the sum of y is the number of messages |
| `ChatAnalysis.ContainsSlice` | src/chat.py:81 | `sub in text` holds exactly when some slice of the text equals `sub` |
| `ChatAnalysis.MatchCount` | src/chat.py:78-82 | the filtered count is at most the number of messages, and equals it when there is no filter |
| `ChatAnalysis.MatchCountCountsMatches` | src/chat.py:78-82 | the filtered count is the number of positions whose text contains the substring (all positions when there is no filter) |
| `ChatAnalysis.FigBar` | src/chat.py:75-84 | one name and one count per chat, in chat order. Each count is the filtered count of that chat, never more than its message count, and equal to it when there is no filter |

## Left out

- Reading the export file and decoding its JSON (src/chat.py:17-18): I/O. The model starts
  from the decoded value. `self.data` is not kept, because nothing in the core reads it
  after construction.
- `datetime.fromisoformat` (src/message.py:62, 64): a library parser. It is a function
  parameter of the model. Timestamps carry no time zone and no `fold`.
- JSON numbers that are not integers are not represented.
- Messages.FromDict: the model requires "id" to be an integer and "text" to be a string, and
  "reply_to_message_id" to be null or an integer. It reports TypeError otherwise. The source
  stores whatever value it finds, unchecked, so on such records the model is stricter than
  the source. Because a failing record aborts the comprehension, a single such record makes
  `Load` refuse the whole chat, which Python would build.
- Object identity: `reply_to` is a position in the chat's message list, not a shared object.
  Aliasing between messages (the target seeing later updates) is therefore not modelled.
- All plotly figure, trace and layout construction (src/chat.py:58-64, 85-110), including
  `fig_messages_by`: rendering. The model keeps the x/y lists and the name/count lists that
  those calls receive.
- `Chat.__repr__` (src/chat.py:33-34): cosmetic string formatting.
- `Chats.__init__` (src/chat.py:68-70): it only stores the list, which is the `Chats`
  datatype.
- `Chat.groupby` returns a `defaultdict`, and reading a missing key from it inserts an empty
  list. Nothing in the core reads a missing key, so the model returns a plain ordered dict.
- GroupKey: the grouping key is an enumeration of day, week and month, which is what the
  `Literal` annotation at src/chat.py:12 allows. Any other key is unrepresentable. Python
  would look such a key up in `KEYMAP` inside the loop, so it would raise `KeyError` only when
  the chat has messages, and would return an empty dict otherwise.
