/**
 * One personal chat (construction with reply resolution, grouping by day, week or month,
 * the message-count series) and the collection of chats (per-chat message counts).
 */
module ChatAnalysis {
  import opened Wrappers
  import opened Export
  import opened Dates
  import opened Sequences
  import opened Dicts
  import opened Messages
  import opened Grouping

  /** A loaded chat: the counterpart's name and the messages in the order of the id map. */
  datatype Chat = Chat(chatWith: Value, messages: seq<Message>)

  /** The chats to compare, in the order given. */
  datatype Chats = Chats(chats: seq<Chat>)

  // ------------------------------------------------------------------
  // Construction: message filtering, the id map, reply resolution
  // ------------------------------------------------------------------

  predicate IsMessageRecord(rec: Value) {
    rec.Obj? && "type" in rec.fields && rec.fields["type"] == Str("message")
  }

  /**
   * Iterating over `data["messages"]` and subscripting every element with "type": a list
   * yields its elements; an empty dict or string yields nothing; a non-empty dict or string
   * yields strings, whose subscript fails; anything else is not iterable.
   */
  function Iterate(v: Value): (r: Result<seq<Value>, Error>)
    ensures r.Success? <==> v.Arr? || v == Obj(map[]) || v == Str("")
    ensures v.Arr? ==> r == Success(v.items)
    ensures r.Success? && !v.Arr? ==> r.value == []
    ensures r.Failure? ==> r.error.TypeError?
  {
    match v
    case Arr(items) => Success(items)
    case Obj(fields) => if fields == map[] then Success([]) else Failure(TypeError("message record"))
    case Str(s) => if s == "" then Success([]) else Failure(TypeError("message record"))
    case _ => Failure(TypeError("messages"))
  }

  /** One element of the comprehension: its message when its type is "message", else None. */
  function Classify(rec: Value, fromIso: IsoParser): (r: Result<Option<Message>, Error>)
    ensures r.Success? && r.value.Some? ==>
      IsMessageRecord(rec) && FromDict(rec.fields, fromIso) == Success(r.value.value)
    ensures rec.Obj? && "type" in rec.fields && !IsMessageRecord(rec) ==> r == Success(None)
    ensures !rec.Obj? ==> r == Failure(TypeError("message record"))
    ensures rec.Obj? && "type" !in rec.fields ==> r == Failure(KeyError(Str("type")))
    ensures IsMessageRecord(rec) && FromDict(rec.fields, fromIso).Success? ==>
      r == Success(Some(FromDict(rec.fields, fromIso).value))
    ensures IsMessageRecord(rec) && FromDict(rec.fields, fromIso).Failure? ==>
      r == Failure(FromDict(rec.fields, fromIso).error)
  {
    if !rec.Obj? then Failure(TypeError("message record"))
    else if "type" !in rec.fields then Failure(KeyError(Str("type")))
    else if rec.fields["type"] != Str("message") then Success(None)
    else
      var m :- FromDict(rec.fields, fromIso);
      Success(Some(m))
  }

  /** The messages of the message-type records in record order; the first failure ends the scan. */
  function Kept(records: seq<Value>, fromIso: IsoParser): Result<seq<Message>, Error>
    decreases |records|
  {
    if records == [] then Success([])
    else
      var kept :- Kept(records[..|records| - 1], fromIso);
      var c :- Classify(records[|records| - 1], fromIso);
      if c.Some? then Success(kept + [c.value]) else Success(kept)
  }

  lemma {:induction false} KeptFailurePersists(records: seq<Value>, n: nat, fromIso: IsoParser)
    requires n <= |records|
    requires Kept(records[..n], fromIso).Failure?
    ensures Kept(records, fromIso) == Kept(records[..n], fromIso)
    decreases |records|
  {
    if n < |records| {
      var init := records[..|records| - 1];
      assert init[..n] == records[..n];
      KeptFailurePersists(init, n, fromIso);
    } else {
      assert records[..n] == records;
    }
  }

  /** Which records are of type "message". */
  function MessageFlags(records: seq<Value>): (flags: seq<bool>)
    ensures |flags| == |records|
    ensures forall j :: 0 <= j < |records| ==> flags[j] == IsMessageRecord(records[j])
  {
    seq(|records|, j requires 0 <= j < |records| => IsMessageRecord(records[j]))
  }

  /** The positions of the records of type "message", ascending. */
  function MessagePositions(records: seq<Value>): (ps: seq<nat>)
    ensures forall t :: 0 <= t < |ps| ==> ps[t] < |records| && IsMessageRecord(records[ps[t]])
    ensures forall j :: 0 <= j < |records| && IsMessageRecord(records[j]) ==> j in ps
    ensures forall s, t :: 0 <= s < t < |ps| ==> ps[s] < ps[t]
  {
    Positions(MessageFlags(records), true)
  }

  /** The comprehension keeps every record of type "message", in record order, as its `from_dict` result. */
  lemma {:induction false} KeptSelectsMessageRecords(records: seq<Value>, fromIso: IsoParser)
    requires Kept(records, fromIso).Success?
    ensures |Kept(records, fromIso).value| == |MessagePositions(records)|
    ensures forall t :: 0 <= t < |MessagePositions(records)| ==>
      FromDict(records[MessagePositions(records)[t]].fields, fromIso) == Success(Kept(records, fromIso).value[t])
    decreases |records|
  {
    if records != [] {
      var n := |records| - 1;
      var init := records[..n];
      assert Kept(init, fromIso).Success?;
      KeptSelectsMessageRecords(init, fromIso);
      var fl := MessageFlags(records);
      assert MessageFlags(init) == fl[..n];
      var ps := MessagePositions(init);
      assert MessagePositions(records) == ps + if fl[n] then [n] else [];
      var c := Classify(records[n], fromIso);
      assert c.Success? && (c.value.Some? <==> fl[n]);
      var kept := Kept(init, fromIso).value;
      assert Kept(records, fromIso).value == kept + if c.value.Some? then [c.value.value] else [];
      forall t | 0 <= t < |MessagePositions(records)|
        ensures FromDict(records[MessagePositions(records)[t]].fields, fromIso) == Success(Kept(records, fromIso).value[t])
      {
        if t < |ps| {
          assert records[ps[t]] == init[ps[t]];
        }
      }
    }
  }

  /** The first record whose classification fails. */
  predicate FirstRejected(records: seq<Value>, fromIso: IsoParser, j: int) {
    && 0 <= j < |records|
    && Classify(records[j], fromIso).Failure?
    && forall i :: 0 <= i < j ==> Classify(records[i], fromIso).Success?
  }

  /** The comprehension fails exactly when some record fails, and then with the first such record's error. */
  lemma {:induction false} KeptFailure(records: seq<Value>, fromIso: IsoParser)
    ensures Kept(records, fromIso).Success? <==> forall j :: 0 <= j < |records| ==> Classify(records[j], fromIso).Success?
    ensures Kept(records, fromIso).Failure? ==>
      exists j :: FirstRejected(records, fromIso, j) && Kept(records, fromIso).error == Classify(records[j], fromIso).error
    decreases |records|
  {
    if records != [] {
      var n := |records| - 1;
      var init := records[..n];
      KeptFailure(init, fromIso);
      assert forall i :: 0 <= i < n ==> records[i] == init[i];
      if Kept(init, fromIso).Failure? {
        var j :| FirstRejected(init, fromIso, j) && Kept(init, fromIso).error == Classify(init[j], fromIso).error;
        assert FirstRejected(records, fromIso, j);
      } else if Classify(records[n], fromIso).Failure? {
        assert FirstRejected(records, fromIso, n);
      }
    }
  }

  /** `m` is what `from_dict` makes of a record of type "message", and no later such record has its id. */
  ghost predicate LastRecordWithId(m: Message, records: seq<Value>, fromIso: IsoParser) {
    exists j ::
      && 0 <= j < |records| && IsMessageRecord(records[j]) && FromDict(records[j].fields, fromIso) == Success(m)
      && forall j' :: j < j' < |records| && IsMessageRecord(records[j']) ==>
           !(FromDict(records[j'].fields, fromIso).Success? && FromDict(records[j'].fields, fromIso).value.id == m.id)
  }

  /** The last kept message with an id comes from the last "message" record with that id. */
  lemma LastKeptIsLastRecord(records: seq<Value>, fromIso: IsoParser, m: Message)
    requires Kept(records, fromIso).Success?
    requires LastWithId(Kept(records, fromIso).value, m)
    ensures LastRecordWithId(m, records, fromIso)
  {
    var kept := Kept(records, fromIso).value;
    var ps := MessagePositions(records);
    KeptSelectsMessageRecords(records, fromIso);
    var j :| 0 <= j < |kept| && kept[j] == m && forall j' :: j < j' < |kept| ==> kept[j'].id != m.id;
    var r := ps[j];
    forall r' | r < r' < |records| && IsMessageRecord(records[r'])
      ensures !(FromDict(records[r'].fields, fromIso).Success? && FromDict(records[r'].fields, fromIso).value.id == m.id)
    {
      var t := LaterRecordIsLaterKept(records, fromIso, j, r');
    }
    assert FromDict(records[r].fields, fromIso) == Success(m);
  }

  /** A "message" record after the one behind kept message `j` is behind a later kept message. */
  lemma LaterRecordIsLaterKept(records: seq<Value>, fromIso: IsoParser, j: nat, r': nat) returns (t: nat)
    requires Kept(records, fromIso).Success?
    requires j < |MessagePositions(records)| && MessagePositions(records)[j] < r' < |records|
    requires IsMessageRecord(records[r'])
    ensures j < t < |Kept(records, fromIso).value|
    ensures FromDict(records[r'].fields, fromIso) == Success(Kept(records, fromIso).value[t])
  {
    var ps := MessagePositions(records);
    KeptSelectsMessageRecords(records, fromIso);
    t :| 0 <= t < |ps| && ps[t] == r';
    PositionsOrder(MessageFlags(records), true, j, t);
  }

  /** `m` is what `from_dict` makes of some record whose type is "message". */
  ghost predicate ParsedFrom(m: Message, records: seq<Value>, fromIso: IsoParser) {
    exists j :: 0 <= j < |records| && IsMessageRecord(records[j]) && FromDict(records[j].fields, fromIso) == Success(m)
  }

  /** Only message-type records contribute, each through `from_dict`. */
  lemma {:induction false} KeptFromMessageRecords(records: seq<Value>, fromIso: IsoParser)
    requires Kept(records, fromIso).Success?
    ensures forall m :: m in Kept(records, fromIso).value ==> ParsedFrom(m, records, fromIso)
    decreases |records|
  {
    if records != [] {
      var init, last := records[..|records| - 1], records[|records| - 1];
      KeptFromMessageRecords(init, fromIso);
      var kept := Kept(init, fromIso).value;
      forall m | m in Kept(records, fromIso).value
        ensures ParsedFrom(m, records, fromIso)
      {
        if m in kept {
          var j :| 0 <= j < |init| && IsMessageRecord(init[j]) && FromDict(init[j].fields, fromIso) == Success(m);
          assert records[j] == init[j];
        } else {
          assert records[|records| - 1] == last;
        }
      }
    }
  }

  function Ids(ms: seq<Message>): seq<int> {
    seq(|ms|, i requires 0 <= i < |ms| => ms[i].id)
  }

  /** The comprehension `{m.id: m for m in kept}`. */
  function Index(kept: seq<Message>): (d: Dict<int, Message>)
    ensures d.Valid()
    decreases |kept|
  {
    if kept == [] then Empty()
    else Index(kept[..|kept| - 1]).Set(kept[|kept| - 1].id, kept[|kept| - 1])
  }

  /** The id map lists each id once, at the position of its first occurrence. */
  lemma {:induction false} IndexKeys(kept: seq<Message>)
    ensures Index(kept).keys == Distinct(Ids(kept))
    decreases |kept|
  {
    if kept != [] {
      var init, last := kept[..|kept| - 1], kept[|kept| - 1];
      IndexKeys(init);
      var s := Ids(kept);
      assert s[..|s| - 1] == Ids(init);
      var p := Distinct(Ids(init));
      assert Distinct(s) == if last.id in p then p else p + [last.id];
      assert last.id in Index(init).entries <==> last.id in p;
    }
  }

  /** `m` is the last message of `kept` with its id. */
  ghost predicate LastWithId(kept: seq<Message>, m: Message) {
    exists j :: 0 <= j < |kept| && kept[j] == m && forall j' :: j < j' < |kept| ==> kept[j'].id != m.id
  }

  /** On duplicate ids the last message wins. */
  lemma {:induction false} IndexLastWins(kept: seq<Message>)
    ensures forall k :: k in Index(kept).entries ==>
      Index(kept).entries[k].id == k && LastWithId(kept, Index(kept).entries[k])
    decreases |kept|
  {
    if kept != [] {
      var init, last := kept[..|kept| - 1], kept[|kept| - 1];
      IndexLastWins(init);
      var d := Index(init);
      assert Index(kept) == d.Set(last.id, last);
      forall k | k in Index(kept).entries
        ensures Index(kept).entries[k].id == k && LastWithId(kept, Index(kept).entries[k])
      {
        if k == last.id {
          assert Index(kept).entries[k] == last;
          assert kept[|kept| - 1] == last;
        } else {
          assert k in d.entries;
          var m := d.entries[k];
          assert Index(kept).entries[k] == m;
          var j :| 0 <= j < |init| && init[j] == m && forall j' :: j < j' < |init| ==> init[j'].id != m.id;
          assert kept[j] == m;
          forall j' | j < j' < |kept| ensures kept[j'].id != m.id {
            if j' < |init| {
              assert kept[j'] == init[j'];
            }
          }
        }
      }
    }
  }

  /** A reply to an id that is not in the map. */
  predicate Dangling(m: Message, d: Dict<int, Message>) {
    m.replyToId.Some? && m.replyToId.value !in d.entries
  }

  predicate FirstDangling(vs: seq<Message>, d: Dict<int, Message>, i: int) {
    && 0 <= i < |vs|
    && Dangling(vs[i], d)
    && forall j :: 0 <= j < i ==> !Dangling(vs[j], d)
  }

  /** `msg.reply_to = messages_map[msg.reply_to_id]`, the reference written as the target's position. */
  function Linked(m: Message, d: Dict<int, Message>): (r: Message)
    requires d.Valid() && !Dangling(m, d)
    ensures r == m.(replyTo := r.replyTo)
    ensures m.replyToId.None? ==> r == m
    ensures m.replyToId.Some? ==>
      r.replyTo.Some? && r.replyTo.value < |d.keys| && d.keys[r.replyTo.value] == m.replyToId.value
  {
    if m.replyToId.Some? then m.(replyTo := Some(FirstIndex(d.keys, m.replyToId.value))) else m
  }

  /** The linking loop over the map's values: the first dangling reply raises KeyError. */
  function Resolve(vs: seq<Message>, d: Dict<int, Message>): Result<seq<Message>, Error>
    requires d.Valid()
    decreases |vs|
  {
    if vs == [] then Success([])
    else if Dangling(vs[0], d) then Failure(KeyError(Int(vs[0].replyToId.value)))
    else
      var rest :- Resolve(vs[1..], d);
      Success([Linked(vs[0], d)] + rest)
  }

  /** Linking succeeds exactly when no reply dangles; it then links every message, else it reports the first dangling id. */
  lemma {:induction false} ResolveMeaning(vs: seq<Message>, d: Dict<int, Message>)
    requires d.Valid()
    ensures Resolve(vs, d).Success? <==> forall i :: 0 <= i < |vs| ==> !Dangling(vs[i], d)
    ensures Resolve(vs, d).Success? ==>
      |Resolve(vs, d).value| == |vs| &&
      forall i :: 0 <= i < |vs| ==> Resolve(vs, d).value[i] == Linked(vs[i], d)
    ensures Resolve(vs, d).Failure? ==>
      exists i :: FirstDangling(vs, d, i) && Resolve(vs, d).error == KeyError(Int(vs[i].replyToId.value))
    decreases |vs|
  {
    if vs != [] && !Dangling(vs[0], d) {
      var rest := vs[1..];
      ResolveMeaning(rest, d);
      if Resolve(rest, d).Failure? {
        var i :| FirstDangling(rest, d, i) && Resolve(rest, d).error == KeyError(Int(rest[i].replyToId.value));
        assert FirstDangling(vs, d, i + 1);
      } else {
        assert forall i :: 1 <= i < |vs| ==> vs[i] == rest[i - 1];
      }
    } else if vs != [] {
      assert FirstDangling(vs, d, 0);
    }
  }

  /** The chat as `Chat.__init__` builds it from the decoded export. */
  function LoadSpec(data: Value, fromIso: IsoParser): Result<Chat, Error> {
    if !data.Obj? then Failure(TypeError("chat"))
    else if "name" !in data.fields then Failure(KeyError(Str("name")))
    else if "type" !in data.fields then Failure(KeyError(Str("type")))
    else if data.fields["type"] != Str("personal_chat") then Failure(NotImplementedError)
    else if "messages" !in data.fields then Failure(KeyError(Str("messages")))
    else
      var records :- Iterate(data.fields["messages"]);
      var kept :- Kept(records, fromIso);
      var index := Index(kept);
      var messages :- Resolve(index.Values(), index);
      Success(Chat(data.fields["name"], messages))
  }

  predicate IdsDistinct(ms: seq<Message>) {
    forall i, j :: 0 <= i < j < |ms| ==> ms[i].id != ms[j].id
  }

  /** Every reply reference points at the message whose id the reply names; no reply id, no reference. */
  predicate RepliesResolved(ms: seq<Message>) {
    forall i :: 0 <= i < |ms| ==>
      && (ms[i].replyToId.None? ==> ms[i].replyTo.None?)
      && (ms[i].replyToId.Some? ==>
            ms[i].replyTo.Some? && ms[i].replyTo.value < |ms| && ms[ms[i].replyTo.value].id == ms[i].replyToId.value)
  }

  predicate ValidChat(c: Chat) {
    IdsDistinct(c.messages) && RepliesResolved(c.messages)
  }

  /** Message `i` of the linked list is the map's value at key `i`, which is the last kept message with that id. */
  lemma ResolvedEntries(kept: seq<Message>)
    requires forall m :: m in kept ==> m.replyTo.None?
    requires Resolve(Index(kept).Values(), Index(kept)).Success?
    ensures
      var d := Index(kept);
      var ms := Resolve(d.Values(), d).value;
      && |ms| == |d.keys|
      && forall i :: 0 <= i < |ms| ==>
           && d.Values()[i].id == d.keys[i]
           && d.Values()[i].replyTo.None?
           && ms[i].(replyTo := None) == d.Values()[i]
           && LastWithId(kept, ms[i].(replyTo := None))
  {
    var d := Index(kept);
    var vs := d.Values();
    ResolveMeaning(vs, d);
    forall i | 0 <= i < |vs| ensures vs[i].id == d.keys[i] && LastWithId(kept, vs[i]) && vs[i].replyTo.None? {
      IndexValueAt(kept, i);
    }
  }

  /** The map's value at key position `i` has that key as its id and is the last kept message with it. */
  lemma IndexValueAt(kept: seq<Message>, i: nat)
    requires forall m :: m in kept ==> m.replyTo.None?
    requires i < |Index(kept).keys|
    ensures Index(kept).Values()[i].id == Index(kept).keys[i]
    ensures LastWithId(kept, Index(kept).Values()[i])
    ensures Index(kept).Values()[i].replyTo.None?
  {
    var d := Index(kept);
    var v := d.Values()[i];
    IndexLastWins(kept);
    assert v == d.entries[d.keys[i]];
    var j :| 0 <= j < |kept| && kept[j] == v && forall j' :: j < j' < |kept| ==> kept[j'].id != v.id;
    assert v in kept;
  }

  /** Linking messages listed in key order, each unlinked and carrying its key, resolves every reply. */
  lemma LinkedRepliesResolved(vs: seq<Message>, d: Dict<int, Message>)
    requires d.Valid() && |vs| == |d.keys|
    requires forall i :: 0 <= i < |vs| ==> vs[i].id == d.keys[i] && vs[i].replyTo.None?
    requires Resolve(vs, d).Success?
    ensures RepliesResolved(Resolve(vs, d).value)
  {
    ResolveMeaning(vs, d);
    var ms := Resolve(vs, d).value;
    forall i | 0 <= i < |ms| && ms[i].replyToId.Some?
      ensures ms[i].replyTo.Some? && ms[i].replyTo.value < |ms| && ms[ms[i].replyTo.value].id == ms[i].replyToId.value
    {
      assert ms[i] == Linked(vs[i], d);
      var p := ms[i].replyTo.value;
      assert ms[p] == Linked(vs[p], d);
    }
  }

  /** Linking the values of the id map yields distinct ids, in first-occurrence order, with resolved replies. */
  lemma {:induction false} ResolvedIndex(kept: seq<Message>)
    requires forall m :: m in kept ==> m.replyTo.None?
    requires Resolve(Index(kept).Values(), Index(kept)).Success?
    ensures
      var ms := Resolve(Index(kept).Values(), Index(kept)).value;
      && Ids(ms) == Distinct(Ids(kept))
      && IdsDistinct(ms)
      && RepliesResolved(ms)
      && forall i :: 0 <= i < |ms| ==> LastWithId(kept, ms[i].(replyTo := None))
  {
    var d := Index(kept);
    var vs := d.Values();
    ResolvedEntries(kept);
    LinkedRepliesResolved(vs, d);
    ResolvedIds(kept);
    IndexKeys(kept);
    UniqueIds(Resolve(vs, d).value);
  }

  /** The linked list carries the map's keys as its ids, in key order. */
  lemma ResolvedIds(kept: seq<Message>)
    requires forall m :: m in kept ==> m.replyTo.None?
    requires Resolve(Index(kept).Values(), Index(kept)).Success?
    ensures Ids(Resolve(Index(kept).Values(), Index(kept)).value) == Index(kept).keys
  {
    ResolvedEntries(kept);
  }

  /** Messages whose id list has no repetition have pairwise-distinct ids. */
  lemma UniqueIds(ms: seq<Message>)
    requires NoDuplicates(Ids(ms))
    ensures IdsDistinct(ms)
  {
    forall i, j | 0 <= i < j < |ms| ensures ms[i].id != ms[j].id {
      assert Ids(ms)[i] != Ids(ms)[j];
    }
  }

  /** What a successfully built chat holds. */
  lemma {:induction false} LoadedChat(data: Value, fromIso: IsoParser)
    requires LoadSpec(data, fromIso).Success?
    ensures data.Obj? && "name" in data.fields && "messages" in data.fields
    ensures data.fields["type"] == Str("personal_chat")
    ensures Iterate(data.fields["messages"]).Success?
    ensures Kept(Iterate(data.fields["messages"]).value, fromIso).Success?
    ensures
      var records := Iterate(data.fields["messages"]).value;
      var kept := Kept(records, fromIso).value;
      var c := LoadSpec(data, fromIso).value;
      && c.chatWith == data.fields["name"]
      && Ids(c.messages) == Distinct(Ids(kept))
      && ValidChat(c)
      && forall i :: 0 <= i < |c.messages| ==>
           var m := c.messages[i].(replyTo := None);
           LastWithId(kept, m) && LastRecordWithId(m, records, fromIso)
    ensures
      var records := Iterate(data.fields["messages"]).value;
      var kept := Kept(records, fromIso).value;
      && |kept| == |MessagePositions(records)|
      && forall t :: 0 <= t < |kept| ==> FromDict(records[MessagePositions(records)[t]].fields, fromIso) == Success(kept[t])
  {
    var records := Iterate(data.fields["messages"]).value;
    var kept := Kept(records, fromIso).value;
    KeptFromMessageRecords(records, fromIso);
    forall m | m in kept ensures m.replyTo.None? {
      var j :| 0 <= j < |records| && IsMessageRecord(records[j]) && FromDict(records[j].fields, fromIso) == Success(m);
    }
    ResolvedIndex(kept);
    var ms := LoadSpec(data, fromIso).value.messages;
    KeptSelectsMessageRecords(records, fromIso);
    forall i | 0 <= i < |ms| ensures LastRecordWithId(ms[i].(replyTo := None), records, fromIso) {
      LastKeptIsLastRecord(records, fromIso, ms[i].(replyTo := None));
    }
  }

  /** A stored message whose reply id names no kept message makes construction fail with KeyError. */
  lemma {:induction false} DanglingReplyRejected(data: Value, fromIso: IsoParser, kept: seq<Message>, i: nat)
    requires data.Obj? && "name" in data.fields && "type" in data.fields && "messages" in data.fields
    requires data.fields["type"] == Str("personal_chat")
    requires Iterate(data.fields["messages"]).Success?
    requires Kept(Iterate(data.fields["messages"]).value, fromIso) == Success(kept)
    requires i < |kept| && forall j :: i < j < |kept| ==> kept[j].id != kept[i].id
    requires kept[i].replyToId.Some? && kept[i].replyToId.value !in Ids(kept)
    ensures LoadSpec(data, fromIso).Failure?
    ensures LoadSpec(data, fromIso).error.KeyError? && LoadSpec(data, fromIso).error.key.Int?
  {
    var index := Index(kept);
    var vs := index.Values();
    IndexKeys(kept);
    IndexLastWins(kept);
    var k := kept[i].id;
    assert Ids(kept)[i] == k;
    assert k in index.entries;
    var m := index.entries[k];
    var j :| 0 <= j < |kept| && kept[j] == m && forall j' :: j < j' < |kept| ==> kept[j'].id != m.id;
    assert j == i;
    var p := FirstIndex(index.keys, k);
    assert vs[p] == kept[i];
    assert kept[i].replyToId.value !in index.keys;
    assert Dangling(vs[p], index);
    ResolveMeaning(vs, index);
  }

  /** The dict comprehension of `Chat.__init__`. */
  method BuildIndex(records: seq<Value>, fromIso: IsoParser) returns (r: Result<Dict<int, Message>, Error>)
    ensures Kept(records, fromIso).Failure? ==> r == Failure(Kept(records, fromIso).error)
    ensures Kept(records, fromIso).Success? ==> r == Success(Index(Kept(records, fromIso).value))
  {
    var index: Dict<int, Message> := Empty();
    ghost var kept: seq<Message> := [];
    for i := 0 to |records|
      invariant Kept(records[..i], fromIso) == Success(kept)
      invariant index == Index(kept)
    {
      assert records[..i + 1][..i] == records[..i];
      var c := Classify(records[i], fromIso);
      if c.Failure? {
        KeptFailurePersists(records, i + 1, fromIso);
        return Failure(c.error);
      }
      if c.value.Some? {
        var m := c.value.value;
        assert (kept + [m])[..|kept|] == kept;
        index := index.Set(m.id, m);
        kept := kept + [m];
      }
    }
    assert records[..|records|] == records;
    r := Success(index);
  }

  /** The loop of `Chat.__init__` that installs each message's reply reference in place. */
  method LinkReplies(index: Dict<int, Message>) returns (r: Result<seq<Message>, Error>)
    requires index.Valid()
    ensures r == Resolve(index.Values(), index)
  {
    ghost var vs := index.Values();
    var messages := index.Values();
    for i := 0 to |messages|
      invariant |messages| == |vs|
      invariant forall j :: 0 <= j < i ==> !Dangling(vs[j], index) && messages[j] == Linked(vs[j], index)
      invariant forall j :: i <= j < |vs| ==> messages[j] == vs[j]
    {
      var msg := messages[i];
      if msg.replyToId.Some? {
        if msg.replyToId.value !in index.entries {
          ResolveMeaning(vs, index);
          assert FirstDangling(vs, index, i);
          ghost var i' :| FirstDangling(vs, index, i') && Resolve(vs, index).error == KeyError(Int(vs[i'].replyToId.value));
          assert i' == i;
          return Failure(KeyError(Int(msg.replyToId.value)));
        }
        messages := messages[i := msg.(replyTo := Some(FirstIndex(index.keys, msg.replyToId.value)))];
      }
    }
    ResolveMeaning(vs, index);
    assert Resolve(vs, index).value == messages;
    r := Success(messages);
  }

  /** `Chat.__init__` on the decoded export. */
  method Load(data: Value, fromIso: IsoParser) returns (r: Result<Chat, Error>)
    ensures r == LoadSpec(data, fromIso)
    ensures !data.Obj? ==> r == Failure(TypeError("chat"))
    ensures data.Obj? && "name" !in data.fields ==> r == Failure(KeyError(Str("name")))
    ensures data.Obj? && "name" in data.fields && "type" !in data.fields ==> r == Failure(KeyError(Str("type")))
    ensures data.Obj? && "name" in data.fields && "type" in data.fields && data.fields["type"] != Str("personal_chat")
      ==> r == Failure(NotImplementedError)
    ensures (data.Obj? && "name" in data.fields && "type" in data.fields && data.fields["type"] == Str("personal_chat") &&
             "messages" !in data.fields) ==> r == Failure(KeyError(Str("messages")))
    ensures r.Success? ==> ValidChat(r.value)
  {
    if !data.Obj? { return Failure(TypeError("chat")); }
    if "name" !in data.fields { return Failure(KeyError(Str("name"))); }
    var chatWith := data.fields["name"];
    if "type" !in data.fields { return Failure(KeyError(Str("type"))); }
    if data.fields["type"] != Str("personal_chat") { return Failure(NotImplementedError); }
    if "messages" !in data.fields { return Failure(KeyError(Str("messages"))); }
    var records :- Iterate(data.fields["messages"]);
    var index :- BuildIndex(records, fromIso);
    var messages :- LinkReplies(index);
    r := Success(Chat(chatWith, messages));
    LoadedChat(data, fromIso);
  }

  // ------------------------------------------------------------------
  // Grouping by day, week or month, and the message-count series
  // ------------------------------------------------------------------

  datatype GroupKey = Day | Week | Month

  /** The bucket key of a message: its date, the Monday of its week, or the first of its month. */
  function KeyOf(m: Message, g: GroupKey): (k: CivilDate)
    ensures g == Day ==> k == m.dt.date
    ensures g == Week ==> Weekday(k) == 0 && Ordinal(k) <= Ordinal(m.dt.date) <= Ordinal(k) + 6
    ensures g == Month ==> k.year == m.dt.date.year && k.month == m.dt.date.month && k.day == 1
  {
    match g
    case Day => DayKey(m.dt)
    case Week => WeekKey(m.dt)
    case Month => MonthKey(m.dt)
  }

  /** The key of every message, in message order. */
  function KeysOf(ms: seq<Message>, g: GroupKey): (keys: seq<CivilDate>)
    ensures |keys| == |ms|
    ensures forall i :: 0 <= i < |ms| ==> keys[i] == KeyOf(ms[i], g)
    decreases |ms|
  {
    if ms == [] then [] else KeysOf(ms[..|ms| - 1], g) + [KeyOf(ms[|ms| - 1], g)]
  }

  /** `Chat.groupby`: append each message to the list of its key, keys in first-occurrence order. */
  method GroupBy(chat: Chat, g: GroupKey) returns (grouped: Dict<CivilDate, seq<Message>>)
    ensures grouped.Valid()
    ensures grouped.keys == Distinct(KeysOf(chat.messages, g))
    ensures forall k :: k in grouped.entries ==> grouped.entries[k] == Bucket(chat.messages, KeysOf(chat.messages, g), k)
    ensures forall j :: 0 <= j < |chat.messages| ==>
      KeyOf(chat.messages[j], g) in grouped.entries && chat.messages[j] in grouped.entries[KeyOf(chat.messages[j], g)]
    ensures forall k :: k in grouped.entries ==> forall x :: x in grouped.entries[k] ==> KeyOf(x, g) == k
    ensures Sum(Sizes(grouped)) == |chat.messages|
  {
    var ms := chat.messages;
    ghost var keys := KeysOf(ms, g);
    grouped := Empty();
    for i := 0 to |ms|
      invariant GroupedUpTo(grouped, ms, keys, i)
    {
      var k := KeyOf(ms[i], g);
      assert k == keys[i];
      AppendStep(grouped, ms, keys, i);
      grouped := grouped.Set(k, (if k in grouped.entries then grouped.entries[k] else []) + [ms[i]]);
    }
    GroupedIsPartition(ms, g, grouped);
  }

  /** The finished grouping puts every message in the bucket of its own key and nowhere else. */
  lemma GroupedIsPartition(ms: seq<Message>, g: GroupKey, grouped: Dict<CivilDate, seq<Message>>)
    requires GroupedUpTo(grouped, ms, KeysOf(ms, g), |ms|)
    ensures grouped.keys == Distinct(KeysOf(ms, g))
    ensures forall k :: k in grouped.entries ==> grouped.entries[k] == Bucket(ms, KeysOf(ms, g), k)
    ensures forall j :: 0 <= j < |ms| ==> KeyOf(ms[j], g) in grouped.entries && ms[j] in grouped.entries[KeyOf(ms[j], g)]
    ensures forall k :: k in grouped.entries ==> forall x :: x in grouped.entries[k] ==> KeyOf(x, g) == k
  {
    var keys := KeysOf(ms, g);
    assert ms[..|ms|] == ms && keys[..|ms|] == keys;
    forall k, x | k in grouped.entries && x in grouped.entries[k] ensures KeyOf(x, g) == k {
      BucketMembers(ms, keys, k);
      var j :| 0 <= j < |ms| && ms[j] == x && keys[j] == k;
    }
    forall j | 0 <= j < |ms|
      ensures KeyOf(ms[j], g) in grouped.entries && ms[j] in grouped.entries[KeyOf(ms[j], g)]
    {
      BucketComplete(ms, keys, keys[j]);
    }
  }

  /** The x and y lists of `get_trace_messages_by`: bucket keys and bucket sizes. */
  method TraceMessagesBy(chat: Chat, g: GroupKey) returns (x: seq<CivilDate>, y: seq<nat>)
    ensures |x| == |y|
    ensures x == Distinct(KeysOf(chat.messages, g))
    ensures forall i :: 0 <= i < |x| ==> y[i] == multiset(KeysOf(chat.messages, g))[x[i]]
    ensures Sum(y) == |chat.messages|
  {
    var grouped := GroupBy(chat, g);
    x := grouped.keys;
    y := Sizes(grouped);
    forall i | 0 <= i < |x| ensures y[i] == multiset(KeysOf(chat.messages, g))[x[i]] {
      BucketSize(chat.messages, KeysOf(chat.messages, g), x[i]);
    }
  }

  // ------------------------------------------------------------------
  // Per-chat message counts of the collection
  // ------------------------------------------------------------------

  /** Python's `sub in text` on strings: `sub` occurs in `text` at some position. */
  predicate Contains(text: string, sub: string) {
    exists i :: 0 <= i <= |text| && sub <= text[i..]
  }

  /** `sub` occurs in `text` starting at position `i`. */
  predicate OccursAt(text: string, sub: string, i: int) {
    0 <= i && i + |sub| <= |text| && text[i..i + |sub|] == sub
  }

  /** `sub in text` holds exactly when some slice of `text` of the length of `sub` equals `sub`. */
  lemma ContainsSlice(text: string, sub: string)
    ensures Contains(text, sub) <==> exists i :: OccursAt(text, sub, i)
  {
    if Contains(text, sub) {
      var i :| 0 <= i <= |text| && sub <= text[i..];
      assert text[i..i + |sub|] == text[i..][..|sub|];
      assert OccursAt(text, sub, i);
    }
    if exists i :: OccursAt(text, sub, i) {
      var i :| OccursAt(text, sub, i);
      assert sub <= text[i..];
    }
  }

  /** `messages_include is None or messages_include in msg.text` */
  predicate Included(m: Message, messagesInclude: Option<string>) {
    messagesInclude.None? || Contains(m.text, messagesInclude.value)
  }

  /** `sum(1 for msg in messages if ...)`: the number of messages the filter lets through. */
  function MatchCount(ms: seq<Message>, messagesInclude: Option<string>): (n: nat)
    ensures n <= |ms|
    ensures messagesInclude.None? ==> n == |ms|
    decreases |ms|
  {
    if ms == [] then 0
    else MatchCount(ms[..|ms| - 1], messagesInclude) + if Included(ms[|ms| - 1], messagesInclude) then 1 else 0
  }

  /** The count is the number of positions whose message passes the filter. */
  lemma {:induction false} MatchCountCountsMatches(ms: seq<Message>, messagesInclude: Option<string>)
    ensures MatchCount(ms, messagesInclude) == |set j | 0 <= j < |ms| && Included(ms[j], messagesInclude)|
    decreases |ms|
  {
    if ms != [] {
      var n := |ms| - 1;
      var init := ms[..n];
      MatchCountCountsMatches(init, messagesInclude);
      var before := set j | 0 <= j < n && Included(init[j], messagesInclude);
      var after := set j | 0 <= j < |ms| && Included(ms[j], messagesInclude);
      if Included(ms[n], messagesInclude) {
        assert after == before + {n};
      } else {
        assert after == before;
      }
    }
  }

  /** The counting loop of `Chats.fig_bar`: one name and one count per chat, in order. */
  method FigBar(chats: Chats, messagesInclude: Option<string>) returns (names: seq<Value>, counts: seq<nat>)
    ensures |names| == |chats.chats| && |counts| == |chats.chats|
    ensures forall i :: 0 <= i < |chats.chats| ==>
      && names[i] == chats.chats[i].chatWith
      && counts[i] == MatchCount(chats.chats[i].messages, messagesInclude)
      && counts[i] <= |chats.chats[i].messages|
      && (messagesInclude.None? ==> counts[i] == |chats.chats[i].messages|)
  {
    names, counts := [], [];
    for i := 0 to |chats.chats|
      invariant |names| == i && |counts| == i
      invariant forall j :: 0 <= j < i ==>
        names[j] == chats.chats[j].chatWith && counts[j] == MatchCount(chats.chats[j].messages, messagesInclude)
    {
      var chat := chats.chats[i];
      var n := MatchCount(chat.messages, messagesInclude);
      names := names + [chat.chatWith];
      counts := counts + [n];
    }
  }
}
