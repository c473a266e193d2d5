/** One chat message and its construction from one decoded export record. */
module Messages {
  import opened Wrappers
  import opened Export
  import opened Dates

  /**
   * A parsed message. `replyTo` stands for the reference to the replied-to message: it is
   * the position of that message in the owning chat's message list, unset until the chat
   * resolves replies.
   */
  datatype Message = Message(
    id: int,
    from: Value,
    text: string,
    dt: Timestamp,
    editedDt: Option<Timestamp>,
    replyToId: Option<int>,
    replyTo: Option<nat>)

  /** `datetime.fromisoformat`, a library parser given to the model: None stands for its ValueError. */
  type IsoParser = string -> Option<Timestamp>

  /** `datetime.fromisoformat(v)` for the value stored under `key`. */
  function ParseTimestamp(v: Value, key: string, fromIso: IsoParser): (r: Result<Timestamp, Error>)
    ensures r.Success? <==> v.Str? && fromIso(v.s).Some?
    ensures r.Success? ==> fromIso(v.s) == Some(r.value)
    ensures !v.Str? ==> r == Failure(TypeError(key))
    ensures v.Str? && fromIso(v.s).None? ==> r == Failure(ValueError(key))
  {
    match v
    case Str(s) => (match fromIso(s) case Some(t) => Success(t) case None => Failure(ValueError(key)))
    case _ => Failure(TypeError(key))
  }

  /** The optional edit time: parsed only when the record's "edited" value is truthy. */
  function EditedTimestamp(fields: map<string, Value>, fromIso: IsoParser): (r: Result<Option<Timestamp>, Error>)
    ensures !Truthy(Get(fields, "edited")) ==> r == Success(None)
    ensures Truthy(Get(fields, "edited")) ==>
      (r.Success? <==> Get(fields, "edited").Str? && fromIso(Get(fields, "edited").s).Some?)
    ensures Truthy(Get(fields, "edited")) && r.Success? ==> r.value == fromIso(Get(fields, "edited").s)
  {
    var edited := Get(fields, "edited");
    if Truthy(edited) then
      var t :- ParseTimestamp(edited, "edited", fromIso);
      Success(Some(t))
    else
      Success(None)
  }

  /** The optional id of the replied-to message. */
  function ReplyToId(fields: map<string, Value>): (r: Result<Option<int>, Error>)
    ensures r.Success? <==> Get(fields, "reply_to_message_id").Null? || Get(fields, "reply_to_message_id").Int?
    ensures r.Success? ==> (r.value.None? <==> "reply_to_message_id" !in fields || fields["reply_to_message_id"] == Null)
    ensures r.Success? && r.value.Some? ==> fields["reply_to_message_id"] == Int(r.value.value)
  {
    match Get(fields, "reply_to_message_id")
    case Null => Success(None)
    case Int(i) => Success(Some(i))
    case _ => Failure(TypeError("reply_to_message_id"))
  }

  /** The records `FromDict` accepts. */
  predicate Parsable(fields: map<string, Value>, fromIso: IsoParser) {
    && "id" in fields && fields["id"].Int?
    && "from" in fields
    && "text" in fields && fields["text"].Str?
    && "date" in fields && fields["date"].Str? && fromIso(fields["date"].s).Some?
    && (Truthy(Get(fields, "edited")) ==> Get(fields, "edited").Str? && fromIso(Get(fields, "edited").s).Some?)
    && (Get(fields, "reply_to_message_id").Null? || Get(fields, "reply_to_message_id").Int?)
  }

  /** `Message.from_dict`: map one export record to a message, keyword arguments evaluated in order. */
  function FromDict(fields: map<string, Value>, fromIso: IsoParser): (r: Result<Message, Error>)
    ensures r.Success? <==> Parsable(fields, fromIso)
    ensures r.Failure? && r.error.KeyError? ==>
      r.error.key in {Str("id"), Str("from"), Str("text"), Str("date")} && r.error.key.s !in fields
    ensures r.Success? ==>
      && r.value.id == fields["id"].i
      && r.value.from == fields["from"]
      && r.value.text == fields["text"].s
    ensures r.Success? ==> fromIso(fields["date"].s) == Some(r.value.dt)
    ensures r.Success? ==> (r.value.editedDt.None? <==> !Truthy(Get(fields, "edited")))
    ensures r.Success? && r.value.editedDt.Some? ==> fromIso(fields["edited"].s) == r.value.editedDt
    ensures r.Success? ==> (r.value.replyToId.None? <==> Get(fields, "reply_to_message_id") == Null)
    ensures r.Success? && r.value.replyToId.Some? ==>
      Get(fields, "reply_to_message_id") == Int(r.value.replyToId.value)
    ensures r.Success? ==> r.value.replyTo.None?
  {
    if "id" !in fields then Failure(KeyError(Str("id")))
    else if !fields["id"].Int? then Failure(TypeError("id"))
    else if "from" !in fields then Failure(KeyError(Str("from")))
    else if "text" !in fields then Failure(KeyError(Str("text")))
    else if !fields["text"].Str? then Failure(TypeError("text"))
    else if "date" !in fields then Failure(KeyError(Str("date")))
    else
      var dt :- ParseTimestamp(fields["date"], "date", fromIso);
      var editedDt :- EditedTimestamp(fields, fromIso);
      var replyToId :- ReplyToId(fields);
      Success(Message(fields["id"].i, fields["from"], fields["text"].s, dt, editedDt, replyToId, None))
  }
}
