/** The records the service exchanges: the create/update request, the response
    that is also the cached form of a user, and the event message. Their text
    form is the field codec of module Codec, standing in for JSON. */
module Dto {
  import opened Wrappers
  import opened Codec

  /** LocalDateTime, as milliseconds on the logical clock. */
  type Timestamp = Long

  datatype UserCreateRequest = UserCreateRequest(email: string, name: string, age: Int32)

  datatype UserResponse = UserResponse(
    id: Long,
    email: string,
    name: string,
    age: Int32,
    createdAt: Timestamp,
    updatedAt: Option<Timestamp>)

  datatype KafkaMessage = KafkaMessage(id: string, message: string, timestamp: Timestamp)

  /** A nullable timestamp is written as "null" or as its decimal value. */
  function TimestampText(t: Option<Timestamp>): string
  {
    match t
    case None => "null"
    case Some(v) => LongToString(v)
  }

  function ParseTimestamp(s: string): Option<Option<Timestamp>>
  {
    if s == "null" then Some(None)
    else
      match ParseLong(s)
      case None => None
      case Some(v) => Some(Some(v))
  }

  /** The six fields a cached user is written as: id, email, name, age, createdAt, updatedAt. */
  function UserFields(u: UserResponse): seq<string>
  {
    [LongToString(u.id), u.email, u.name, LongToString(u.age),
     LongToString(u.createdAt), TimestampText(u.updatedAt)]
  }

  /** objectMapper.writeValueAsString of a user; UserRoundTrip states that it reads back. */
  function EncodeUser(u: UserResponse): string
  {
    EncodeFields(UserFields(u))
  }

  /** The objectMapper.readValue of a cached user: None where that would throw.
      A decoded user's components are the six fields of the text, in order. */
  function DecodeUser(s: string): (r: Option<UserResponse>)
    ensures ReadFields(s, 6).None? ==> r.None?
    ensures r.Some? ==>
      var f := ReadFields(s, 6).value;
      && ReadFields(s, 6).Some?
      && ParseLong(f[0]) == Some(r.value.id) && f[1] == r.value.email && f[2] == r.value.name
      && ParseInt(f[3]) == Some(r.value.age) && ParseLong(f[4]) == Some(r.value.createdAt)
      && ParseTimestamp(f[5]) == Some(r.value.updatedAt)
  {
    match ReadFields(s, 6)
    case None => None
    case Some(f) =>
      match (ParseLong(f[0]), ParseInt(f[3]), ParseLong(f[4]), ParseTimestamp(f[5]))
      case (Some(id), Some(age), Some(createdAt), Some(updatedAt)) =>
        Some(UserResponse(id, f[1], f[2], age, createdAt, updatedAt))
      case _ => None
  }

  /** The three fields an event is written as: id, message, timestamp. */
  function MessageFields(m: KafkaMessage): seq<string>
  {
    [m.id, m.message, LongToString(m.timestamp)]
  }

  /** The producer's writeValueAsString of an event: the text holds exactly its three fields. */
  function EncodeMessage(m: KafkaMessage): (r: string)
    ensures ReadFields(r, 3) == Some(MessageFields(m))
  {
    FieldsRoundTrip(MessageFields(m));
    EncodeFields(MessageFields(m))
  }

  /** The objectMapper.readValue of an event payload: None where that would throw.
      A decoded message's components are the three fields of the text, in order. */
  function DecodeMessage(s: string): (r: Option<KafkaMessage>)
    ensures ReadFields(s, 3).None? ==> r.None?
    ensures r.Some? ==>
      var f := ReadFields(s, 3).value;
      ReadFields(s, 3).Some? && f[0] == r.value.id && f[1] == r.value.message
      && ParseLong(f[2]) == Some(r.value.timestamp)
  {
    match ReadFields(s, 3)
    case None => None
    case Some(f) =>
      match ParseLong(f[2])
      case None => None
      case Some(t) => Some(KafkaMessage(f[0], f[1], t))
  }

  lemma TimestampRoundTrip(t: Option<Timestamp>)
    ensures ParseTimestamp(TimestampText(t)) == Some(t)
  {
    if t.Some? {
      var s := LongToString(t.value);
      assert s[0] != "null"[0];
      LongRoundTrip(t.value);
    }
  }

  /** What the cache stores for a user reads back as that same user. */
  lemma UserRoundTrip(u: UserResponse)
    ensures DecodeUser(EncodeUser(u)) == Some(u)
  {
    FieldsRoundTrip(UserFields(u));
    LongRoundTrip(u.id);
    IntRoundTrip(u.age);
    LongRoundTrip(u.createdAt);
    TimestampRoundTrip(u.updatedAt);
  }

  /** What the producer sends is what the consumer reads. */
  lemma MessageRoundTrip(m: KafkaMessage)
    ensures DecodeMessage(EncodeMessage(m)) == Some(m)
  {
    LongRoundTrip(m.timestamp);
  }
}
