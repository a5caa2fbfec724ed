# kafka-study user service, modelled in Dafny

kafka-study is a Spring Boot service that keeps user records in a SQL table
through MyBatis. It caches them in Redis and announces every change on a
Kafka topic. This project models its core: the sequential behaviour of those
parts. Each collaborator becomes plain Dafny state.

- **Codec** (`codec.dfy`): Kotlin `Long`/`Int` as bounded subset types, plus
  `Long.toString` and `String.toLong`/`toInt` with the sign, digit and range
  rules of `java.lang.Long.parseLong`. It also holds a length-prefixed field
  codec that stands in for the Jackson JSON text. The round trips of both are
  proved, not assumed.
- **Dto** (`dto.dfy`): the records `UserCreateRequest`, `UserResponse` and
  `KafkaMessage`. `UserResponse` and `KafkaMessage` also have text forms,
  with round-trip lemmas for them. `LocalDateTime` is a millisecond count on
  a logical clock.
- **Mapper** (`user_mapper.dfy`): the `users` table as a class. Its rows are a
  sequence in insertion order, and an identity counter generates ids. Each
  MyBatis statement is a method. `Valid()` keeps ids and emails unique and
  keeps every id below the counter.
- **Redis** (`redis_service.dfy`): `RedisService` as a class over a
  `map<string, Entry>` key space. An entry is live while `now < expiresAt`.
  The primary key `user:<id>` holds the serialised user, and the index
  `user:email:<email>` holds the id in decimal. Each Redis round trip takes a
  `fails` flag. When the flag is set, the method swallows the failure, just as
  every `catch` block in the service does.
- **Kafka** (`kafka_consumer.dfy`): `KafkaConsumer` as a class with its
  `processedMessages` log. Each listener returns whether it acknowledged the
  record. A processing failure is an input flag.
- **Service** (`user_service.dfy`): `UserService` as a class that holds the
  mapper and the Redis service. Events handed to `KafkaProducer.sendUserEvent`
  are appended to `published`. A ghost `trace` records the order of the calls
  into the store, the cache and the producer. The clock reading and the UUID
  of each event are parameters. A `CacheFaults` value says which Redis calls
  of an operation fail.

The service methods pin down the whole new state: the rows, the key space as
`AfterCacheUser` / `AfterEvictions` of the old one, the published events and
the call order. What a later cache read then answers is proved once, about
those functions: `Redis.CachedUserIsFound`, `Redis.EvictionsHideUser` and the
other lemmas beside them.

## Model

| member | source | states |
|---|---|---|
| Codec.ValueOfDigits | src/main/kotlin/com/example/kafkastudy/service/RedisService.kt:31 | the decimal digits of a natural number read back as that number |
| Codec.ParseInRange | src/main/kotlin/com/example/kafkastudy/service/RedisService.kt:64 | parsing accepts only values inside the target type's range |
| Codec.ParseLongToString | src/main/kotlin/com/example/kafkastudy/service/RedisService.kt:31 | toString followed by parsing gives back every value of the range, negative ones included |
| Codec.LongRoundTrip | src/main/kotlin/com/example/kafkastudy/service/RedisService.kt:64 | the id the index stores (`user.id.toString()`) parses back with `toLong()` to the same Long |
| Codec.IntRoundTrip | src/main/kotlin/com/example/kafkastudy/dto/UserDto.kt:15 | an Int age survives rendering and parsing |
| Codec.LongToString | src/main/kotlin/com/example/kafkastudy/service/RedisService.kt:27-31 | Long.toString: at least one character, the first a digit or a minus sign |
| Codec.ParseLong | src/main/kotlin/com/example/kafkastudy/service/RedisService.kt:64 | String.toLong: a plain decimal within the Long range parses to its value; empty text, and text that starts with anything but a sign or a digit, is refused |
| Codec.LongToStringInjective | src/main/kotlin/com/example/kafkastudy/service/RedisService.kt:27 | two ids render to the same text only when they are equal |
| Codec.ReadFields | src/main/kotlin/com/example/kafkastudy/service/RedisService.kt:45 | a successful read yields exactly the requested number of fields |
| Codec.ReadFieldOfField | src/main/kotlin/com/example/kafkastudy/service/RedisService.kt:26 | one encoded field reads back as its text, and the rest of the input is left as it was |
| Codec.FieldsRoundTrip | src/main/kotlin/com/example/kafkastudy/service/RedisService.kt:26 | every list of fields reads back from its encoding |
| Dto.TimestampRoundTrip | src/main/kotlin/com/example/kafkastudy/dto/UserDto.kt:16-17 | a nullable timestamp reads back from its text, null as null |
| Dto.UserRoundTrip | src/main/kotlin/com/example/kafkastudy/service/RedisService.kt:26-45 | what cacheUser writes for a user (`EncodeUser`, writeValueAsString) deserialises (`DecodeUser`, readValue) as that same user |
| Dto.DecodeUser | src/main/kotlin/com/example/kafkastudy/service/RedisService.kt:45 | text that does not hold six fields gives null; a decoded user's id, email, name, age, createdAt and updatedAt are those six fields, in order |
| Dto.EncodeMessage | src/main/kotlin/com/example/kafkastudy/kafka/KafkaProducer.kt:25 | the payload holds exactly the event's id, message and timestamp fields |
| Dto.DecodeMessage | src/main/kotlin/com/example/kafkastudy/kafka/KafkaConsumer.kt:33 | a payload that does not hold three fields gives null; a decoded message's id, message and timestamp are those three fields, in order |
| Dto.MessageRoundTrip | src/main/kotlin/com/example/kafkastudy/kafka/KafkaConsumer.kt:33 | an event the producer serialises is read back by the consumer as the same message |
| Mapper.IndexWhere | src/main/kotlin/com/example/kafkastudy/mapper/UserMapper.kt:9-13 | the result is the first row matching the WHERE clause, or -1 when no row matches |
| Mapper.Select | src/main/kotlin/com/example/kafkastudy/mapper/UserMapper.kt:9-13 | a selected row is in the table and matches; null exactly when no row matches |
| Mapper.Without | src/main/kotlin/com/example/kafkastudy/mapper/UserMapper.kt:32-33 | exactly the rows with another id remain, and the table shrinks by the number of rows with that id |
| Mapper.Updated | src/main/kotlin/com/example/kafkastudy/mapper/UserMapper.kt:25-30 | only name, age and updated_at of the rows with that id change; id, email, created_at and every other row stay |
| Mapper.SelectOwnId | src/main/kotlin/com/example/kafkastudy/mapper/UserMapper.kt:9-10 | with unique ids, each row is the one selected by its own id |
| Mapper.SelectOwnEmail | src/main/kotlin/com/example/kafkastudy/mapper/UserMapper.kt:12-13 | with unique emails, each row is the one selected by its own email |
| Mapper.CountUnique | src/main/kotlin/com/example/kafkastudy/mapper/UserMapper.kt:30-33 | with unique ids, a statement keyed by id affects one row when the id exists and none otherwise |
| Mapper.WithoutKeepsUnique | src/main/kotlin/com/example/kafkastudy/mapper/UserMapper.kt:32-33 | deleting rows keeps ids and emails unique |
| Mapper.UpdatedSelect | src/main/kotlin/com/example/kafkastudy/mapper/UserMapper.kt:25-30 | after the UPDATE, the row selected by id is the old row with the new name, age and updated_at |
| Mapper.UserMapper.constructor | src/main/kotlin/com/example/kafkastudy/mapper/UserMapper.kt:7 | an empty table whose first generated id is 1 |
| Mapper.UserMapper.FindById | src/main/kotlin/com/example/kafkastudy/mapper/UserMapper.kt:9-10 | the row with that id, or null exactly when no row has it |
| Mapper.UserMapper.FindByEmail | src/main/kotlin/com/example/kafkastudy/mapper/UserMapper.kt:12-13 | the row with that email, or null exactly when no row has it |
| Mapper.UserMapper.FindAll | src/main/kotlin/com/example/kafkastudy/mapper/UserMapper.kt:15-16 | every row, in table order |
| Mapper.UserMapper.Insert | src/main/kotlin/com/example/kafkastudy/mapper/UserMapper.kt:18-23 | refused exactly when the email is taken or the identity is exhausted, with nothing changed; otherwise exactly one row is appended, carrying the generated id, the given email, name, age and created_at, and a null updated_at |
| Mapper.UserMapper.Update | src/main/kotlin/com/example/kafkastudy/mapper/UserMapper.kt:25-30 | the table becomes `Updated` of the old one; the count is 1 when the id exists and 0 otherwise |
| Mapper.UserMapper.DeleteById | src/main/kotlin/com/example/kafkastudy/mapper/UserMapper.kt:32-33 | only the row with that id is removed; the count is 1 or 0; afterwards findById finds nothing |
| Redis.UserKey | src/main/kotlin/com/example/kafkastudy/service/RedisService.kt:27 | `user:` and then the id; the character after the prefix is a digit or a minus sign, never the `e` of `email:` |
| Redis.EmailKey | src/main/kotlin/com/example/kafkastudy/service/RedisService.kt:28 | `user:email:` and then exactly the email, which the key therefore determines |
| Redis.Lookup | src/main/kotlin/com/example/kafkastudy/service/RedisService.kt:42 | GET: a value exactly when the key is present and not yet expired, and then the stored value |
| Redis.Put | src/main/kotlin/com/example/kafkastudy/service/RedisService.kt:30-31 | SET with expiry: the key reads as the value until the expiry and as null from then on, and every other key reads as before |
| Redis.CachedById | src/main/kotlin/com/example/kafkastudy/service/RedisService.kt:39-56 | null without a live primary entry; a live entry holding a serialised user answers that user |
| Redis.CachedByEmail | src/main/kotlin/com/example/kafkastudy/service/RedisService.kt:58-74 | null without a live index entry; an index entry holding a rendered id answers as the by-id lookup of that id |
| Redis.AfterCacheUser | src/main/kotlin/com/example/kafkastudy/service/RedisService.kt:24-37 | a failed first write changes nothing; otherwise the primary key holds the serialised user, the index holds the id when both writes succeed and reads as before when the index write fails, and every other key is untouched |
| Redis.AfterEvictions | src/main/kotlin/com/example/kafkastudy/service/UserService.kt:158-159 | each successful eviction removes its own key; nothing is added or changed and no other key is removed |
| Redis.KeysNeverCollide | src/main/kotlin/com/example/kafkastudy/service/RedisService.kt:19-20 | a primary key `user:<id>` never equals an index key `user:email:<email>` |
| Redis.UserKeyInjective | src/main/kotlin/com/example/kafkastudy/service/RedisService.kt:27 | distinct ids get distinct primary keys |
| Redis.EmailKeyInjective | src/main/kotlin/com/example/kafkastudy/service/RedisService.kt:28 | distinct emails get distinct index keys |
| Redis.CachedUserIsFound | src/main/kotlin/com/example/kafkastudy/service/RedisService.kt:24-74 | after a successful cacheUser(u), getUserById(u.id) and getUserByEmail(u.email) both return u until the 30-minute expiry |
| Redis.CachedUserExpires | src/main/kotlin/com/example/kafkastudy/service/RedisService.kt:21 | once the default expiry has passed, neither lookup finds the cached user |
| Redis.IndexWriteFailure | src/main/kotlin/com/example/kafkastudy/service/RedisService.kt:30-36 | when the index write fails, the primary entry is written and found, and every index entry is as before |
| Redis.SecondUserKeepsFirst | src/main/kotlin/com/example/kafkastudy/service/RedisService.kt:24-74 | caching a second user with another id and email leaves both users retrievable by id and by email |
| Redis.OtherUserUntouched | src/main/kotlin/com/example/kafkastudy/service/RedisService.kt:27-31 | cacheUser for another user leaves this user's two keys as they were |
| Redis.IndexNamesCachedId | src/main/kotlin/com/example/kafkastudy/service/RedisService.kt:31 | the index entry cacheUser writes holds the user's id in decimal |
| Redis.FollowIndex | src/main/kotlin/com/example/kafkastudy/service/RedisService.kt:61-65 | an index entry naming an id answers as getUserById of that id |
| Redis.SameEntrySameUser | src/main/kotlin/com/example/kafkastudy/service/RedisService.kt:41-51 | the by-id answer depends on the primary entry alone |
| Redis.EvictPrimaryOnly | src/main/kotlin/com/example/kafkastudy/service/RedisService.kt:76-84 | evicting by id hides the user by id, keeps every index entry, and a dangling index entry then yields null |
| Redis.EvictIndexOnly | src/main/kotlin/com/example/kafkastudy/service/RedisService.kt:86-94 | evicting by email hides the user by that email and leaves every by-id answer unchanged |
| Redis.EvictionsHideUser | src/main/kotlin/com/example/kafkastudy/service/RedisService.kt:76-94 | after both evictions succeed, neither lookup finds the user at any time |
| Redis.RedisService.constructor | src/main/kotlin/com/example/kafkastudy/service/RedisService.kt:11-14 | an empty key space |
| Redis.RedisService.Set | src/main/kotlin/com/example/kafkastudy/service/RedisService.kt:30 | a SET with a positive expiry that does not fail stores the value; otherwise nothing changes |
| Redis.RedisService.CacheUser | src/main/kotlin/com/example/kafkastudy/service/RedisService.kt:24-37 | the key space becomes `AfterCacheUser`: the primary write, then the index write, and a failure stops the sequence and is swallowed |
| Redis.RedisService.GetUserById | src/main/kotlin/com/example/kafkastudy/service/RedisService.kt:39-56 | null on a failed read; otherwise the decoded live primary entry, or null |
| Redis.RedisService.GetUserByEmail | src/main/kotlin/com/example/kafkastudy/service/RedisService.kt:58-74 | null exactly when a read fails, the index key is absent, its value is not a decimal Long, or the id it names has no decodable primary entry |
| Redis.RedisService.EvictUser | src/main/kotlin/com/example/kafkastudy/service/RedisService.kt:76-84 | removes `user:<id>` and nothing else, or nothing on failure |
| Redis.RedisService.EvictUserByEmail | src/main/kotlin/com/example/kafkastudy/service/RedisService.kt:86-94 | removes `user:email:<email>` and nothing else, or nothing on failure |
| Redis.RedisService.SetValue | src/main/kotlin/com/example/kafkastudy/service/RedisService.kt:96-103 | the value reads back until its expiry (30 minutes unless given) and reads as null afterwards; a failure changes nothing |
| Redis.RedisService.GetValue | src/main/kotlin/com/example/kafkastudy/service/RedisService.kt:105-114 | a value exactly when the read succeeds and the key is live |
| Redis.RedisService.DeleteKey | src/main/kotlin/com/example/kafkastudy/service/RedisService.kt:116-125 | true exactly when the call succeeds on a live key; afterwards the key reads as null at every time; false and no change on failure |
| Redis.RedisService.HasKey | src/main/kotlin/com/example/kafkastudy/service/RedisService.kt:127-136 | true exactly when the call succeeds and the key is live |
| Kafka.LogAfter | src/main/kotlin/com/example/kafkastudy/kafka/KafkaConsumer.kt:33-34 | the log grows by one entry exactly when the payload parses, keeps its earlier entries, and the new last entry is the parsed message |
| Kafka.LogAfterAppends | src/main/kotlin/com/example/kafkastudy/kafka/KafkaConsumer.kt:34 | a delivery appends to any log what it would append to an empty one |
| Kafka.ReplayAppendsParsed | src/main/kotlin/com/example/kafkastudy/kafka/KafkaConsumer.kt:19-47 | a run of deliveries appends exactly the messages that parse, in arrival order, duplicates included |
| Kafka.ReplayLength | src/main/kotlin/com/example/kafkastudy/kafka/KafkaConsumer.kt:19-47 | after a clear, the log's length equals the number of delivered user events that parsed |
| Kafka.ParsedLength | src/main/kotlin/com/example/kafkastudy/kafka/KafkaConsumer.kt:33-34 | the parsed messages are as many as the payloads that parse |
| Kafka.SentMessageIsLogged | src/main/kotlin/com/example/kafkastudy/kafka/KafkaConsumer.kt:33-34 | a produced message is logged as itself, and a redelivery logs it a second time |
| Kafka.KafkaConsumer.constructor | src/main/kotlin/com/example/kafkastudy/kafka/KafkaConsumer.kt:19 | the log starts empty |
| Kafka.KafkaConsumer.ConsumeUserEvent | src/main/kotlin/com/example/kafkastudy/kafka/KafkaConsumer.kt:21-47 | a parsed payload is appended before processing; an unparsable one leaves the log alone; acknowledged exactly when parsing and processing both succeed |
| Kafka.KafkaConsumer.ConsumeNotification | src/main/kotlin/com/example/kafkastudy/kafka/KafkaConsumer.kt:49-71 | acknowledged exactly when processing succeeds; it modifies nothing, so the log is untouched |
| Kafka.KafkaConsumer.GetProcessedMessages | src/main/kotlin/com/example/kafkastudy/kafka/KafkaConsumer.kt:86 | a value copy of the log |
| Kafka.KafkaConsumer.ClearProcessedMessages | src/main/kotlin/com/example/kafkastudy/kafka/KafkaConsumer.kt:88-90 | the log is empty afterwards |
| Service.ToUserResponse | src/main/kotlin/com/example/kafkastudy/service/UserService.kt:175-184 | the response carries every column of the row: converting it back gives the row |
| Service.Responses | src/main/kotlin/com/example/kafkastudy/service/UserService.kt:115 | one response per row, in row order, each describing its row |
| Service.UserService.constructor | src/main/kotlin/com/example/kafkastudy/service/UserService.kt:17-21 | wires the given mapper and cache, with no events published yet |
| Service.UserService.SendUserEvent | src/main/kotlin/com/example/kafkastudy/service/UserService.kt:54 | one event on the user-events topic, keyed by the message id |
| Service.UserService.CreateUser | src/main/kotlin/com/example/kafkastudy/service/UserService.kt:25-58 | fails with EmailTaken after only a store read when the email is taken, and then the store, cache and events are unchanged; otherwise exactly one row is added and the id counter advances by one, the user is cached under both keys, and one "User created: <email>" event follows, in the order read, insert, cache, publish |
| Service.UserService.GetUserById | src/main/kotlin/com/example/kafkastudy/service/UserService.kt:60-84 | a cache hit is returned without reading the store; on a miss the store row is returned and cached, and when there is no row the result is null and the cache is unchanged |
| Service.UserService.GetUserByEmail | src/main/kotlin/com/example/kafkastudy/service/UserService.kt:86-110 | the same as GetUserById, through the email index and the store's lookup by email |
| Service.UserService.GetAllUsers | src/main/kotlin/com/example/kafkastudy/service/UserService.kt:112-116 | one response per row in table order, after a single store read; the cache and the events are untouched |
| Service.UserService.UpdateUser | src/main/kotlin/com/example/kafkastudy/service/UserService.kt:118-146 | an unknown id fails before any write; otherwise id, email and createdAt are kept, name and age come from the request, updatedAt is now, and the row is written, re-cached and announced once as "User updated: <email>" |
| Service.CreateDeleteRowThenGet | src/test/kotlin/com/example/kafkastudy/service/UserServiceIntegrationTest.kt:80-92 | with a healthy cache, a created user whose row is then deleted directly in the store is still returned by getUserById, from the cache, with no store read after the create |
| Service.UserService.DeleteUser | src/main/kotlin/com/example/kafkastudy/service/UserService.kt:148-172 | an unknown id fails with nothing changed; otherwise the row is removed, both cache keys are evicted (by the email read before the delete), one "User deleted: <email>" event is published, and the result is true |

## Left out

- Jackson JSON is not modelled. The cache value and the event payload use a
  length-prefixed field codec whose round trips are proved. Jackson's own
  text format, and inputs it would accept but this codec rejects, are not
  captured.
- `String.toLong` in the model accepts only ASCII digits. Java's
  `Character.digit` also accepts other Unicode decimal digits.
- The Kotlin source of the `User` entity is not shown. `Mapper.User` takes
  its columns from the INSERT and UPDATE statements (UserMapper.kt:18-30)
  and from the test fixture (TestDataFactory.kt:52-59). The id the entity
  carries before the insert writes one back is a placeholder 0.
- Mapper.UserMapper.Insert: writing the generated id back into the argument
  is modelled as returning the stored row. The table refuses a duplicate
  email because createUser refuses a taken email before inserting
  (UserService.kt:29-32); the schema that would enforce it is not shown.
  SQL errors other than a duplicate email or an
  exhausted identity are not modelled.
- Service.UserService.CreateUser: a refused insert is reported as
  StoreFailure. In the source the exception would propagate. That path is
  reachable only when the identity is exhausted, because the email was
  checked just before.
- Service.UserService.DeleteUser: the branch where `deleteById` reports 0
  rows and the service returns false is not reachable. Under sequential
  execution the row read just before is still there. Only a concurrent
  delete could reach it.
- `@Transactional`, concurrent requests and the check-then-insert race
  between two `createUser` calls are not modelled. The model is sequential.
- KafkaProducer.sendUserEvent is modelled only by its serialisation
  (`Dto.EncodeMessage`) and an append of (topic, key, message) to
  `published`. Asynchronous send results, broker
  failures and exceptions thrown by `send` itself are not modelled.
- The wall clock and UUIDs are parameters: `now` and `eventId`. One service
  call reads the clock once, where the source may read it a few
  milliseconds apart.
- Redis failures are the fault flags of `CacheFaults`. A write that Redis
  applied but whose reply was lost is not modelled. A SET with a
  non-positive expiry counts as a failed call.
- Service.UserService.CreateUser, GetUserById, GetUserByEmail, DeleteUser:
  their postconditions state the new key space as `AfterCacheUser` or
  `AfterEvictions` of the old one. What later reads then return is stated
  by `Redis.CachedUserIsFound` and `Redis.EvictionsHideUser`, not repeated
  in each method. `Service.CreateDeleteRowThenGet` composes them for the
  create-then-read scenario.
- Logging, `Thread.sleep` in the listeners, HTTP controllers, and the Kafka
  and Redis configuration are left out. None of them carries logic of its
  own.
- The Kafka record headers (topic, partition, offset) are accepted but not
  used, exactly as in the source, where they only feed the log lines.
