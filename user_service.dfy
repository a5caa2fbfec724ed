/** UserService: cache-aside reads and store-then-cache-then-publish writes
    over the users table, the Redis cache and the user-events topic. */
module Service {
  import opened Wrappers
  import opened Codec
  import opened Dto
  import opened Mapper
  import opened Redis
  import Kafka

  /** The errors the service throws as IllegalArgumentException (a taken email,
      an unknown id), and an insert the store refuses. */
  datatype ServiceError = EmailTaken | UserNotFound | StoreFailure

  /** One KafkaProducer.sendUserEvent call: topic, record key, message. */
  datatype Published = Published(topic: string, key: string, message: KafkaMessage)

  /** Which Redis calls of one service operation throw; RedisService swallows each. */
  datatype CacheFaults = CacheFaults(
    indexReadFails: bool,
    primaryReadFails: bool,
    primaryWriteFails: bool,
    indexWriteFails: bool,
    primaryEvictFails: bool,
    indexEvictFails: bool)

  const NO_FAULTS: CacheFaults := CacheFaults(false, false, false, false, false, false)

  /** A call into one of the three collaborators, kept to state the order of the calls. */
  datatype Step = StoreRead | StoreWrite | CacheRead | CacheWrite | CacheEvict | Publish

  /** toUserResponse: the response carries every column of the row. */
  function ToUserResponse(u: User): (r: UserResponse)
    ensures ToUser(r) == u
  {
    UserResponse(u.id, u.email, u.name, u.age, u.createdAt, u.updatedAt)
  }

  /** The entity a response describes. */
  function ToUser(r: UserResponse): User
  {
    User(r.id, r.email, r.name, r.age, r.createdAt, r.updatedAt)
  }

  /** getAllUsers' mapping: one response per row, in row order. */
  function Responses(rows: seq<User>): (r: seq<UserResponse>)
    ensures |r| == |rows|
    ensures forall i :: 0 <= i < |rows| ==> ToUser(r[i]) == rows[i]
  {
    if rows == [] then [] else [ToUserResponse(rows[0])] + Responses(rows[1..])
  }

  /** The response a store lookup yields, null when no row was found. */
  function ResponseOf(row: Option<User>): Option<UserResponse>
  {
    match row
    case None => None
    case Some(u) => Some(ToUserResponse(u))
  }

  class UserService {
    const userMapper: UserMapper
    const redisService: RedisService
    /** Every event handed to the producer, in order. */
    var published: seq<Published>
    ghost var trace: seq<Step>

    ghost predicate Valid()
      reads this, userMapper
    {
      userMapper.Valid()
    }

    constructor (userMapper: UserMapper, redisService: RedisService)
      requires userMapper.Valid()
      ensures Valid()
      ensures this.userMapper == userMapper && this.redisService == redisService
      ensures published == [] && trace == []
    {
      this.userMapper := userMapper;
      this.redisService := redisService;
      published := [];
      trace := [];
    }

    /** KafkaProducer.sendUserEvent: keyed by the message id, fire-and-forget. */
    method SendUserEvent(message: KafkaMessage)
      modifies this
      ensures published == old(published) + [Published(Kafka.USER_EVENTS_TOPIC, message.id, message)]
      ensures trace == old(trace) + [Publish]
    {
      published := published + [Published(Kafka.USER_EVENTS_TOPIC, message.id, message)];
      trace := trace + [Publish];
    }

    /** Refuses a taken email before any write; otherwise inserts, caches the
        new user under both keys, then publishes "User created: <email>". */
    method CreateUser(request: UserCreateRequest, now: Timestamp, eventId: string, faults: CacheFaults)
      returns (r: Result<UserResponse, ServiceError>)
      requires Valid()
      modifies this, userMapper, redisService
      ensures Valid()
      ensures r.Success? <==>
        Select(old(userMapper.rows), EmailIs(request.email)).None? && old(userMapper.nextId) <= MAX_LONG
      ensures Select(old(userMapper.rows), EmailIs(request.email)).Some? ==>
        && r == Failure(EmailTaken)
        && trace == old(trace) + [StoreRead]
      ensures r.Failure? ==>
        && userMapper.rows == old(userMapper.rows) && userMapper.nextId == old(userMapper.nextId)
        && redisService.entries == old(redisService.entries)
        && published == old(published)
      ensures r == Failure(StoreFailure) ==> trace == old(trace) + [StoreRead] + [StoreWrite]
      ensures r.Success? ==>
        && r.value == UserResponse(old(userMapper.nextId), request.email, request.name, request.age, now, None)
        && userMapper.rows == old(userMapper.rows) + [ToUser(r.value)]
        && userMapper.nextId == old(userMapper.nextId) + 1
        && redisService.entries ==
           AfterCacheUser(old(redisService.entries), r.value, now, faults.primaryWriteFails, faults.indexWriteFails)
        && published == old(published) +
           [Published(Kafka.USER_EVENTS_TOPIC, eventId, KafkaMessage(eventId, "User created: " + request.email, now))]
        && trace == old(trace) + [StoreRead] + [StoreWrite] + [CacheWrite] + [Publish]
    {
      var existingUser := userMapper.FindByEmail(request.email);
      trace := trace + [StoreRead];
      if existingUser.Some? {
        return Failure(EmailTaken);
      }
      // The entity has no id until the insert writes the generated one back.
      var user := User(0, request.email, request.name, request.age, now, None);
      var inserted := userMapper.Insert(user);
      trace := trace + [StoreWrite];
      if inserted.Failure? {
        return Failure(StoreFailure);
      }
      var userResponse := ToUserResponse(inserted.value);
      redisService.CacheUser(userResponse, now, faults.primaryWriteFails, faults.indexWriteFails);
      trace := trace + [CacheWrite];
      SendUserEvent(KafkaMessage(eventId, "User created: " + inserted.value.email, now));
      r := Success(userResponse);
    }

    /** The cache first; on a miss the store, and a row found there is cached. */
    method GetUserById(id: Long, now: Timestamp, faults: CacheFaults) returns (r: Option<UserResponse>)
      requires Valid()
      modifies this, redisService
      ensures Valid() && published == old(published)
      ensures var hit := if faults.primaryReadFails then None else CachedById(old(redisService.entries), id, now);
        && (hit.Some? ==>
              && r == hit
              && redisService.entries == old(redisService.entries)
              && trace == old(trace) + [CacheRead])
        && (hit.None? ==>
              && r == ResponseOf(Select(userMapper.rows, IdIs(id)))
              && (r.None? ==> redisService.entries == old(redisService.entries)
                              && trace == old(trace) + [CacheRead] + [StoreRead])
              && (r.Some? ==> redisService.entries == AfterCacheUser(old(redisService.entries), r.value, now,
                                                                     faults.primaryWriteFails, faults.indexWriteFails)
                              && trace == old(trace) + [CacheRead] + [StoreRead] + [CacheWrite]))
    {
      var cachedUser := redisService.GetUserById(id, now, faults.primaryReadFails);
      trace := trace + [CacheRead];
      if cachedUser.Some? {
        return cachedUser;
      }
      var user := userMapper.FindById(id);
      trace := trace + [StoreRead];
      if user.Some? {
        var userResponse := ToUserResponse(user.value);
        redisService.CacheUser(userResponse, now, faults.primaryWriteFails, faults.indexWriteFails);
        trace := trace + [CacheWrite];
        r := Some(userResponse);
      } else {
        r := None;
      }
    }

    /** Mirrors GetUserById through the email index and the store's email lookup. */
    method GetUserByEmail(email: string, now: Timestamp, faults: CacheFaults) returns (r: Option<UserResponse>)
      requires Valid()
      modifies this, redisService
      ensures Valid() && published == old(published)
      ensures var hit := if faults.indexReadFails || faults.primaryReadFails then None
                         else CachedByEmail(old(redisService.entries), email, now);
        && (hit.Some? ==>
              && r == hit
              && redisService.entries == old(redisService.entries)
              && trace == old(trace) + [CacheRead])
        && (hit.None? ==>
              && r == ResponseOf(Select(userMapper.rows, EmailIs(email)))
              && (r.None? ==> redisService.entries == old(redisService.entries)
                              && trace == old(trace) + [CacheRead] + [StoreRead])
              && (r.Some? ==> redisService.entries == AfterCacheUser(old(redisService.entries), r.value, now,
                                                                     faults.primaryWriteFails, faults.indexWriteFails)
                              && trace == old(trace) + [CacheRead] + [StoreRead] + [CacheWrite]))
    {
      var cachedUser := redisService.GetUserByEmail(email, now, faults.indexReadFails, faults.primaryReadFails);
      trace := trace + [CacheRead];
      if cachedUser.Some? {
        return cachedUser;
      }
      var user := userMapper.FindByEmail(email);
      trace := trace + [StoreRead];
      if user.Some? {
        var userResponse := ToUserResponse(user.value);
        redisService.CacheUser(userResponse, now, faults.primaryWriteFails, faults.indexWriteFails);
        trace := trace + [CacheWrite];
        r := Some(userResponse);
      } else {
        r := None;
      }
    }

    /** Reads the store only: the cache is neither read nor written. */
    method GetAllUsers() returns (r: seq<UserResponse>)
      requires Valid()
      modifies this
      ensures Valid() && published == old(published)
      ensures r == Responses(userMapper.rows)
      ensures trace == old(trace) + [StoreRead]
    {
      var users := userMapper.FindAll();
      trace := trace + [StoreRead];
      r := Responses(users);
    }

    /** Refuses an unknown id before any write; otherwise takes name and age from
        the request (its email is ignored), stamps updatedAt, writes the row,
        re-caches the user and publishes "User updated: <email>". */
    method UpdateUser(id: Long, request: UserCreateRequest, now: Timestamp, eventId: string, faults: CacheFaults)
      returns (r: Result<UserResponse, ServiceError>)
      requires Valid()
      modifies this, userMapper, redisService
      ensures Valid()
      ensures Select(old(userMapper.rows), IdIs(id)).None? ==>
        && r == Failure(UserNotFound)
        && userMapper.rows == old(userMapper.rows) && userMapper.nextId == old(userMapper.nextId)
        && redisService.entries == old(redisService.entries)
        && published == old(published)
        && trace == old(trace) + [StoreRead]
      ensures Select(old(userMapper.rows), IdIs(id)).Some? ==>
        var before := Select(old(userMapper.rows), IdIs(id)).value;
        var after := UserResponse(id, before.email, request.name, request.age, before.createdAt, Some(now));
        && r == Success(after)
        && userMapper.rows == Updated(old(userMapper.rows), ToUser(after))
        && userMapper.nextId == old(userMapper.nextId)
        && Select(userMapper.rows, IdIs(id)) == Some(ToUser(after))
        && redisService.entries ==
           AfterCacheUser(old(redisService.entries), after, now, faults.primaryWriteFails, faults.indexWriteFails)
        && published == old(published) +
           [Published(Kafka.USER_EVENTS_TOPIC, eventId, KafkaMessage(eventId, "User updated: " + before.email, now))]
        && trace == old(trace) + [StoreRead] + [StoreWrite] + [CacheWrite] + [Publish]
    {
      var existingUser := userMapper.FindById(id);
      trace := trace + [StoreRead];
      if existingUser.None? {
        return Failure(UserNotFound);
      }
      var updatedUser := existingUser.value.(name := request.name, age := request.age, updatedAt := Some(now));
      var _ := userMapper.Update(updatedUser);
      trace := trace + [StoreWrite];
      var userResponse := ToUserResponse(updatedUser);
      redisService.CacheUser(userResponse, now, faults.primaryWriteFails, faults.indexWriteFails);
      trace := trace + [CacheWrite];
      SendUserEvent(KafkaMessage(eventId, "User updated: " + updatedUser.email, now));
      r := Success(userResponse);
    }

    /** Refuses an unknown id; otherwise deletes the row and, when a row was
        removed, evicts both cache keys (the email read before the delete) and
        publishes "User deleted: <email>". */
    method DeleteUser(id: Long, now: Timestamp, eventId: string, faults: CacheFaults)
      returns (r: Result<bool, ServiceError>)
      requires Valid()
      modifies this, userMapper, redisService
      ensures Valid()
      ensures Select(old(userMapper.rows), IdIs(id)).None? ==>
        && r == Failure(UserNotFound)
        && userMapper.rows == old(userMapper.rows) && userMapper.nextId == old(userMapper.nextId)
        && redisService.entries == old(redisService.entries)
        && published == old(published)
        && trace == old(trace) + [StoreRead]
      ensures Select(old(userMapper.rows), IdIs(id)).Some? ==>
        var before := Select(old(userMapper.rows), IdIs(id)).value;
        && r == Success(true)
        && userMapper.rows == Without(old(userMapper.rows), id)
        && userMapper.nextId == old(userMapper.nextId)
        && Select(userMapper.rows, IdIs(id)).None?
        && redisService.entries ==
           AfterEvictions(old(redisService.entries), id, before.email, faults.primaryEvictFails, faults.indexEvictFails)
        && published == old(published) +
           [Published(Kafka.USER_EVENTS_TOPIC, eventId, KafkaMessage(eventId, "User deleted: " + before.email, now))]
        && trace == old(trace) + [StoreRead] + [StoreWrite] + [CacheEvict] + [CacheEvict] + [Publish]
    {
      var user := userMapper.FindById(id);
      trace := trace + [StoreRead];
      if user.None? {
        return Failure(UserNotFound);
      }
      var count := userMapper.DeleteById(id);
      trace := trace + [StoreWrite];
      var deleted := count > 0;
      if deleted {
        redisService.EvictUser(id, faults.primaryEvictFails);
        trace := trace + [CacheEvict];
        redisService.EvictUserByEmail(user.value.email, faults.indexEvictFails);
        trace := trace + [CacheEvict];
        SendUserEvent(KafkaMessage(eventId, "User deleted: " + user.value.email, now));
      }
      r := Success(deleted);
    }
  }

  /** A user created while Redis is healthy is then read by id from the cache,
      even after its row has been deleted behind the service's back: the read
      returns the created user without consulting the store. */
  method CreateDeleteRowThenGet(service: UserService, request: UserCreateRequest, now: Timestamp, eventId: string)
    returns (created: Result<UserResponse, ServiceError>, found: Option<UserResponse>)
    requires service.Valid()
    modifies service, service.userMapper, service.redisService
    ensures created.Success? ==> found == Some(created.value)
    ensures created.Success? ==> Select(service.userMapper.rows, IdIs(created.value.id)).None?
    ensures created.Success? ==>
      service.trace == old(service.trace) + [StoreRead] + [StoreWrite] + [CacheWrite] + [Publish] + [CacheRead]
  {
    created := service.CreateUser(request, now, eventId, NO_FAULTS);
    if created.Failure? {
      return created, None;
    }
    CachedUserIsFound(old(service.redisService.entries), created.value, now, now);
    var _ := service.userMapper.DeleteById(created.value.id);
    found := service.GetUserById(created.value.id, now, NO_FAULTS);
  }
}
