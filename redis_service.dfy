/** RedisService: a lookaside cache for users over Redis's string key-value
    store, with a primary key per id and a secondary key per email. Every
    key carries an expiry on a logical millisecond clock; every Redis call
    can fail, and each method swallows the failure (it fails open). */
module Redis {
  import opened Wrappers
  import opened Codec
  import opened Dto

  const USER_CACHE_PREFIX: string := "user:"
  const USER_EMAIL_PREFIX: string := "user:email:"
  /** Thirty minutes, in milliseconds. */
  const DEFAULT_EXPIRATION: int := 30 * 60 * 1000

  /** A stored string and the instant from which Redis treats it as expired. */
  datatype Entry = Entry(value: string, expiresAt: int)

  type Store = map<string, Entry>

  /** user:<id> holds the serialised user. The character after the prefix is a
      digit or a minus sign, never the 'e' of "email:". */
  function UserKey(id: int): (r: string)
    ensures |r| > |USER_CACHE_PREFIX| && r[..|USER_CACHE_PREFIX|] == USER_CACHE_PREFIX
    ensures IsDigit(r[|USER_CACHE_PREFIX|]) || r[|USER_CACHE_PREFIX|] == '-'
  {
    USER_CACHE_PREFIX + LongToString(id)
  }

  /** user:email:<email> holds the id, in decimal; the email is the rest of the key. */
  function EmailKey(email: string): (r: string)
    ensures |r| == |USER_EMAIL_PREFIX| + |email|
    ensures r[..|USER_EMAIL_PREFIX|] == USER_EMAIL_PREFIX && r[|USER_EMAIL_PREFIX|..] == email
  {
    USER_EMAIL_PREFIX + email
  }

  /** GET key at time now: a missing or expired key reads as null. */
  function Lookup(m: Store, key: string, now: int): (r: Option<string>)
    ensures r.Some? <==> key in m && now < m[key].expiresAt
    ensures r.Some? ==> r.value == m[key].value
  {
    if key in m && now < m[key].expiresAt then Some(m[key].value) else None
  }

  /** SET key value with expiry: the key reads as the value until the expiry and
      as null from then on; every other key reads as before. */
  function Put(m: Store, key: string, value: string, ttl: int, now: int): (r: Store)
    ensures forall t :: now <= t < now + ttl ==> Lookup(r, key, t) == Some(value)
    ensures forall t :: now + ttl <= t ==> Lookup(r, key, t) == None
    ensures forall k, t :: k != key ==> Lookup(r, k, t) == Lookup(m, k, t)
  {
    m[key := Entry(value, now + ttl)]
  }

  /** What getUserById returns when Redis answers: null without a live primary
      entry, and a user the entry holds in serialised form. */
  function CachedById(m: Store, id: int, now: int): (r: Option<UserResponse>)
    ensures Lookup(m, UserKey(id), now).None? ==> r.None?
    ensures forall u :: Lookup(m, UserKey(id), now) == Some(EncodeUser(u)) ==> r == Some(u)
  {
    AllUsersRoundTrip();
    match Lookup(m, UserKey(id), now)
    case None => None
    case Some(json) => DecodeUser(json)
  }

  /** What getUserByEmail returns when Redis answers: the index is followed
      to an id, and that id is looked up like getUserById. */
  function CachedByEmail(m: Store, email: string, now: int): (r: Option<UserResponse>)
    ensures Lookup(m, EmailKey(email), now).None? ==> r.None?
    ensures forall id: Long :: Lookup(m, EmailKey(email), now) == Some(LongToString(id)) ==> r == CachedById(m, id, now)
  {
    AllLongsRoundTrip();
    match Lookup(m, EmailKey(email), now)
    case None => None
    case Some(idText) =>
      match ParseLong(idText)
      case None => None
      case Some(id) => CachedById(m, id, now)
  }

  /** The store after cacheUser: the primary write, then the index write; a
      failed write ends the sequence, so the index may be left unwritten. */
  function AfterCacheUser(m: Store, u: UserResponse, now: int, primaryFails: bool, indexFails: bool): (r: Store)
    ensures primaryFails ==> r == m
    ensures !primaryFails ==> Lookup(r, UserKey(u.id), now) == Some(EncodeUser(u))
    ensures !primaryFails && !indexFails ==> Lookup(r, EmailKey(u.email), now) == Some(LongToString(u.id))
    ensures indexFails ==> Lookup(r, EmailKey(u.email), now) == Lookup(m, EmailKey(u.email), now)
    ensures forall k :: k != UserKey(u.id) && k != EmailKey(u.email) ==> (k in r <==> k in m) && (k in r ==> r[k] == m[k])
  {
    KeysNeverCollide(u.id, u.email);
    if primaryFails then m
    else
      var withPrimary := Put(m, UserKey(u.id), EncodeUser(u), DEFAULT_EXPIRATION, now);
      if indexFails then withPrimary
      else Put(withPrimary, EmailKey(u.email), LongToString(u.id), DEFAULT_EXPIRATION, now)
  }

  lemma AllUsersRoundTrip()
    ensures forall u :: DecodeUser(EncodeUser(u)) == Some(u)
  {
    forall u ensures DecodeUser(EncodeUser(u)) == Some(u) {
      UserRoundTrip(u);
    }
  }

  lemma AllLongsRoundTrip()
    ensures forall n: Long :: ParseLong(LongToString(n)) == Some(n)
  {
    forall n: Long ensures ParseLong(LongToString(n)) == Some(n) {
      LongRoundTrip(n);
    }
  }

  /** A rendered Long never begins with "email:", so the two key spaces are disjoint. */
  lemma KeysNeverCollide(id: int, email: string)
    ensures UserKey(id) != EmailKey(email)
  {
    var s := LongToString(id);
    assert UserKey(id)[5] == s[0];
    assert EmailKey(email)[5] == 'e';
  }

  lemma UserKeyInjective(a: int, b: int)
    requires UserKey(a) == UserKey(b)
    ensures a == b
  {
    assert LongToString(a) == UserKey(a)[5..];
    assert LongToString(b) == UserKey(b)[5..];
    LongToStringInjective(a, b);
  }

  lemma EmailKeyInjective(a: string, b: string)
    requires EmailKey(a) == EmailKey(b)
    ensures a == b
  {
    assert a == EmailKey(a)[11..];
    assert b == EmailKey(b)[11..];
  }

  /** Until its entries expire, a cached user is found by its id and by its email. */
  lemma CachedUserIsFound(m: Store, u: UserResponse, now: int, t: int)
    requires now <= t < now + DEFAULT_EXPIRATION
    ensures CachedById(AfterCacheUser(m, u, now, false, false), u.id, t) == Some(u)
    ensures CachedByEmail(AfterCacheUser(m, u, now, false, false), u.email, t) == Some(u)
  {
    KeysNeverCollide(u.id, u.email);
    UserRoundTrip(u);
    LongRoundTrip(u.id);
  }

  /** Once the entries have expired, neither lookup finds the user any more. */
  lemma CachedUserExpires(m: Store, u: UserResponse, now: int, t: int)
    requires now + DEFAULT_EXPIRATION <= t
    ensures CachedById(AfterCacheUser(m, u, now, false, false), u.id, t) == None
    ensures CachedByEmail(AfterCacheUser(m, u, now, false, false), u.email, t) == None
  {
    KeysNeverCollide(u.id, u.email);
  }

  /** When the index write fails, the user is still found by id, and every email
      lookup answers as before the call. */
  lemma IndexWriteFailure(m: Store, u: UserResponse, now: int, t: int, email: string)
    requires now <= t < now + DEFAULT_EXPIRATION
    ensures CachedById(AfterCacheUser(m, u, now, false, true), u.id, t) == Some(u)
    ensures Lookup(AfterCacheUser(m, u, now, false, true), EmailKey(email), t) == Lookup(m, EmailKey(email), t)
  {
    KeysNeverCollide(u.id, email);
    UserRoundTrip(u);
  }

  /** Caching a second user with another id and email leaves the first one retrievable. */
  lemma SecondUserKeepsFirst(m: Store, u: UserResponse, v: UserResponse, n1: int, n2: int, t: int)
    requires u.id != v.id && u.email != v.email
    requires n1 <= t < n1 + DEFAULT_EXPIRATION && n2 <= t < n2 + DEFAULT_EXPIRATION
    ensures CachedById(AfterCacheUser(AfterCacheUser(m, u, n1, false, false), v, n2, false, false), u.id, t) == Some(u)
    ensures CachedByEmail(AfterCacheUser(AfterCacheUser(m, u, n1, false, false), v, n2, false, false), u.email, t) == Some(u)
    ensures CachedById(AfterCacheUser(AfterCacheUser(m, u, n1, false, false), v, n2, false, false), v.id, t) == Some(v)
    ensures CachedByEmail(AfterCacheUser(AfterCacheUser(m, u, n1, false, false), v, n2, false, false), v.email, t) == Some(v)
  {
    var m1 := AfterCacheUser(m, u, n1, false, false);
    var m2 := AfterCacheUser(m1, v, n2, false, false);
    CachedUserIsFound(m, u, n1, t);
    CachedUserIsFound(m1, v, n2, t);
    IndexNamesCachedId(m, u, n1, t);
    OtherUserUntouched(m1, u, v, n2, t);
    SameEntrySameUser(m1, m2, u.id, t);
    FollowIndex(m2, u.email, u.id, t);
  }

  /** Writing some other user's two keys leaves this user's two lookups as they were. */
  lemma OtherUserUntouched(m: Store, u: UserResponse, v: UserResponse, now: int, t: int)
    requires u.id != v.id && u.email != v.email
    ensures Lookup(AfterCacheUser(m, v, now, false, false), UserKey(u.id), t) == Lookup(m, UserKey(u.id), t)
    ensures Lookup(AfterCacheUser(m, v, now, false, false), EmailKey(u.email), t) == Lookup(m, EmailKey(u.email), t)
  {
    KeysNeverCollide(u.id, v.email);
    KeysNeverCollide(v.id, u.email);
    if UserKey(u.id) == UserKey(v.id) { UserKeyInjective(u.id, v.id); }
    if EmailKey(u.email) == EmailKey(v.email) { EmailKeyInjective(u.email, v.email); }
  }

  /** The index entry cacheUser writes names the user's id. */
  lemma IndexNamesCachedId(m: Store, u: UserResponse, now: int, t: int)
    requires now <= t < now + DEFAULT_EXPIRATION
    ensures Lookup(AfterCacheUser(m, u, now, false, false), EmailKey(u.email), t) == Some(LongToString(u.id))
  {
  }

  /** An index entry naming id answers as the by-id lookup of id. */
  lemma FollowIndex(m: Store, email: string, id: Long, t: int)
    requires Lookup(m, EmailKey(email), t) == Some(LongToString(id))
    ensures CachedByEmail(m, email, t) == CachedById(m, id, t)
  {
    LongRoundTrip(id);
  }

  /** The by-id answer depends on the primary entry alone. */
  lemma SameEntrySameUser(m: Store, m': Store, id: int, t: int)
    requires Lookup(m, UserKey(id), t) == Lookup(m', UserKey(id), t)
    ensures CachedById(m, id, t) == CachedById(m', id, t)
  {
  }

  /** Evicting the primary key hides the user by id, leaves every index entry
      in place, and an index entry that names the evicted id now yields null. */
  lemma EvictPrimaryOnly(m: Store, id: int, email: string, t: int)
    ensures CachedById(m - {UserKey(id)}, id, t) == None
    ensures Lookup(m - {UserKey(id)}, EmailKey(email), t) == Lookup(m, EmailKey(email), t)
    ensures Lookup(m, EmailKey(email), t) == Some(LongToString(id)) ==> CachedByEmail(m - {UserKey(id)}, email, t) == None
  {
    KeysNeverCollide(id, email);
    if Lookup(m, EmailKey(email), t) == Some(LongToString(id)) {
      ParseLongToString(id, id, id);
      if ParseLong(LongToString(id)).Some? {
        assert ParseLong(LongToString(id)) == Some(id);
      }
    }
  }

  /** Evicting the index key hides the user by that email and leaves every primary entry in place. */
  lemma EvictIndexOnly(m: Store, email: string, id: int, t: int)
    ensures CachedByEmail(m - {EmailKey(email)}, email, t) == None
    ensures CachedById(m - {EmailKey(email)}, id, t) == CachedById(m, id, t)
  {
    KeysNeverCollide(id, email);
  }

  /** The store after evictUser(id) and then evictUserByEmail(email); a failed delete changes nothing. */
  function AfterEvictions(m: Store, id: int, email: string, primaryFails: bool, indexFails: bool): (r: Store)
    ensures !primaryFails ==> UserKey(id) !in r
    ensures !indexFails ==> EmailKey(email) !in r
    ensures forall k :: k in r ==> k in m && r[k] == m[k]
    ensures forall k :: k in m && (primaryFails || k != UserKey(id)) && (indexFails || k != EmailKey(email)) ==> k in r
  {
    var withoutPrimary := if primaryFails then m else m - {UserKey(id)};
    if indexFails then withoutPrimary else withoutPrimary - {EmailKey(email)}
  }

  /** After both evictions succeed, neither lookup finds anything, at any time. */
  lemma EvictionsHideUser(m: Store, id: int, email: string, t: int)
    ensures CachedById(AfterEvictions(m, id, email, false, false), id, t) == None
    ensures CachedByEmail(AfterEvictions(m, id, email, false, false), email, t) == None
  {
    var m' := AfterEvictions(m, id, email, false, false);
    KeysNeverCollide(id, email);
    assert UserKey(id) !in m';
    assert EmailKey(email) !in m';
  }

  class RedisService {
    /** The Redis key space this service reads and writes. */
    var entries: Store

    constructor ()
      ensures entries == map[]
    {
      entries := map[];
    }

    /** opsForValue().set(key, value, ttl): Redis refuses a non-positive expiry,
        and a failed call changes nothing. Returns whether the call succeeded. */
    method Set(key: string, value: string, ttl: int, now: int, fails: bool) returns (ok: bool)
      modifies this
      ensures ok == (!fails && ttl > 0)
      ensures entries == if ok then Put(old(entries), key, value, ttl, now) else old(entries)
    {
      ok := !fails && ttl > 0;
      if ok {
        entries := Put(entries, key, value, ttl, now);
      }
    }

    /** Writes the primary entry and then the email index, both with the
        default expiry; a failure stops the writes and is swallowed. */
    method CacheUser(user: UserResponse, now: int, primaryFails: bool, indexFails: bool)
      modifies this
      ensures entries == AfterCacheUser(old(entries), user, now, primaryFails, indexFails)
    {
      var userJson := EncodeUser(user);
      var userKey := UserKey(user.id);
      var emailKey := EmailKey(user.email);
      var ok := Set(userKey, userJson, DEFAULT_EXPIRATION, now, primaryFails);
      if ok {
        ok := Set(emailKey, LongToString(user.id), DEFAULT_EXPIRATION, now, indexFails);
      }
    }

    /** The cached user under user:<id>; null on a miss, on a value that does not
        deserialise, and on a failed read. */
    method GetUserById(id: int, now: int, fails: bool) returns (r: Option<UserResponse>)
      ensures fails ==> r == None
      ensures !fails ==> r == CachedById(entries, id, now)
    {
      if fails {
        return None;
      }
      var userJson := Lookup(entries, UserKey(id), now);
      match userJson {
        case None => r := None;
        case Some(json) =>
          r := DecodeUser(json);
      }
    }

    /** Follows user:email:<email> to an id and reads that id. The answer is null
        when the index key is absent, when its value is not a decimal Long, when
        the id it names has no primary entry, and when either read fails. */
    method GetUserByEmail(email: string, now: int, indexReadFails: bool, primaryReadFails: bool)
      returns (r: Option<UserResponse>)
      ensures indexReadFails || primaryReadFails ==> r == None
      ensures !indexReadFails && !primaryReadFails ==> r == CachedByEmail(entries, email, now)
      ensures r.None? <==>
        || indexReadFails || primaryReadFails
        || Lookup(entries, EmailKey(email), now).None?
        || ParseLong(Lookup(entries, EmailKey(email), now).value).None?
        || CachedById(entries, ParseLong(Lookup(entries, EmailKey(email), now).value).value, now).None?
    {
      if indexReadFails {
        return None;
      }
      var userIdStr := Lookup(entries, EmailKey(email), now);
      if userIdStr.None? {
        return None;
      }
      var userId := ParseLong(userIdStr.value);
      if userId.None? {
        return None;
      }
      r := GetUserById(userId.value, now, primaryReadFails);
    }

    /** Deletes user:<id> only; the email index is untouched. */
    method EvictUser(id: int, fails: bool)
      modifies this
      ensures entries == if fails then old(entries) else old(entries) - {UserKey(id)}
    {
      if !fails {
        entries := entries - {UserKey(id)};
      }
    }

    /** Deletes user:email:<email> only; the primary entry is untouched. */
    method EvictUserByEmail(email: string, fails: bool)
      modifies this
      ensures entries == if fails then old(entries) else old(entries) - {EmailKey(email)}
    {
      if !fails {
        entries := entries - {EmailKey(email)};
      }
    }

    /** A general-purpose write, with the default expiry unless one is given. */
    method SetValue(key: string, value: string, now: int, fails: bool, expiration: int := DEFAULT_EXPIRATION)
      modifies this
      ensures entries == if !fails && expiration > 0 then Put(old(entries), key, value, expiration, now) else old(entries)
      ensures !fails && expiration > 0 ==> forall t :: now <= t ==>
        Lookup(entries, key, t) == if t < now + expiration then Some(value) else None
    {
      var _ := Set(key, value, expiration, now, fails);
    }

    method GetValue(key: string, now: int, fails: bool) returns (r: Option<string>)
      ensures fails ==> r == None
      ensures !fails ==> r == Lookup(entries, key, now)
      ensures r.Some? <==> !fails && key in entries && now < entries[key].expiresAt
    {
      r := if fails then None else Lookup(entries, key, now);
    }

    /** Returns whether a live key was deleted; false when the call fails. */
    method DeleteKey(key: string, now: int, fails: bool) returns (deleted: bool)
      modifies this
      ensures deleted == (!fails && Lookup(old(entries), key, now).Some?)
      ensures entries == if fails then old(entries) else old(entries) - {key}
      ensures !fails ==> forall t :: Lookup(entries, key, t) == None
    {
      if fails {
        return false;
      }
      deleted := Lookup(entries, key, now).Some?;
      entries := entries - {key};
    }

    method HasKey(key: string, now: int, fails: bool) returns (present: bool)
      ensures present <==> !fails && key in entries && now < entries[key].expiresAt
    {
      present := !fails && Lookup(entries, key, now).Some?;
    }
  }
}
