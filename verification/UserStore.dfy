/** Users cached once per lookup key, and the writes that must drop every stale copy. */
module UserStore {
  import opened Lib

  /** A user record: the fields users are looked up by, the failed-login counter, and everything else. */
  datatype User = User(id: string, username: string, email: Option<string>, failures: nat, rest: string)

  /** What `update_user` may change; the id stays. `Some(None)` clears the address. */
  datatype Patch = Patch(username: Option<string>, email: Option<Option<string>>, rest: Option<string>)

  /** A lookup, and the cache key made from it. */
  datatype Lookup = ById(id: string) | ByName(username: string) | ByEmail(email: string)

  function Apply(u: User, p: Patch): User {
    User(u.id, if p.username.Some? then p.username.value else u.username,
         if p.email.Some? then p.email.value else u.email, u.failures, if p.rest.Some? then p.rest.value else u.rest)
  }

  /** Each given field is set, and the others stay. */
  lemma ApplyMeans(u: User, p: Patch)
    ensures Apply(u, p).id == u.id && Apply(u, p).failures == u.failures
    ensures Apply(u, p).username == if p.username.Some? then p.username.value else u.username
    ensures Apply(u, p).email == if p.email.Some? then p.email.value else u.email
    ensures Apply(u, p).rest == if p.rest.Some? then p.rest.value else u.rest
    ensures IsProper(u) && p.username != Some("") && p.email != Some(Some("")) ==> IsProper(Apply(u, p))
  {
  }

  predicate Matches(u: User, k: Lookup) {
    match k
    case ById(id) => u.id == id
    case ByName(name) => u.username == name
    case ByEmail(email) => u.email == Some(email)
  }

  /** The keys `_forget_cached` drops: empty values are skipped. */
  function KeysOf(u: User): set<Lookup> {
    (if u.id != "" then {ById(u.id)} else {})
    + (if u.username != "" then {ByName(u.username)} else {})
    + (if u.email.Some? && u.email.value != "" then {ByEmail(u.email.value)} else {})
  }

  /** Ids, names and addresses are not empty. */
  predicate IsProper(u: User) {
    u.id != "" && u.username != "" && (u.email.Some? ==> u.email.value != "")
  }

  type Table = map<string, User>

  /** Records sit under their ids; no two share a username or an address (the unique indexes). */
  predicate IsTable(db: Table) {
    && (forall id | id in db :: db[id].id == id && IsProper(db[id]))
    && (forall a, b | a in db && b in db && a != b :: !Clash(db[a], db[b]))
  }

  predicate Clash(u: User, v: User) {
    u.username == v.username || (u.email.Some? && u.email == v.email)
  }

  /** What the database answers to a lookup. */
  predicate Answers(db: Table, k: Lookup, r: Option<User>) {
    if r.Some? then r.value.id in db && db[r.value.id] == r.value && Matches(r.value, k)
    else forall id | id in db :: !Matches(db[id], k)
  }

  lemma AnswerIsUnique(db: Table, k: Lookup, r: Option<User>, q: Option<User>)
    requires IsTable(db) && Answers(db, k, r) && Answers(db, k, q)
    ensures r == q
  {
    assert r.Some? && q.Some? ==> r.value.id == q.value.id || !Clash(db[r.value.id], db[q.value.id]);
  }

  /** Every cached entry is what the database would return for its key. */
  predicate Coherent(db: Table, cache: map<Lookup, User>) {
    forall k | k in cache :: Answers(db, k, Some(cache[k]))
  }

  /** The cached copies of a record are all under keys of `u`. */
  predicate CachedUnder(cache: map<Lookup, User>, u: User) {
    forall k | k in cache && cache[k].id == u.id :: k in KeysOf(u)
  }

  /** A write to one record keeps the cache coherent exactly when every cached copy of it is dropped. */
  lemma WriteNeedsForgetting(db: Table, after: Table, cache: map<Lookup, User>, dropped: set<Lookup>, id: string)
    requires Coherent(db, cache) && id in db && (id in after ==> after[id] != db[id])
    requires forall other | other != id ::
      (other in db <==> other in after) && (other in db ==> db[other] == after[other])
    ensures Coherent(after, cache - dropped) <==> forall k | k in cache && cache[k].id == id :: k in dropped
  {
    forall k | k in cache && k !in dropped
      ensures Answers(after, k, Some(cache[k])) <==> cache[k].id != id
    {
      assert Answers(db, k, Some(cache[k]));
    }
    assert forall k | k in cache - dropped :: (cache - dropped)[k] == cache[k];
    if !Coherent(after, cache - dropped) {
      var k :| k in cache - dropped && !Answers(after, k, Some(cache[k]));
      assert k in cache && k !in dropped && cache[k].id == id;
    }
  }

  /** Two records clash over a name, or over an address that both have. */
  lemma ClashMeans(db: Table, u: User)
    ensures forall id | id in db :: Clash(db[id], u) <==>
      db[id].username == u.username || (db[id].email.Some? && db[id].email == u.email)
  {
  }

  lemma NewUserFits(db: Table, cache: map<Lookup, User>, u: User)
    requires IsTable(db) && Coherent(db, cache) && IsProper(u) && u.id !in db
    requires forall id | id in db :: !Clash(db[id], u)
    ensures IsTable(db[u.id := u]) && Coherent(db[u.id := u], cache)
  {
  }

  lemma ChangedUserFits(db: Table, u: User)
    requires IsTable(db) && IsProper(u) && u.id in db && forall o | o in db && o != u.id :: !Clash(db[o], u)
    ensures IsTable(db[u.id := u])
  {
  }

  class Users {
    var db: Table
    var cache: map<Lookup, User>

    constructor ()
      ensures IsTable(db) && Coherent(db, cache) && db == map[]
    {
      db, cache := map[], map[];
    }

    /** `DataService.get`: from the cache when allowed, else from the database, remembering a hit. */
    method Get(k: Lookup, uncached: bool) returns (r: Option<User>)
      requires IsTable(db) && Coherent(db, cache)
      modifies `cache
      ensures Coherent(db, cache)
      ensures Answers(db, k, r)
      ensures r.Some? ==> r.value.id in db && db[r.value.id] == r.value
      ensures r.Some? && k.ById? ==> r.value.id == k.id
      ensures r.Some? && k.ByName? ==> r.value.username == k.username
      ensures r.Some? && k.ByEmail? ==> r.value.email == Some(k.email)
      ensures r.None? && k.ById? ==> k.id !in db
      ensures r.None? && k.ByName? ==> forall id | id in db :: db[id].username != k.username
      ensures r.None? && k.ByEmail? ==> forall id | id in db :: db[id].email != Some(k.email)
    {
      if !uncached && k in cache {
        return Some(cache[k]);
      }
      if id :| id in db && Matches(db[id], k) {
        r := Some(db[id]);
        if !uncached {
          cache := cache[k := db[id]];
        }
      } else {
        r := None;
      }
    }

    /** `_forget_cached` */
    method ForgetCached(u: User)
      modifies `cache
      ensures cache == old(cache) - KeysOf(u)
      ensures forall k | k in old(cache) :: k !in cache <==>
        || (u.id != "" && k == ById(u.id)) || (u.username != "" && k == ByName(u.username))
        || (u.email.Some? && u.email.value != "" && k == ByEmail(u.email.value))
    {
      if u.id != "" {
        cache := cache - {ById(u.id)};
      }
      if u.username != "" {
        cache := cache - {ByName(u.username)};
      }
      if u.email.Some? && u.email.value != "" {
        cache := cache - {ByEmail(u.email.value)};
      }
    }

    /** `create_user`, with an id no user has; the unique indexes may refuse it. */
    method CreateUser(u: User) returns (r: Result<string>)
      requires IsTable(db) && Coherent(db, cache) && IsProper(u) && u.id !in db
      modifies this
      ensures IsTable(db) && Coherent(db, cache) && cache == old(cache)
      ensures r.Ok? <==> forall id | id in old(db) ::
        old(db)[id].username != u.username && (u.email.Some? ==> old(db)[id].email != u.email)
      ensures r.Ok? ==> r.value == u.id
      ensures db == if r.Ok? then old(db)[u.id := u] else old(db)
    {
      ClashMeans(db, u);
      hide Clash, Matches, IsProper, Coherent, IsTable;
      if id :| id in db && Clash(db[id], u) {
        return Err;
      }
      NewUserFits(db, cache, u);
      db := db[u.id := u];
      r := Ok(u.id);
    }

    /** `update_user`: each given field is set, an address may be cleared, and nothing else changes, unless another
        user has the new name or address; the keys of the record before and after the write are dropped. */
    method UpdateUser(id: string, p: Patch) returns (r: Result<bool>)
      requires IsTable(db) && Coherent(db, cache)
      requires p.username != Some("") && p.email != Some(Some(""))
      modifies this
      ensures IsTable(db) && Coherent(db, cache)
      ensures r.Err? <==> id in old(db) && exists o | o in old(db) && o != id ::
        || old(db)[o].username == (if p.username.Some? then p.username.value else old(db)[id].username)
        || (old(db)[o].email.Some?
            && old(db)[o].email == (if p.email.Some? then p.email.value else old(db)[id].email))
      ensures r.Ok? ==> r.value == (id in old(db))
      ensures r != Ok(true) ==> db == old(db)
      ensures r == Ok(true) ==>
        && id in old(db) && id in db && db == old(db)[id := db[id]]
        && var before, after := old(db)[id], db[id];
        && after.id == before.id && after.failures == before.failures
        && after.username == (if p.username.Some? then p.username.value else before.username)
        && after.email == (if p.email.Some? then p.email.value else before.email)
        && after.rest == (if p.rest.Some? then p.rest.value else before.rest)
    {
      hide Clash, Matches, IsProper, Coherent, KeysOf, Apply;
      if id !in db {
        return Ok(false);
      }
      var before := db[id];
      ApplyMeans(before, p);
      ClashMeans(db, Apply(before, p));
      if o :| o in db && o != id && Clash(db[o], Apply(before, p)) {
        return Err;
      }
      ghost var table, cached := db, cache;
      ChangedUserFits(db, Apply(before, p));
      db := db[id := Apply(before, p)];
      ForgetCached(before);
      ForgetCached(Apply(before, p));
      ForgettingSuffices(table, db, cached, KeysOf(before) + KeysOf(Apply(before, p)), id);
      assert cache == cached - (KeysOf(before) + KeysOf(Apply(before, p)));
      r := Ok(true);
    }

    /** `delete_user` */
    method DeleteUser(id: string) returns (deleted: bool)
      requires IsTable(db) && Coherent(db, cache)
      modifies this
      ensures IsTable(db) && Coherent(db, cache)
      ensures deleted == (id in old(db)) && db == old(db) - {id}
    {
      if id !in db {
        assert db - {id} == db;
        return false;
      }
      var before := db[id];
      ghost var table, cached := db, cache;
      db := db - {id};
      ForgetCached(before);
      ForgettingSuffices(table, db, cached, KeysOf(before), id);
      deleted := true;
    }

    /** `increment_failed_logins`: the caller hands over the record it read. The cache stays coherent exactly when
        every cached copy of that user is under a key of the record handed over. */
    method IncrementFailedLogins(u: User) returns (count: nat)
      requires IsTable(db) && Coherent(db, cache) && IsProper(u)
      modifies this
      ensures IsTable(db)
      ensures db == if u.id in old(db)
                    then old(db)[u.id := old(db)[u.id].(failures := old(db)[u.id].failures + 1)] else old(db)
      ensures count == if u.id in old(db) then old(db)[u.id].failures + 1 else 0
      ensures Coherent(db, cache) <==> CachedUnder(old(cache), u)
      ensures u.id !in old(db) || NamesAreCurrent(old(db), u) ==> Coherent(db, cache)
    {
      hide IsTable, IsProper, Coherent, CachedUnder, KeysOf;
      ghost var table, cached := db, cache;
      FailureNeedsForgetting(db, cache, u);
      if u.id !in db {
        NobodyIsCached(db, cache, u.id);
        NothingToForget(cache, u);
      } else if NamesAreCurrent(db, u) {
        CurrentNamesSuffice(db, cache, u);
      }
      count := 0;
      if u.id in db {
        db := db[u.id := Failed(db[u.id])];
        count := db[u.id].failures;
      }
      cache := cache - {ById(u.id)};
      ForgetCached(u);
      assert cache == cached - KeysOf(u) by {
        ProperId(u);
      }
    }
  }

  lemma ProperId(u: User)
    requires IsProper(u)
    ensures ById(u.id) in KeysOf(u)
  {
  }

  function WithFailure(db: Table, id: string): Table {
    if id in db then db[id := Failed(db[id])] else db
  }

  lemma FailureNeedsForgetting(db: Table, cache: map<Lookup, User>, u: User)
    requires IsTable(db) && Coherent(db, cache) && IsProper(u)
    ensures IsTable(WithFailure(db, u.id))
    ensures Coherent(WithFailure(db, u.id), cache - KeysOf(u)) <==> CachedUnder(cache, u)
  {
    hide KeysOf, Matches;
    if u.id in db {
      WriteNeedsForgetting(db, WithFailure(db, u.id), cache, KeysOf(u), u.id);
    } else {
      NobodyIsCached(db, cache, u.id);
    }
  }

  lemma NothingToForget(cache: map<Lookup, User>, u: User)
    requires forall k | k in cache :: cache[k].id != u.id
    ensures CachedUnder(cache, u)
  {
  }

  lemma NobodyIsCached(db: Table, cache: map<Lookup, User>, id: string)
    requires Coherent(db, cache) && id !in db
    ensures forall k | k in cache :: cache[k].id != id
  {
    assert forall k | k in cache :: Answers(db, k, Some(cache[k]));
  }

  function Failed(u: User): User {
    u.(failures := u.failures + 1)
  }

  /** Dropping the keys of the record as it was is enough, whatever the record becomes. */
  lemma ForgettingSuffices(db: Table, after: Table, cache: map<Lookup, User>, dropped: set<Lookup>, id: string)
    requires IsTable(db) && Coherent(db, cache) && id in db && KeysOf(db[id]) <= dropped
    requires forall other | other != id ::
      (other in db <==> other in after) && (other in db ==> db[other] == after[other])
    ensures Coherent(after, cache - dropped)
  {
  }

  /** A record whose names are still the stored ones is good enough to hand over. */
  lemma CurrentNamesSuffice(db: Table, cache: map<Lookup, User>, u: User)
    requires IsTable(db) && Coherent(db, cache) && u.id in db
    requires NamesAreCurrent(db, u)
    ensures CachedUnder(cache, u)
  {
  }

  /** The names handed over are those by which the stored record can be looked up. */
  predicate NamesAreCurrent(db: Table, u: User)
    requires u.id in db
  {
    u.username == db[u.id].username && (db[u.id].email.Some? ==> u.email == db[u.id].email)
  }

  /** Whatever is cached, handing over this record leaves no stale copy, exactly when its username is the stored one
      and so is its address, if one is stored. */
  lemma HandOverIsSafe(db: Table, u: User)
    requires IsTable(db) && IsProper(u) && u.id in db
    ensures (forall cache | Coherent(db, cache) :: CachedUnder(cache, u)) <==> NamesAreCurrent(db, u)
  {
    var now := db[u.id];
    if NamesAreCurrent(db, u) {
      forall cache | Coherent(db, cache)
        ensures CachedUnder(cache, u)
      {
        CurrentNamesSuffice(db, cache, u);
      }
    } else if u.username != now.username {
      CachedAlone(db, ByName(now.username), u);
    } else {
      CachedAlone(db, ByEmail(now.email.value), u);
    }
  }

  /** A cache that holds the record under a key not handed over. */
  lemma CachedAlone(db: Table, k: Lookup, u: User)
    requires IsTable(db) && u.id in db && Matches(db[u.id], k) && k !in KeysOf(u)
    ensures exists cache :: Coherent(db, cache) && !CachedUnder(cache, u)
  {
    var cache := map[k := db[u.id]];
    assert k in cache && Coherent(db, cache) && !CachedUnder(cache, u);
  }
}
