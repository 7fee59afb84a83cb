/** Sessions read through the cache: a revoked session is never again taken for an active one. */
module SessionStore {
  import opened Lib

  /** Times are instants; a missing `expiresAt` makes a session unusable. */
  datatype Session = Session(id: string, userId: string, revokedAt: Option<int>, expiresAt: Option<int>, rest: string)

  /** What `update_session` changes; `Some(None)` clears a time. */
  datatype Patch = Patch(revokedAt: Option<Option<int>>, expiresAt: Option<Option<int>>, rest: Option<string>)

  function Apply(s: Session, p: Patch): Session {
    s.(revokedAt := if p.revokedAt.Some? then p.revokedAt.value else s.revokedAt,
       expiresAt := if p.expiresAt.Some? then p.expiresAt.value else s.expiresAt,
       rest := if p.rest.Some? then p.rest.value else s.rest)
  }

  /** `is_session_active` */
  predicate IsActive(s: Option<Session>, now: int) {
    && s.Some? && s.value.revokedAt.None?
    && s.value.expiresAt.Some? && s.value.expiresAt.value > now
  }

  type Table = map<string, Session>

  predicate IsTable(db: Table) {
    forall id | id in db :: db[id].id == id
  }

  /** Every cached session is the stored one. */
  predicate Coherent(db: Table, cache: Table) {
    forall id | id in cache :: id in db && cache[id] == db[id]
  }

  /** The user's live sessions, other than the one to keep. */
  predicate IsLive(s: Session, userId: string, keep: Option<string>, now: int) {
    s.userId == userId && IsActive(Some(s), now) && keep != Some(s.id)
  }

  /** The revoked ids after an update: it may revoke, reinstate, or do neither. */
  function RevokedAfter(revoked: set<string>, id: string, p: Patch): set<string> {
    if p.revokedAt.None? then revoked else if p.revokedAt.value.Some? then revoked + {id} else revoked - {id}
  }

  class Sessions {
    var db: Table
    var cache: Table
    /** Ids revoked, and neither created anew nor reinstated since. */
    ghost var revoked: set<string>

    constructor ()
      ensures Valid() && db == map[] && revoked == {}
    {
      db, cache, revoked := map[], map[], {};
    }

    ghost predicate Valid()
      reads this
    {
      && IsTable(db) && Coherent(db, cache)
      && AllRevoked(db, revoked)
    }

    /** `create_session` upserts under the id, and drops what was cached under it. */
    method CreateSession(s: Session)
      requires Valid()
      modifies this
      ensures Valid() && db == old(db)[s.id := s] && revoked == old(revoked) - {s.id}
    {
      db := db[s.id := s];
      cache := cache - {s.id};
      revoked := revoked - {s.id};
    }

    /** `get_session`: always what the database holds, so a revoked session is never active, at any time. */
    method GetSession(id: string) returns (s: Option<Session>)
      requires Valid()
      modifies `cache
      ensures Valid()
      ensures s == if id in db then Some(db[id]) else None
      ensures id in revoked ==> forall now :: !IsActive(s, now)
      ensures id in revoked && s.Some? ==> s.value.revokedAt.Some?
    {
      if id in cache {
        return Some(cache[id]);
      }
      if id !in db {
        return None;
      }
      cache := cache[id := db[id]];
      s := Some(db[id]);
    }

    /** `update_session`: each given field is set, times may be cleared, and nothing else changes. */
    method UpdateSession(id: string, p: Patch) returns (updated: bool)
      requires Valid()
      modifies this
      ensures Valid() && updated == (id in old(db))
      ensures db == if updated then old(db)[id := Apply(old(db)[id], p)] else old(db)
      ensures updated ==>
        var before, after := old(db)[id], db[id];
        && after.id == before.id && after.userId == before.userId
        && after.revokedAt == (if p.revokedAt.Some? then p.revokedAt.value else before.revokedAt)
        && after.expiresAt == (if p.expiresAt.Some? then p.expiresAt.value else before.expiresAt)
        && after.rest == (if p.rest.Some? then p.rest.value else before.rest)
      ensures forall x | x != id || !updated || p.revokedAt == None :: x in revoked <==> x in old(revoked)
      ensures updated && p.revokedAt.Some? ==> (id in revoked <==> p.revokedAt.value.Some?)
      ensures revoked == if updated then RevokedAfter(old(revoked), id, p) else old(revoked)
    {
      updated := id in db;
      if updated {
        db := db[id := Apply(db[id], p)];
        cache := cache - {id};
        revoked := RevokedAfter(revoked, id, p);
      }
    }

    /** `revoke_session`: that session gets the time and becomes revoked; every other stays as it is. */
    method RevokeSession(id: string, now: int) returns (done: bool)
      requires Valid()
      modifies this
      ensures Valid() && done == (id in old(db))
      ensures db == if done then old(db)[id := old(db)[id].(revokedAt := Some(now))] else old(db)
      ensures revoked == if done then old(revoked) + {id} else old(revoked)
    {
      done := UpdateSession(id, Patch(Some(Some(now)), None, None));
    }

    /** Drop the cached copies of these sessions. */
    method Forget(ids: set<string>)
      modifies `cache
      ensures cache == old(cache) - ids
    {
      var rest := ids;
      while rest != {}
        invariant rest <= ids && cache == old(cache) - (ids - rest)
        decreases |rest|
      {
        var id :| id in rest;
        cache := cache - {id};
        rest := rest - {id};
      }
      assert ids - rest == ids;
    }

    /** `revoke_user_sessions`: one write for the database, then every cached copy of a revoked session goes. */
    method RevokeUserSessions(userId: string, keep: Option<string>, now: int) returns (count: nat)
      requires Valid()
      modifies this
      ensures Valid() && db == Revoke(old(db), Live(old(db), userId, keep, now), now)
      ensures revoked == old(revoked) + Live(old(db), userId, keep, now)
      ensures count == |Live(old(db), userId, keep, now)|
      ensures db.Keys == old(db).Keys
      ensures forall id | id in db :: var before := old(db)[id];
        if before.userId == userId && keep != Some(id) && before.revokedAt == None
           && before.expiresAt.Some? && before.expiresAt.value > now
        then db[id] == before.(revokedAt := Some(now)) && id in revoked
        else db[id] == before && (id in revoked <==> id in old(revoked))
    {
      hide IsLive, IsActive, Live, Revoke, AllRevoked, Coherent;
      RevokeMeans(db, userId, keep, now);
      var live := Live(db, userId, keep, now);
      count := |live|;
      if live == {} {
        NothingRevoked(db, now);
        return;
      }
      RevokeFits(db, cache, revoked, live, now);
      db := Revoke(db, live, now);
      revoked := revoked + live;
      Forget(live);
    }
  }

  function Live(db: Table, userId: string, keep: Option<string>, now: int): set<string> {
    set id | id in db && IsLive(db[id], userId, keep, now)
  }

  /** `update_many` on the listed ids. */
  function Revoke(db: Table, ids: set<string>, now: int): Table {
    map id | id in db :: if id in ids then db[id].(revokedAt := Some(now)) else db[id]
  }

  lemma NothingRevoked(db: Table, now: int)
    ensures Revoke(db, {}, now) == db
  {
  }

  /** Exactly the user's other sessions that can be used now are given the time. */
  lemma RevokeMeans(db: Table, userId: string, keep: Option<string>, now: int)
    requires IsTable(db)
    ensures var live := Live(db, userId, keep, now);
      && Revoke(db, live, now).Keys == db.Keys && live <= db.Keys
      && forall id | id in db :: var before := db[id];
        if before.userId == userId && keep != Some(id) && before.revokedAt == None
           && before.expiresAt.Some? && before.expiresAt.value > now
        then Revoke(db, live, now)[id] == before.(revokedAt := Some(now)) && id in live
        else Revoke(db, live, now)[id] == before && id !in live
  {
  }

  predicate AllRevoked(db: Table, revoked: set<string>) {
    forall id | id in revoked && id in db :: db[id].revokedAt.Some?
  }

  lemma RevokeFits(db: Table, cache: Table, revoked: set<string>, ids: set<string>, now: int)
    requires IsTable(db) && Coherent(db, cache) && AllRevoked(db, revoked)
    ensures var after := Revoke(db, ids, now);
      IsTable(after) && Coherent(after, cache - ids) && AllRevoked(after, revoked + ids)
  {
  }

  /** A session can be used exactly if it is there, not revoked, and expires later. */
  lemma ActiveMeans(s: Session, now: int)
    ensures !IsActive(None, now)
    ensures IsActive(Some(s), now) <==> s.revokedAt == None && exists end :: s.expiresAt == Some(end) && now < end
  {
  }

  /** Afterwards none of the user's sessions but the kept one is active, now or later. */
  lemma NoneStaysActive(db: Table, userId: string, keep: Option<string>, now: int, id: string, later: int)
    requires IsTable(db) && id in db && db[id].userId == userId && keep != Some(id) && later >= now
    ensures var after := Revoke(db, Live(db, userId, keep, now), now);
      id in after && !IsActive(Some(after[id]), later)
  {
    assert id in Live(db, userId, keep, now) <==> IsLive(db[id], userId, keep, now);
  }
}
