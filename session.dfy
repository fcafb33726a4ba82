/** The session table (session.js): for each authentication key, the time
    it was last used and one session object per item. `getSession` hands
    out the same object for the same key and item, and `cleanupSessions`
    drops every key unused for longer than the lifetime, with all its
    sessions. The clock is the `now` parameter. */
module Sessions {

  /** A session object: whatever a handler stores for a key and an item. */
  class Session {
    var data: map<string, string>

    constructor()
      ensures data == map[]
    {
      data := map[];
    }
  }

  /** The record kept for one authentication key. */
  datatype AuthEntry = AuthEntry(lastUsed: int, items: map<string, Session>)

  /** The default lifetime: one hour in milliseconds. */
  const DefaultLifetime: int := 1000 * 60 * 60

  /** The key has been unused for longer than the lifetime at `now`. */
  predicate Expired(e: AuthEntry, now: int, lifetime: int)
  {
    now - e.lastUsed > lifetime
  }

  /** The table after a cleanup at `now`. */
  function Kept(sessions: map<string, AuthEntry>, now: int, lifetime: int): (r: map<string, AuthEntry>)
    ensures forall a :: a in r <==> a in sessions && !Expired(sessions[a], now, lifetime)
    ensures forall a :: a in r ==> r[a] == sessions[a]
  {
    map a | a in sessions && !Expired(sessions[a], now, lifetime) :: sessions[a]
  }

  /** The table after getSession(auth, item) at `now` returned `s`: the key
      is marked used, and `s` is its session for the item. */
  function Touched(sessions: map<string, AuthEntry>, auth: string, item: string, s: Session, now: int): map<string, AuthEntry>
  {
    var items := if auth in sessions then sessions[auth].items else map[];
    sessions[auth := AuthEntry(now, items[item := s])]
  }

  /** A session handed out at `now` survives every cleanup within the
      lifetime, and still maps the key and item to the same object. */
  lemma TouchedSurvivesCleanup(sessions: map<string, AuthEntry>, auth: string, item: string, s: Session, now: int, later: int, lifetime: int)
    requires later - now <= lifetime
    ensures var kept := Kept(Touched(sessions, auth, item, s, now), later, lifetime);
            auth in kept && item in kept[auth].items && kept[auth].items[item] == s
  {
    var t := Touched(sessions, auth, item, s, now);
    assert t[auth].lastUsed == now && t[auth].items[item] == s;
  }

  /** The module-level table. */
  class SessionTable {
    var sessions: map<string, AuthEntry>

    constructor()
      ensures sessions == map[]
    {
      sessions := map[];
    }

    /** getSession: the same object for a key and item already present, a
        fresh one otherwise; either way the key is marked used at `now` and
        nothing else changes. */
    method GetSession(auth: string, item: string, now: int) returns (s: Session)
      modifies this
      ensures sessions == Touched(old(sessions), auth, item, s, now)
      ensures auth in old(sessions) && item in old(sessions)[auth].items ==> s == old(sessions)[auth].items[item]
      ensures !(auth in old(sessions) && item in old(sessions)[auth].items) ==> fresh(s) && s.data == map[]
    {
      var entry := if auth in sessions then sessions[auth] else AuthEntry(0, map[]);
      entry := entry.(lastUsed := now);
      if item in entry.items {
        s := entry.items[item];
      } else {
        s := new Session();
        entry := entry.(items := entry.items[item := s]);
      }
      assert entry.items == entry.items[item := s];
      sessions := sessions[auth := entry];
    }

    /** cleanupSessions: deletes, key by key, every key unused for longer
        than the lifetime. */
    method CleanupSessions(now: int, lifetime: int)
      modifies this
      ensures sessions == Kept(old(sessions), now, lifetime)
    {
      var keys := sessions.Keys;
      ghost var original := sessions;
      while keys != {}
        invariant keys <= original.Keys
        invariant sessions == map a | a in original && (a in keys || !Expired(original[a], now, lifetime)) :: original[a]
        decreases |keys|
      {
        var key :| key in keys;
        if Expired(sessions[key], now, lifetime) {
          sessions := map a | a in sessions && a != key :: sessions[a];
        }
        keys := keys - {key};
      }
    }
  }
}
