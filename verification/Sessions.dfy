/**
  Refresh-token sessions: the in-memory store, whose three indexes share the session objects, and
  the manager that issues and rotates token pairs. IDs and tokens are drawn fresh by the caller's
  parameters; the clock is a parameter too, and each call runs alone.
*/
module Sessions {
  import opened Prelude

  const REFRESH_TOKEN_TTL := 7 * 24 * 3600

  /** A session as a value. */
  datatype Record = Record(id: string, userID: string, familyID: string, refreshToken: string, expiresAt: int, isRevoked: bool)

  /** All sessions, under their refresh tokens. */
  type Store = map<string, Record>

  datatype RefreshError = InvalidToken | Replayed | Expired | UserInactive | AccessTokenFailed

  /** What a call draws or is told: a fresh session ID and token, the time, and whether signing works. */
  datatype Draw = Draw(id: string, refreshToken: string, now: int, signs: bool)

  function NewRecord(userID: string, familyID: string, d: Draw): Record {
    Record(d.id, userID, familyID, d.refreshToken, d.now + REFRESH_TOKEN_TTL, false)
  }

  function Saved(store: Store, r: Record): Store {
    store[r.refreshToken := r]
  }

  function Revoked(store: Store, id: string): Store {
    map t | t in store :: if store[t].id == id then store[t].(isRevoked := true) else store[t]
  }

  function FamilyRevoked(store: Store, familyID: string): Store {
    map t | t in store :: if store[t].familyID == familyID then store[t].(isRevoked := true) else store[t]
  }

  /** The session is saved before the access token is signed, so a signing failure leaves it behind. */
  function Issued(store: Store, userID: string, familyID: string, d: Draw): (Store, Result<string, RefreshError>) {
    (Saved(store, NewRecord(userID, familyID, d)), if d.signs then Ok(d.refreshToken) else Err(AccessTokenFailed))
  }

  function Refreshed(store: Store, activeUsers: set<string>, token: string, d: Draw): (Store, Result<string, RefreshError>) {
    if token !in store then (store, Err(InvalidToken))
    else
      var s := store[token];
      if s.isRevoked then (FamilyRevoked(store, s.familyID), Err(Replayed))
      else if d.now > s.expiresAt then (store, Err(Expired))
      else
        var store1 := Revoked(store, s.id);
        if s.userID !in activeUsers then (store1, Err(UserInactive))
        else Issued(store1, s.userID, s.familyID, d)
  }

  /** The drawn ID and token are new. */
  ghost predicate Fresh(store: Store, d: Draw) {
    d.refreshToken !in store && forall t | t in store :: store[t].id != d.id
  }

  lemma FreshAfterRevoking(store: Store, id: string, d: Draw)
    requires Fresh(store, d)
    ensures Fresh(Revoked(store, id), d)
  {
  }

  // ----- The store and its aliases ----------------------------------------------------------

  class Session {
    const id: string
    const userID: string
    const familyID: string
    const refreshToken: string
    const expiresAt: int
    var isRevoked: bool

    constructor (r: Record)
      ensures View() == r
    {
      id, userID, familyID, refreshToken, expiresAt := r.id, r.userID, r.familyID, r.refreshToken, r.expiresAt;
      isRevoked := r.isRevoked;
    }

    function View(): Record
      reads this
    {
      Record(id, userID, familyID, refreshToken, expiresAt, isRevoked)
    }
  }

  ghost predicate SameObjects(sessions: map<string, Session>, byRefresh: map<string, Session>) {
    && (forall id | id in sessions ::
          && sessions[id].id == id
          && sessions[id].familyID != ""
          && sessions[id].refreshToken in byRefresh && byRefresh[sessions[id].refreshToken] == sessions[id])
    && (forall t | t in byRefresh ::
          && byRefresh[t].refreshToken == t
          && byRefresh[t].id in sessions && sessions[byRefresh[t].id] == byRefresh[t])
  }

  ghost predicate FamilyLists(sessions: map<string, Session>, byFamily: map<string, seq<Session>>) {
    && (forall id | id in sessions :: sessions[id].familyID in byFamily && sessions[id] in byFamily[sessions[id].familyID])
    && (forall f | f in byFamily :: forall s | s in byFamily[f] ::
          s.familyID == f && s.id in sessions && sessions[s.id] == s)
  }

  function WithMember(byFamily: map<string, seq<Session>>, familyID: string, s: Session): map<string, seq<Session>> {
    byFamily[familyID := (if familyID in byFamily then byFamily[familyID] else []) + [s]]
  }

  /** Entering a session in the three indexes keeps them in line exactly when its ID and token are new and it has a family. */
  lemma IndexesGrowIff(sessions: map<string, Session>, byRefresh: map<string, Session>, byFamily: map<string, seq<Session>>, s: Session)
    requires SameObjects(sessions, byRefresh) && FamilyLists(sessions, byFamily) && s !in byRefresh.Values
    ensures SameObjects(sessions[s.id := s], byRefresh[s.refreshToken := s])
              && FamilyLists(sessions[s.id := s], WithMember(byFamily, s.familyID, s))
            <==> s.id !in sessions && s.refreshToken !in byRefresh && s.familyID != ""
  {
    var sessions', byRefresh', byFamily' := sessions[s.id := s], byRefresh[s.refreshToken := s], WithMember(byFamily, s.familyID, s);
    if SameObjects(sessions', byRefresh') && FamilyLists(sessions', byFamily') {
      assert sessions'[s.id] == s;
      forall t | t in byRefresh ensures byRefresh[t].id != s.id && t != s.refreshToken {
        StillListed(sessions, byRefresh, byFamily, s, t);
      }
    }
  }

  lemma StillListed(sessions: map<string, Session>, byRefresh: map<string, Session>, byFamily: map<string, seq<Session>>, s: Session, t: string)
    requires SameObjects(sessions, byRefresh) && FamilyLists(sessions, byFamily) && s !in byRefresh.Values && t in byRefresh
    requires SameObjects(sessions[s.id := s], byRefresh[s.refreshToken := s])
    requires FamilyLists(sessions[s.id := s], WithMember(byFamily, s.familyID, s))
    ensures byRefresh[t].id != s.id && t != s.refreshToken
  {
    var known := byRefresh[t];
    var lists := WithMember(byFamily, s.familyID, s);
    assert known in byRefresh.Values && known in byFamily[known.familyID];
    assert known.familyID in lists && known in lists[known.familyID];
    assert sessions[s.id := s][known.id] == known;
  }

  class MemoryAuthRepository {
    var sessions: map<string, Session>
    var byRefresh: map<string, Session>
    var byFamily: map<string, seq<Session>>

    /** The three indexes hold exactly the same objects, each under its own key. */
    ghost predicate Valid()
      reads this
    {
      SameObjects(sessions, byRefresh) && FamilyLists(sessions, byFamily)
    }

    ghost function Contents(): Store
      reads this, byRefresh.Values
    {
      map t | t in byRefresh :: byRefresh[t].View()
    }

    constructor ()
      ensures Valid() && Contents() == map[]
    {
      sessions, byRefresh, byFamily := map[], map[], map[];
    }

    /** The indexes stay in line exactly when the session's ID and token are new and it has a family. */
    method SaveSession(r: Record)
      requires Valid()
      modifies this
      ensures fresh(byRefresh.Values - old(byRefresh.Values)) && Contents() == Saved(old(Contents()), r)
      ensures Valid() <==> r.familyID != "" && r.refreshToken !in old(Contents())
                           && forall t | t in old(Contents()) :: old(Contents())[t].id != r.id
    {
      hide SameObjects, FamilyLists, WithMember;
      UsedIDs(r.id);
      var session := new Session(r);
      assert session.id == session.View().id && session.familyID == session.View().familyID;
      assert session.refreshToken == session.View().refreshToken;
      IndexesGrowIff(sessions, byRefresh, byFamily, session);
      sessions := sessions[r.id := session];
      byRefresh := byRefresh[r.refreshToken := session];
      byFamily := WithMember(byFamily, r.familyID, session);
    }

    lemma UsedIDs(id: string)
      requires Valid()
      ensures id in sessions <==> exists t :: t in Contents() && Contents()[t].id == id
    {
      assert forall x | x in sessions :: Contents()[sessions[x].refreshToken].id == x;
    }

    /** The session under the token, which the other two indexes list too. */
    method GetSessionByRefreshToken(token: string) returns (session: Session?)
      requires Valid()
      ensures session != null <==> token in Contents()
      ensures session != null ==>
                && session in byRefresh.Values && session.View() == Contents()[token]
                && session.refreshToken == token && session.familyID != ""
                && session.id in sessions && sessions[session.id] == session
                && session.familyID in byFamily && session in byFamily[session.familyID]
    {
      session := if token in byRefresh then byRefresh[token] else null;
    }

    /** Revokes through the ID index; the token index sees it because it holds the same object. */
    method RevokeSession(sessionID: string)
      requires Valid()
      modifies byRefresh.Values
      ensures Valid() && Contents() == Revoked(old(Contents()), sessionID)
    {
      OneSessionPerID(sessionID);
      hide SameObjects, FamilyLists;
      if sessionID in sessions {
        var s := sessions[sessionID];
        s.isRevoked := true;
      }
    }

    lemma OneSessionPerID(id: string)
      requires Valid()
      ensures forall t | t in byRefresh :: byRefresh[t].id == id <==> id in sessions && byRefresh[t] == sessions[id]
      ensures id in sessions ==> sessions[id] in byRefresh.Values
    {
      hide FamilyLists;
      assert id in sessions ==> byRefresh[sessions[id].refreshToken] in byRefresh.Values;
    }

    /** Revokes through the family index, one session of the list after the other. */
    method RevokeSessionFamily(familyID: string)
      requires Valid()
      modifies byRefresh.Values
      ensures Valid() && Contents() == FamilyRevoked(old(Contents()), familyID)
    {
      ListIsFamily(familyID);
      hide SameObjects, FamilyLists;
      if familyID in byFamily {
        var list := byFamily[familyID];
        for i := 0 to |list|
          invariant forall t | t in byRefresh ::
                      byRefresh[t].isRevoked == (old(byRefresh[t].isRevoked) || byRefresh[t] in list[..i])
        {
          assert list[i] in list && list[..i + 1] == list[..i] + [list[i]];
          list[i].isRevoked := true;
        }
        assert list[..|list|] == list;
      }
    }

    /** The family index lists exactly the sessions of the family. */
    lemma ListIsFamily(familyID: string)
      requires Valid()
      ensures forall t | t in byRefresh ::
                byRefresh[t].familyID == familyID <==> familyID in byFamily && byRefresh[t] in byFamily[familyID]
      ensures familyID in byFamily ==> forall s | s in byFamily[familyID] :: s in byRefresh.Values
    {
    }
  }

  class SessionManager {
    const repo: MemoryAuthRepository

    constructor (repo: MemoryAuthRepository)
      ensures this.repo == repo
    {
      this.repo := repo;
    }

    /** An empty family ID asks for a new family. */
    method IssueTokenPair(userID: string, familyID: string, newFamilyID: string, d: Draw) returns (r: Result<string, RefreshError>)
      requires repo.Valid() && Fresh(repo.Contents(), d) && newFamilyID != ""
      modifies repo
      ensures repo.Valid() && fresh(repo.byRefresh.Values - old(repo.byRefresh.Values))
      ensures (repo.Contents(), r) == Issued(old(repo.Contents()), userID, if familyID == "" then newFamilyID else familyID, d)
    {
      var family := if familyID == "" then newFamilyID else familyID;
      repo.SaveSession(Record(d.id, userID, family, d.refreshToken, d.now + REFRESH_TOKEN_TTL, false));
      if !d.signs {
        return Err(AccessTokenFailed);
      }
      return Ok(d.refreshToken);
    }

    method RefreshToken(token: string, activeUsers: set<string>, d: Draw) returns (r: Result<string, RefreshError>)
      requires repo.Valid() && Fresh(repo.Contents(), d)
      modifies repo, repo.byRefresh.Values
      ensures repo.Valid() && fresh(repo.byRefresh.Values - old(repo.byRefresh.Values))
      ensures (repo.Contents(), r) == Refreshed(old(repo.Contents()), activeUsers, token, d)
    {
      hide SameObjects, FamilyLists, Revoked, FamilyRevoked;
      var session := repo.GetSessionByRefreshToken(token);
      if session == null {
        return Err(InvalidToken);
      }
      assert repo.Contents()[token] == session.View();
      if session.isRevoked {
        repo.RevokeSessionFamily(session.familyID);
        return Err(Replayed);
      }
      if d.now > session.expiresAt {
        return Err(Expired);
      }
      FreshAfterRevoking(repo.Contents(), session.id, d);
      repo.RevokeSession(session.id);
      if session.userID !in activeUsers {
        return Err(UserInactive);
      }
      r := IssueTokenPair(session.userID, session.familyID, session.familyID, d);
    }
  }
}
