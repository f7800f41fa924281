/**
  Runs of logins and refreshes, one call after the other, over the sessions of module Sessions:
  what refresh-token rotation guarantees over a whole run.
*/
module SessionRuns {
  import opened Prelude
  import opened Sessions

  datatype Call =
    | Login(userID: string, familyID: string, draw: Draw)
    | Refresh(token: string, activeUsers: set<string>, draw: Draw)

  /** Drawn IDs and tokens are new, and a login opens a family of its own. */
  ghost predicate Allowed(store: Store, c: Call) {
    && Fresh(store, c.draw)
    && (c.Login? ==> c.familyID != "" && forall t | t in store :: store[t].familyID != c.familyID)
  }

  function Outcome(store: Store, c: Call): (Store, Result<string, RefreshError>) {
    match c
    case Login(user, family, d) => Issued(store, user, family, d)
    case Refresh(token, activeUsers, d) => Refreshed(store, activeUsers, token, d)
  }

  /** The stores before, between and after the calls of a run. */
  ghost predicate IsRun(stores: seq<Store>, calls: seq<Call>) {
    && |stores| == |calls| + 1
    && stores[0] == map[]
    && forall i {:trigger calls[i]} | 0 <= i < |calls| :: Allowed(stores[i], calls[i]) && stores[i + 1] == Outcome(stores[i], calls[i]).0
  }

  /** Call i hands out a new pair for the given token. */
  ghost predicate Exchanges(stores: seq<Store>, calls: seq<Call>, i: nat, token: string)
    requires IsRun(stores, calls) && i < |calls|
  {
    calls[i].Refresh? && calls[i].token == token && Outcome(stores[i], calls[i]).1.Ok?
  }

  /** Call i presents the given token after it was revoked. */
  ghost predicate Replays(stores: seq<Store>, calls: seq<Call>, i: nat, token: string)
    requires IsRun(stores, calls) && i < |calls|
  {
    calls[i].Refresh? && calls[i].token == token && token in stores[i] && stores[i][token].isRevoked
  }

  // ----- What one call keeps ------------------------------------------------------------------

  /** Sessions are filed under their own token, IDs are unique, and a family has one live session at most. */
  ghost predicate Sound(store: Store) {
    && (forall t | t in store :: store[t].refreshToken == t && store[t].familyID != "")
    && (forall t, u | t in store && u in store && store[t].id == store[u].id :: t == u)
    && (forall t, u | t in store && u in store && store[t].familyID == store[u].familyID
                      && !store[t].isRevoked && !store[u].isRevoked :: t == u)
  }

  /** A later store: no session is lost or changes hands, and revocation is for good. */
  ghost predicate Later(before: Store, after: Store) {
    forall t | t in before ::
      && t in after
      && after[t].(isRevoked := before[t].isRevoked) == before[t]
      && (before[t].isRevoked ==> after[t].isRevoked)
  }

  /** A family that exists and has no live session left. */
  ghost predicate Ended(store: Store, familyID: string) {
    && (exists t :: t in store && store[t].familyID == familyID)
    && forall t | t in store && store[t].familyID == familyID :: store[t].isRevoked
  }

  lemma SavingKeepsSound(store: Store, r: Record)
    requires Sound(store) && r.refreshToken !in store && !r.isRevoked && r.familyID != ""
    requires forall t | t in store :: store[t].id != r.id
    requires forall t | t in store && store[t].familyID == r.familyID :: store[t].isRevoked
    ensures Sound(Saved(store, r)) && Later(store, Saved(store, r))
  {
  }

  /** In a sound store, revoking a live session by its ID leaves its family without a live session. */
  lemma RevokingEnds(store: Store, token: string)
    requires Sound(store) && token in store && !store[token].isRevoked
    ensures Sound(Revoked(store, store[token].id)) && Later(store, Revoked(store, store[token].id))
    ensures Ended(Revoked(store, store[token].id), store[token].familyID)
    ensures Revoked(store, store[token].id)[token].isRevoked
  {
    var after := Revoked(store, store[token].id);
    assert token in after && after[token].familyID == store[token].familyID;
  }

  lemma NothingHappens(store: Store)
    ensures Later(store, store)
  {
  }

  lemma LaterTwice(before: Store, mid: Store, after: Store)
    requires Later(before, mid) && Later(mid, after)
    ensures Later(before, after)
  {
  }

  lemma TerminatingKeepsSound(store: Store, familyID: string)
    requires Sound(store)
    ensures Sound(FamilyRevoked(store, familyID)) && Later(store, FamilyRevoked(store, familyID))
  {
  }

  /** A login finds no session of its family. */
  lemma LoginFinds(store: Store, c: Call)
    requires c.Login? && Allowed(store, c)
    ensures c.familyID != "" && c.draw.refreshToken !in store
    ensures forall t | t in store :: store[t].id != c.draw.id && store[t].familyID != c.familyID
  {
  }

  /** A rotation finds the sessions of its family revoked. */
  lemma RotationFinds(store: Store, token: string, d: Draw)
    requires Sound(store) && Fresh(store, d) && token in store && !store[token].isRevoked
    ensures var rest := Revoked(store, store[token].id);
            && store[token].familyID != "" && d.refreshToken !in rest
            && (forall t | t in rest :: rest[t].id != d.id)
            && forall t | t in rest && rest[t].familyID == store[token].familyID :: rest[t].isRevoked
  {
  }

  lemma StepKeepsSound(store: Store, c: Call)
    requires Sound(store) && Allowed(store, c)
    ensures Sound(Outcome(store, c).0) && Later(store, Outcome(store, c).0)
  {
    hide Sound, Later, Saved, Revoked, FamilyRevoked;
    match c
    case Login(user, family, d) => LoginFinds(store, c); SavingKeepsSound(store, NewRecord(user, family, d));
    case Refresh(token, active, d) =>
      NothingHappens(store);
      if token in store && store[token].isRevoked {
        TerminatingKeepsSound(store, store[token].familyID);
      } else if token in store && d.now <= store[token].expiresAt {
        RevokingEnds(store, token);
        if store[token].userID in active {
          RotationFinds(store, token, d);
          var next := NewRecord(store[token].userID, store[token].familyID, d);
          SavingKeepsSound(Revoked(store, store[token].id), next);
          LaterTwice(store, Revoked(store, store[token].id), Saved(Revoked(store, store[token].id), next));
        }
      }
  }

  lemma StepKeepsEnded(store: Store, c: Call, familyID: string)
    requires Sound(store) && Allowed(store, c) && Ended(store, familyID)
    ensures Ended(Outcome(store, c).0, familyID)
    ensures c.Refresh? && c.token in store && store[c.token].familyID == familyID ==> Outcome(store, c).1.Err?
  {
    var t :| t in store && store[t].familyID == familyID;
    StepKeepsSound(store, c);
    assert t in Outcome(store, c).0 && Outcome(store, c).0[t].familyID == familyID;
  }

  // ----- Runs -----------------------------------------------------------------------------------

  /** In every run a family has at most one unrevoked session. */
  lemma {:induction false} OneLiveSessionPerFamily(stores: seq<Store>, calls: seq<Call>, i: nat)
    requires IsRun(stores, calls) && i < |stores|
    ensures Sound(stores[i])
  {
    if i > 0 {
      OneLiveSessionPerFamily(stores, calls, i - 1);
      StepKeepsSound(stores[i - 1], calls[i - 1]);
    }
  }

  /** No session is ever dropped, given to another user or family, or un-revoked. */
  lemma {:induction false} RevocationIsPermanent(stores: seq<Store>, calls: seq<Call>, i: nat, j: nat)
    requires IsRun(stores, calls) && i <= j < |stores|
    ensures Later(stores[i], stores[j])
    decreases j
  {
    hide Sound, Later, Allowed, Outcome;
    if i < j {
      var k := j - 1;
      RevocationIsPermanent(stores, calls, i, k);
      OneLiveSessionPerFamily(stores, calls, k);
      assert Allowed(stores[k], calls[k]) && stores[k + 1] == Outcome(stores[k], calls[k]).0;
      StepKeepsSound(stores[k], calls[k]);
      LaterTwice(stores[i], stores[k], stores[j]);
    } else {
      NothingHappens(stores[i]);
    }
  }

  /** A call exchanges a token exactly when it is live and unexpired, its user is active, and signing works. */
  lemma ExchangesIff(stores: seq<Store>, calls: seq<Call>, i: nat)
    requires IsRun(stores, calls) && i < |calls| && calls[i].Refresh?
    ensures Exchanges(stores, calls, i, calls[i].token) <==>
            && calls[i].token in stores[i]
            && !stores[i][calls[i].token].isRevoked
            && calls[i].draw.now <= stores[i][calls[i].token].expiresAt
            && stores[i][calls[i].token].userID in calls[i].activeUsers
            && calls[i].draw.signs
  {
  }

  /** An exchange passes the token's user and family on to the one new session, and revokes the old one. */
  lemma ExchangeRotates(stores: seq<Store>, calls: seq<Call>, i: nat, token: string)
    requires IsRun(stores, calls) && i < |calls| && Exchanges(stores, calls, i, token)
    ensures token in stores[i] && token in stores[i + 1] && stores[i + 1][token].isRevoked
    ensures var next := Outcome(stores[i], calls[i]).1.value;
            && stores[i + 1].Keys == stores[i].Keys + {next} && next !in stores[i]
            && stores[i + 1][next].userID == stores[i][token].userID
            && stores[i + 1][next].familyID == stores[i][token].familyID
            && !stores[i + 1][next].isRevoked
  {
    assert stores[i + 1] == Outcome(stores[i], calls[i]).0;
  }

  /** Each refresh token is exchanged at most once. */
  lemma ExchangedAtMostOnce(stores: seq<Store>, calls: seq<Call>, i: nat, j: nat, token: string)
    requires IsRun(stores, calls) && i < |calls| && j < |calls|
    requires Exchanges(stores, calls, i, token) && Exchanges(stores, calls, j, token)
    ensures i == j
  {
    if i != j {
      var first, second := if i < j then i else j, if i < j then j else i;
      ExchangeRotates(stores, calls, first, token);
      RevocationIsPermanent(stores, calls, first + 1, second);
      assert false;
    }
  }

  lemma {:induction false} EndedStaysEnded(stores: seq<Store>, calls: seq<Call>, i: nat, j: nat, familyID: string)
    requires IsRun(stores, calls) && i <= j < |stores| && Ended(stores[i], familyID)
    ensures Ended(stores[j], familyID)
    decreases j
  {
    if i < j {
      EndedStaysEnded(stores, calls, i, j - 1, familyID);
      OneLiveSessionPerFamily(stores, calls, j - 1);
      StepKeepsEnded(stores[j - 1], calls[j - 1], familyID);
    }
  }

  /** After one replay of a revoked token, no token of its family is ever exchanged again. */
  lemma ReplayEndsTheFamily(stores: seq<Store>, calls: seq<Call>, i: nat, token: string, j: nat, other: string)
    requires IsRun(stores, calls) && i < j < |calls|
    requires Replays(stores, calls, i, token)
    requires other in stores[j] && stores[j][other].familyID == stores[i][token].familyID
    ensures Outcome(stores[i], calls[i]).1 == Err(Replayed)
    ensures !Exchanges(stores, calls, j, other)
  {
    var family := stores[i][token].familyID;
    assert stores[i + 1] == FamilyRevoked(stores[i], family);
    assert token in stores[i + 1] && stores[i + 1][token].familyID == family;
    EndedStaysEnded(stores, calls, i + 1, j, family);
    OneLiveSessionPerFamily(stores, calls, j);
    StepKeepsEnded(stores[j], calls[j], family);
  }

  /** So when a token is presented again after its exchange, the tokens that came of the exchange are dead too. */
  lemma ReuseEndsTheFamily(stores: seq<Store>, calls: seq<Call>, i: nat, k: nat, token: string, j: nat, other: string)
    requires IsRun(stores, calls) && i < k < j < |calls|
    requires Exchanges(stores, calls, i, token)
    requires calls[k].Refresh? && calls[k].token == token
    requires other in stores[j] && stores[j][other].familyID == stores[i][token].familyID
    ensures Outcome(stores[k], calls[k]).1 == Err(Replayed)
    ensures !Exchanges(stores, calls, j, other)
  {
    ExchangeRotates(stores, calls, i, token);
    RevocationIsPermanent(stores, calls, i, i + 1);
    RevocationIsPermanent(stores, calls, i + 1, k);
    ReplayEndsTheFamily(stores, calls, k, token, j, other);
  }

  // ----- What a call does, in the sessions' own fields -------------------------------------------

  /** A login files one live session, for seven days, and hands its token out unless signing fails. */
  lemma LoginMeans(store: Store, userID: string, familyID: string, d: Draw)
    ensures var (after, r) := Outcome(store, Login(userID, familyID, d));
            && after == store[d.refreshToken := Record(d.id, userID, familyID, d.refreshToken, d.now + 604800, false)]
            && r == if d.signs then Ok(d.refreshToken) else Err(AccessTokenFailed)
  {
  }

  /** Each way a refresh can end, and what it leaves in the store. */
  lemma RefreshMeans(store: Store, token: string, activeUsers: set<string>, d: Draw)
    requires Sound(store) && Fresh(store, d)
    ensures var (after, r) := Outcome(store, Refresh(token, activeUsers, d));
            && (token !in store ==> r == Err(InvalidToken) && after == store)
            && (token in store && store[token].isRevoked ==>
                  && r == Err(Replayed) && after.Keys == store.Keys
                  && forall t | t in store ::
                       after[t] == store[t].(isRevoked := store[t].isRevoked || store[t].familyID == store[token].familyID))
            && (token in store && !store[token].isRevoked && store[token].expiresAt < d.now ==> r == Err(Expired) && after == store)
            && (token in store && !store[token].isRevoked && d.now <= store[token].expiresAt ==>
                  var s := store[token];
                  var rotated := store[token := s.(isRevoked := true)];
                  if s.userID in activeUsers
                  then && after == rotated[d.refreshToken := Record(d.id, s.userID, s.familyID, d.refreshToken, d.now + 604800, false)]
                       && r == if d.signs then Ok(d.refreshToken) else Err(AccessTokenFailed)
                  else r == Err(UserInactive) && after == rotated)
  {
    if token in store {
      assert Revoked(store, store[token].id) == store[token := store[token].(isRevoked := true)];
    }
  }

  // ----- How long a token can be exchanged ---------------------------------------------------------

  /** Call i hands this token out. */
  ghost predicate HandsOut(stores: seq<Store>, calls: seq<Call>, i: nat, token: string)
    requires IsRun(stores, calls) && i < |calls|
  {
    Outcome(stores[i], calls[i]).1 == Ok(token)
  }

  /** No call between i and j presents the token, or a revoked token of the family. */
  ghost predicate Undisturbed(stores: seq<Store>, calls: seq<Call>, i: nat, j: nat, token: string, familyID: string)
    requires IsRun(stores, calls) && j <= |calls|
  {
    forall k | i < k < j && calls[k].Refresh? ::
      && calls[k].token != token
      && !(calls[k].token in stores[k] && stores[k][calls[k].token].isRevoked && stores[k][calls[k].token].familyID == familyID)
  }

  /** The session of a token handed out: the login's user and family, or those of the token exchanged. */
  lemma HandedOut(stores: seq<Store>, calls: seq<Call>, i: nat, token: string)
    requires IsRun(stores, calls) && i < |calls| && HandsOut(stores, calls, i, token)
    ensures token !in stores[i] && token in stores[i + 1] && !stores[i + 1][token].isRevoked
    ensures stores[i + 1][token].expiresAt == calls[i].draw.now + 7 * 24 * 3600
    ensures calls[i].Login? ==> stores[i + 1][token].userID == calls[i].userID && stores[i + 1][token].familyID == calls[i].familyID
    ensures calls[i].Refresh? ==> calls[i].token in stores[i]
    ensures calls[i].Refresh? ==> stores[i + 1][token].userID == stores[i][calls[i].token].userID
    ensures calls[i].Refresh? ==> stores[i + 1][token].familyID == stores[i][calls[i].token].familyID
  {
    assert stores[i + 1] == Outcome(stores[i], calls[i]).0;
  }

  /** The token's session is this one. */
  ghost predicate Holds(store: Store, token: string, r: Record) {
    token in store && store[token] == r
  }

  /** A session changes only when its own token is presented or its family is terminated. */
  lemma {:induction false} StaysAsItIs(stores: seq<Store>, calls: seq<Call>, i: nat, j: nat, token: string, r: Record)
    requires IsRun(stores, calls) && i < j <= |calls| && Holds(stores[i + 1], token, r)
    requires Undisturbed(stores, calls, i, j, token, r.familyID)
    ensures Holds(stores[j], token, r)
    decreases j
  {
    hide Undisturbed, Holds;
    if i + 1 < j {
      LessDisturbed(stores, calls, i, j, token, r.familyID);
      StaysAsItIs(stores, calls, i, j - 1, token, r);
      StaysOneMore(stores, calls, i, j - 1, token, r);
    }
  }

  lemma LessDisturbed(stores: seq<Store>, calls: seq<Call>, i: nat, j: nat, token: string, familyID: string)
    requires IsRun(stores, calls) && 0 < j <= |calls| && Undisturbed(stores, calls, i, j, token, familyID)
    ensures Undisturbed(stores, calls, i, j - 1, token, familyID)
  {
    hide IsRun;
  }

  lemma StaysOneMore(stores: seq<Store>, calls: seq<Call>, i: nat, k: nat, token: string, r: Record)
    requires IsRun(stores, calls) && i < k < |calls| && Holds(stores[k], token, r)
    requires Undisturbed(stores, calls, i, k + 1, token, r.familyID)
    ensures Holds(stores[k + 1], token, r)
  {
    hide Sound, Allowed, Outcome;
    OneLiveSessionPerFamily(stores, calls, k);
    assert Allowed(stores[k], calls[k]) && stores[k + 1] == Outcome(stores[k], calls[k]).0;
    SparedBy(stores[k], calls[k], token);
  }

  lemma SparedBy(store: Store, c: Call, token: string)
    requires Sound(store) && Allowed(store, c) && token in store
    requires c.Refresh? ==> c.token != token
    requires c.Refresh? && c.token in store && store[c.token].isRevoked ==> store[c.token].familyID != store[token].familyID
    ensures token in Outcome(store, c).0 && Outcome(store, c).0[token] == store[token]
  {
    hide Outcome;
    if c.Login? {
      LoginMeans(store, c.userID, c.familyID, c.draw);
    } else {
      RefreshMeans(store, c.token, c.activeUsers, c.draw);
    }
  }

  /**
    A token that was handed out, and is now presented for the first time, is exchanged exactly when that was
    at most seven days ago, its user is active and signing works; unless a token of its family was replayed.
    */
  lemma FirstUseExchangesIff(stores: seq<Store>, calls: seq<Call>, i: nat, j: nat, token: string)
    requires IsRun(stores, calls) && i < j < |calls| && HandsOut(stores, calls, i, token)
    requires calls[j].Refresh? && calls[j].token == token
    requires token in stores[i + 1] ==> Undisturbed(stores, calls, i, j, token, stores[i + 1][token].familyID)
    ensures token in stores[i + 1]
    ensures Exchanges(stores, calls, j, token) <==>
            && calls[j].draw.now - calls[i].draw.now <= 7 * 24 * 3600
            && stores[i + 1][token].userID in calls[j].activeUsers
            && calls[j].draw.signs
  {
    HandedOut(stores, calls, i, token);
    StaysAsItIs(stores, calls, i, j, token, stores[i + 1][token]);
    OneLiveSessionPerFamily(stores, calls, j);
    RefreshMeans(stores[j], token, calls[j].activeUsers, calls[j].draw);
  }

  /** Whatever happened in between, a token is never exchanged more than seven days after it was handed out. */
  lemma NeverExchangedLate(stores: seq<Store>, calls: seq<Call>, i: nat, j: nat, token: string)
    requires IsRun(stores, calls) && i < j < |calls| && HandsOut(stores, calls, i, token)
    requires calls[j].draw.now - calls[i].draw.now > 7 * 24 * 3600
    ensures !Exchanges(stores, calls, j, token)
  {
    HandedOut(stores, calls, i, token);
    RevocationIsPermanent(stores, calls, i + 1, j);
  }

  /** A call that has not handed the token out, before the one that does, cannot have it exchanged. */
  lemma NeverExchangedEarly(stores: seq<Store>, calls: seq<Call>, i: nat, j: nat, token: string)
    requires IsRun(stores, calls) && j <= i < |calls| && HandsOut(stores, calls, i, token)
    ensures !Exchanges(stores, calls, j, token)
  {
    HandedOut(stores, calls, i, token);
    RevocationIsPermanent(stores, calls, j, i);
  }

  /** A token that was ever exchanged was handed out, or left behind by a call whose signing failed. */
  lemma {:induction false} ExchangedWasIssued(stores: seq<Store>, calls: seq<Call>, j: nat, token: string) returns (i: nat)
    requires IsRun(stores, calls) && j < |stores| && token in stores[j]
    ensures i < j && calls[i].draw.refreshToken == token && token !in stores[i] && token in stores[i + 1]
    ensures stores[i + 1][token].expiresAt == calls[i].draw.now + 7 * 24 * 3600
    decreases j
  {
    assert stores[j - 1 + 1] == Outcome(stores[j - 1], calls[j - 1]).0;
    if token in stores[j - 1] {
      i := ExchangedWasIssued(stores, calls, j - 1, token);
    } else {
      i := j - 1;
    }
  }
}
