/**
 The service account's tokens (packages/shared/src/email-graph.ts): refreshers serialized by a lock on
 the single account row, each exchanging the stored refresh token (section 6 of RFC 6749) for a rotated
 one, with reconnects and disconnects competing for the row.
 */
module TokenRefresh {
  import opened Common

  /** A cached access token is used only while it is valid for longer than this. */
  const MIN_TOKEN_VALIDITY := 120000

  type Token = nat

  /** A token encrypted under a key. */
  datatype Sealed = Sealed(key: nat, token: Token)

  function Decrypt(s: Sealed, key: nat): Option<Token> {
    if s.key == key then Some(s.token) else None
  }

  datatype Cached = Cached(access: Sealed, expiresAt: int)

  /** The single row. */
  datatype Account = Account(refresh: Sealed, cached: Option<Cached>, error: bool)

  datatype FreshToken = Ok(access: Token) | NotConnected | RefreshFailed

  /** What the token endpoint answers: new tokens, perhaps without a refresh token, or an error. */
  datatype Response = Granted(access: Token, rotated: Option<Token>, expiresIn: nat) | Refused

  // ----- one call, uninterrupted --------------------------------------------------------------

  predicate FreshEnough(row: Account, now: int) {
    row.cached.Some? && row.cached.value.expiresAt > now + MIN_TOKEN_VALIDITY
  }

  /** The cached token can be used: it is fresh enough and the key opens it. */
  predicate UsesCache(row: Account, key: nat, now: int) {
    FreshEnough(row, now) && Decrypt(row.cached.value.access, key).Some?
  }

  /** The row after the endpoint granted tokens. */
  function Renewed(key: nat, refresh: Token, r: Response, now: int): Account
    requires r.Granted?
  {
    var kept := if r.rotated.Some? then r.rotated.value else refresh;
    Account(Sealed(key, kept), Some(Cached(Sealed(key, r.access), now + r.expiresIn * 1000)), false)
  }

  /** What a call returns and the row it leaves. */
  function Outcome(row: Option<Account>, key: nat, now: int, response: Response): (FreshToken, Option<Account>) {
    if row.None? then (NotConnected, row)
    else if UsesCache(row.value, key, now) then (Ok(row.value.cached.value.access.token), row)
    else
      var refresh := Decrypt(row.value.refresh, key);
      if refresh.Some? && response.Granted? then (Ok(response.access), Some(Renewed(key, refresh.value, response, now)))
      else (RefreshFailed, Some(row.value.(error := true)))
  }

  /** A token comes back without the endpoint if and only if the row holds one that opens with the key and is valid for
      more than two minutes. */
  lemma NotAskedIff(row: Account, key: nat, now: int)
    ensures Outcome(Some(row), key, now, Refused).0.Ok? <==>
      row.cached.Some? && row.cached.value.access.key == key && row.cached.value.expiresAt > now + 120000
    ensures Outcome(Some(row), key, now, Refused).0.Ok? ==>
      forall r :: Outcome(Some(row), key, now, r) == (Ok(row.cached.value.access.token), Some(row))
  {
  }

  /** What a refresh leaves opens with the key, as what was granted, and shows no error. */
  lemma RefreshLeaves(row: Account, key: nat, now: int, response: Response)
    requires Outcome(Some(row), key, now, Refused) == (RefreshFailed, Some(row.(error := true)))
    requires row.refresh.key == key && response.Granted?
    ensures var (r, after) := Outcome(Some(row), key, now, response);
      && r == Ok(response.access) && after.Some? && !after.value.error && after.value.cached.Some?
      && Decrypt(after.value.cached.value.access, key) == Some(response.access)
      && after.value.cached.value.expiresAt == now + 1000 * response.expiresIn
      && Decrypt(after.value.refresh, key) == (if response.rotated.Some? then response.rotated else Some(row.refresh.token))
  {
  }

  class Mailbox {
    var row: Option<Account>

    /** A valid access token: the cached one, or one from a refresh, which is stored with the rotated
        refresh token. */
    method EnsureFreshAccessToken(key: nat, now: int, response: Response) returns (r: FreshToken)
      modifies this
      ensures old(row).None? ==> r == NotConnected && row == old(row)
      ensures old(row).Some? && UsesCache(old(row).value, key, now) ==>
        r == Ok(old(row).value.cached.value.access.token) && row == old(row)
      ensures old(row).Some? && !UsesCache(old(row).value, key, now) ==>
        var refresh := Decrypt(old(row).value.refresh, key);
        if refresh.Some? && response.Granted?
        then r == Ok(response.access) && row == Some(Renewed(key, refresh.value, response, now))
        else r == RefreshFailed && row == Some(old(row).value.(error := true))
      ensures (r, row) == Outcome(old(row), key, now, response)
    {
      if row.None? {
        return NotConnected;
      }
      var account := row.value;
      if account.cached.Some? {
        if account.cached.value.expiresAt > now + MIN_TOKEN_VALIDITY {
          var access := Decrypt(account.cached.value.access, key);
          if access.Some? {
            return Ok(access.value);
          }
        }
      }
      var refresh := Decrypt(account.refresh, key);
      if refresh.None? {
        row := Some(account.(error := true));
        return RefreshFailed;
      }
      match response {
        case Refused =>
          row := Some(account.(error := true));
          return RefreshFailed;
        case Granted(access, rotated, expiresIn) =>
          var kept := if rotated.Some? then rotated.value else refresh.value;
          row := Some(Account(Sealed(key, kept), Some(Cached(Sealed(key, access), now + expiresIn * 1000)), false));
          return Ok(access);
      }
    }
  }

  // ----- many calls, interleaved --------------------------------------------------------------

  /** A refresher by what it has done: holding the lock, or holding it with the endpoint's answer. */
  datatype Phase = Locked(key: nat) | Answered(key: nat, refresh: Token, response: Response, at: int) | Done(result: FreshToken)

  /** What an admin was granted: tokens, how long the access token lasts, and when. */
  datatype Grant = Grant(refresh: Token, access: Token, expiresIn: nat, at: int)

  /** What a call returned: the token, its expiry, when, and whether the call minted it. */
  datatype Returned = Returned(id: nat, access: Token, expiresAt: int, at: int, minted: bool)

  /** The row and its lock, the calls, and the endpoint: the refresh tokens it accepts and those it has
      superseded, and when each access token it granted expires. `waiting` holds what an admin was granted and
      has not saved, `slowest` the longest time between a grant and its storing. */
  datatype State = State(
    now: int, row: Option<Account>, lock: Option<nat>, calls: map<nat, Phase>, waiting: map<nat, Grant>,
    accepted: set<Token>, superseded: set<Token>, expires: map<Token, int>, next: Token, slowest: int,
    presented: seq<Token>, returned: seq<Returned>)

  datatype Event =
    | Tick(ms: nat)
    | Lock(id: nat, key: nat)
    | UseCached(id: nat)
    | CannotDecrypt(id: nat)
    | Exchange(id: nat, rotates: bool, expiresIn: nat)
    | ExchangeFails(id: nat)
    | Store(id: nat)
    | Authorize(admin: nat, expiresIn: nat)
    | Save(admin: nat, key: nat)
    | Disconnect

  function Initial(now: int): State {
    State(now, None, None, map[], map[], {}, {}, map[], 0, 0, [], [])
  }

  predicate Holds(s: State, id: nat) {
    s.lock == Some(id) && s.row.Some? && id in s.calls
  }

  /** Take the lock, or find no account. */
  function DoLock(s: State, id: nat, key: nat): State {
    if id in s.calls then s
    else if s.row.None? then s.(calls := s.calls[id := Done(NotConnected)])
    else if s.lock.Some? then s
    else s.(lock := Some(id), calls := s.calls[id := Locked(key)])
  }

  function DoUseCached(s: State, id: nat): State {
    if Holds(s, id) && s.calls[id].Locked? && UsesCache(s.row.value, s.calls[id].key, s.now) then
      var c := s.row.value.cached.value;
      s.(lock := None, calls := s.calls[id := Done(Ok(c.access.token))],
         returned := s.returned + [Returned(id, c.access.token, c.expiresAt, s.now, false)])
    else s
  }

  /** Commit a failure. */
  function DoFail(s: State, id: nat, decrypts: bool): State {
    if Holds(s, id) && s.calls[id].Locked? && !UsesCache(s.row.value, s.calls[id].key, s.now)
      && Decrypt(s.row.value.refresh, s.calls[id].key).Some? == decrypts
    then
      s.(lock := None, row := Some(s.row.value.(error := true)), calls := s.calls[id := Done(RefreshFailed)],
         presented := if decrypts then s.presented + [s.row.value.refresh.token] else s.presented)
    else s
  }

  /** Present the stored token; the endpoint supersedes it when it rotates. */
  function DoExchange(s: State, id: nat, rotates: bool, expiresIn: nat): State {
    if Holds(s, id) && s.calls[id].Locked? && !UsesCache(s.row.value, s.calls[id].key, s.now)
      && Decrypt(s.row.value.refresh, s.calls[id].key).Some?
    then
      var t := s.row.value.refresh.token;
      var response := Granted(s.next, if rotates then Some(s.next + 1) else None, expiresIn);
      s.(calls := s.calls[id := Answered(s.calls[id].key, t, response, s.now)],
         presented := s.presented + [t],
         accepted := if rotates then s.accepted - {t} + {s.next + 1} else s.accepted,
         superseded := if rotates then s.superseded + {t} else s.superseded,
         expires := s.expires[s.next := s.now + expiresIn * 1000],
         next := s.next + 2)
    else s
  }

  /** Store the answer and commit. */
  function DoStore(s: State, id: nat): State {
    if Holds(s, id) && s.calls[id].Answered? && s.calls[id].response.Granted? then
      var c := s.calls[id];
      var renewed := Renewed(c.key, c.refresh, c.response, s.now);
      s.(lock := None, row := Some(renewed), slowest := Max(s.slowest, s.now - c.at), calls := s.calls[id := Done(Ok(c.response.access))],
         returned := s.returned + [Returned(id, c.response.access, renewed.cached.value.expiresAt, s.now, true)])
    else s
  }

  /** An admin is granted tokens. */
  function DoAuthorize(s: State, admin: nat, expiresIn: nat): State {
    if admin in s.waiting then s
    else
      s.(waiting := s.waiting[admin := Grant(s.next, s.next + 1, expiresIn, s.now)], accepted := s.accepted + {s.next},
         expires := s.expires[s.next + 1 := s.now + expiresIn * 1000], next := s.next + 2)
  }

  /** They replace the row. */
  function DoSave(s: State, admin: nat, key: nat): State {
    if admin in s.waiting && s.lock.None? then
      var g := s.waiting[admin];
      s.(row := Some(Account(Sealed(key, g.refresh), Some(Cached(Sealed(key, g.access), s.now + g.expiresIn * 1000)), false)),
         waiting := s.waiting - {admin}, slowest := Max(s.slowest, s.now - g.at))
    else s
  }

  function Apply(s: State, e: Event): State {
    match e
    case Tick(ms) => s.(now := s.now + ms)
    case Lock(id, key) => DoLock(s, id, key)
    case UseCached(id) => DoUseCached(s, id)
    case CannotDecrypt(id) => DoFail(s, id, false)
    case Exchange(id, rotates, expiresIn) => DoExchange(s, id, rotates, expiresIn)
    case ExchangeFails(id) => DoFail(s, id, true)
    case Store(id) => DoStore(s, id)
    case Authorize(admin, expiresIn) => DoAuthorize(s, admin, expiresIn)
    case Save(admin, key) => DoSave(s, admin, key)
    case Disconnect => if s.lock.None? then s.(row := None) else s
  }

  function Run(s: State, events: seq<Event>): State
    decreases |events|
  {
    if events == [] then s else Run(Apply(s, events[0]), events[1..])
  }

  // ----- the invariant ------------------------------------------------------------------------

  /** The refresh token the account is left with once the lock is free: the stored one, or the one the
      holder's answer carries. */
  function Current(s: State): Option<Token> {
    if s.row.None? then None
    else if s.lock.Some? && s.lock.value in s.calls && s.calls[s.lock.value].Answered?
      && s.calls[s.lock.value].response.Granted? && s.calls[s.lock.value].response.rotated.Some?
    then s.calls[s.lock.value].response.rotated
    else Some(s.row.value.refresh.token)
  }

  /** The lock is held by the one call in progress, on a row that is there. */
  ghost predicate OneHolder(s: State) {
    && (s.lock.Some? ==> s.row.Some? && s.lock.value in s.calls && !s.calls[s.lock.value].Done?)
    && (forall id :: id in s.calls && !s.calls[id].Done? ==> s.lock == Some(id))
    && (forall id :: id in s.calls && s.calls[id].Answered? && s.row.Some? ==>
      s.calls[id].response.Granted? && s.calls[id].refresh == s.row.value.refresh.token)
  }

  /** The account's token and every unsaved one are accepted and different. */
  ghost predicate TokensSound(s: State) {
    && (Current(s).Some? ==> Current(s).value in s.accepted)
    && (forall a :: a in s.waiting ==> s.waiting[a].refresh in s.accepted && Current(s) != Some(s.waiting[a].refresh))
    && (forall a, b :: a in s.waiting && b in s.waiting && s.waiting[a].refresh == s.waiting[b].refresh ==> a == b)
    && (forall t :: t in s.accepted ==> t < s.next)
    && (forall t :: t in s.superseded ==> t < s.next)
    && s.accepted !! s.superseded
  }

  /** Every returned token had enough validity left or was minted by its call. */
  ghost predicate ReturnsSound(s: State) {
    forall i :: 0 <= i < |s.returned| ==>
      s.returned[i].minted || s.returned[i].expiresAt > s.returned[i].at + MIN_TOKEN_VALIDITY
  }

  /** A recorded expiry is at most the slowest storing behind the real one. */
  predicate Recorded(s: State, access: Token, expiresAt: int) {
    access in s.expires && s.expires[access] <= expiresAt <= s.expires[access] + s.slowest
  }

  /** A granted token expires as granted. */
  predicate GrantedAt(s: State, access: Token, expiresIn: nat, at: int) {
    at <= s.now && access in s.expires && s.expires[access] == at + expiresIn * 1000
  }

  ghost predicate GrantsSound(s: State) {
    && s.slowest >= 0 && (forall t :: t in s.expires ==> t < s.next)
    && (forall id :: id in s.calls && s.calls[id].Answered? && s.calls[id].response.Granted? ==>
      GrantedAt(s, s.calls[id].response.access, s.calls[id].response.expiresIn, s.calls[id].at))
    && (forall a :: a in s.waiting ==> GrantedAt(s, s.waiting[a].access, s.waiting[a].expiresIn, s.waiting[a].at))
  }

  /** Every expiry stored or returned is recorded so. */
  ghost predicate RecordsSound(s: State) {
    && (s.row.Some? && s.row.value.cached.Some? ==>
      Recorded(s, s.row.value.cached.value.access.token, s.row.value.cached.value.expiresAt))
    && (forall i :: 0 <= i < |s.returned| ==> Recorded(s, s.returned[i].access, s.returned[i].expiresAt))
  }

  ghost predicate RowSound(s: State) {
    OneHolder(s) && TokensSound(s) && ReturnsSound(s)
  }

  ghost predicate Sound(s: State) {
    RowSound(s) && GrantsSound(s) && RecordsSound(s)
  }

  /** What was recorded stays recorded when no known token changes and storing got no faster. */
  lemma RecordedStays(s: State, s': State, access: Token, expiresAt: int)
    requires Recorded(s, access, expiresAt) && s.slowest <= s'.slowest
    requires forall t :: t in s.expires ==> t in s'.expires && s'.expires[t] == s.expires[t]
    ensures Recorded(s', access, expiresAt)
  {
  }

  lemma AllRecordedStay(s: State, s': State)
    requires RecordsSound(s) && s'.returned == s.returned && s.slowest <= s'.slowest
    requires forall t :: t in s.expires ==> t in s'.expires && s'.expires[t] == s.expires[t]
    ensures forall i :: 0 <= i < |s'.returned| ==> Recorded(s', s'.returned[i].access, s'.returned[i].expiresAt)
    ensures s.row.Some? && s.row.value.cached.Some? ==>
      Recorded(s', s.row.value.cached.value.access.token, s.row.value.cached.value.expiresAt)
  {
    hide Recorded;
    forall i | 0 <= i < |s'.returned| ensures Recorded(s', s'.returned[i].access, s'.returned[i].expiresAt) {
      RecordedStays(s, s', s.returned[i].access, s.returned[i].expiresAt);
    }
    if s.row.Some? && s.row.value.cached.Some? {
      RecordedStays(s, s', s.row.value.cached.value.access.token, s.row.value.cached.value.expiresAt);
    }
  }

  lemma LockKeeps(s: State, id: nat, key: nat)
    requires RowSound(s)
    ensures RowSound(DoLock(s, id, key))
  {
  }

  lemma UseCachedKeeps(s: State, id: nat)
    requires RowSound(s)
    ensures RowSound(DoUseCached(s, id))
  {
  }

  lemma FailKeeps(s: State, id: nat, decrypts: bool)
    requires RowSound(s)
    ensures RowSound(DoFail(s, id, decrypts))
  {
  }

  lemma ExchangeKeeps(s: State, id: nat, rotates: bool, expiresIn: nat)
    requires RowSound(s)
    ensures RowSound(DoExchange(s, id, rotates, expiresIn))
  {
  }

  lemma StoreKeeps(s: State, id: nat)
    requires RowSound(s)
    ensures RowSound(DoStore(s, id))
  {
  }

  lemma AuthorizeKeeps(s: State, admin: nat, expiresIn: nat)
    requires RowSound(s)
    ensures RowSound(DoAuthorize(s, admin, expiresIn))
  {
  }

  lemma SaveKeeps(s: State, admin: nat, key: nat)
    requires RowSound(s)
    ensures RowSound(DoSave(s, admin, key))
  {
  }

  lemma LockGrants(s: State, id: nat, key: nat)
    requires GrantsSound(s)
    ensures GrantsSound(DoLock(s, id, key))
  {
  }

  lemma UseCachedGrants(s: State, id: nat)
    requires GrantsSound(s)
    ensures GrantsSound(DoUseCached(s, id))
  {
  }

  lemma FailGrants(s: State, id: nat, decrypts: bool)
    requires GrantsSound(s)
    ensures GrantsSound(DoFail(s, id, decrypts))
  {
  }

  lemma ExchangeGrants(s: State, id: nat, rotates: bool, expiresIn: nat)
    requires GrantsSound(s)
    ensures GrantsSound(DoExchange(s, id, rotates, expiresIn))
  {
  }

  lemma StoreGrants(s: State, id: nat)
    requires GrantsSound(s)
    ensures GrantsSound(DoStore(s, id))
  {
  }

  lemma AuthorizeGrants(s: State, admin: nat, expiresIn: nat)
    requires GrantsSound(s)
    ensures GrantsSound(DoAuthorize(s, admin, expiresIn))
  {
  }

  lemma SaveGrants(s: State, admin: nat, key: nat)
    requires GrantsSound(s)
    ensures GrantsSound(DoSave(s, admin, key))
  {
  }

  lemma LockRecords(s: State, id: nat, key: nat)
    requires RecordsSound(s)
    ensures RecordsSound(DoLock(s, id, key))
  {
    hide GrantedAt, Recorded;
    var s' := DoLock(s, id, key);
    AllRecordedStay(s, s');
  }

  lemma UseCachedRecords(s: State, id: nat)
    requires RecordsSound(s)
    ensures RecordsSound(DoUseCached(s, id))
  {
    hide GrantedAt;
    var s' := DoUseCached(s, id);
    AllRecordedStay(s, s'.(returned := s.returned));
  }

  lemma FailRecords(s: State, id: nat, decrypts: bool)
    requires RecordsSound(s)
    ensures RecordsSound(DoFail(s, id, decrypts))
  {
    hide GrantedAt, Recorded;
    var s' := DoFail(s, id, decrypts);
    AllRecordedStay(s, s');
  }

  lemma ExchangeRecords(s: State, id: nat, rotates: bool, expiresIn: nat)
    requires GrantsSound(s) && RecordsSound(s)
    ensures RecordsSound(DoExchange(s, id, rotates, expiresIn))
  {
    hide GrantedAt, Recorded;
    var s' := DoExchange(s, id, rotates, expiresIn);
    AllRecordedStay(s, s');
  }

  lemma StoreRecords(s: State, id: nat)
    requires GrantsSound(s) && RecordsSound(s)
    ensures RecordsSound(DoStore(s, id))
  {
    var s' := DoStore(s, id);
    AllRecordedStay(s, s'.(returned := s.returned));
  }

  lemma AuthorizeRecords(s: State, admin: nat, expiresIn: nat)
    requires GrantsSound(s) && RecordsSound(s)
    ensures RecordsSound(DoAuthorize(s, admin, expiresIn))
  {
    hide GrantedAt, Recorded;
    var s' := DoAuthorize(s, admin, expiresIn);
    AllRecordedStay(s, s');
  }

  lemma SaveRecords(s: State, admin: nat, key: nat)
    requires GrantsSound(s) && RecordsSound(s)
    ensures RecordsSound(DoSave(s, admin, key))
  {
    var s' := DoSave(s, admin, key);
    AllRecordedStay(s, s');
  }

  lemma StepKeeps(s: State, e: Event)
    requires Sound(s)
    ensures Sound(Apply(s, e))
  {
    hide DoLock, DoUseCached, DoFail, DoExchange, DoStore, DoAuthorize, DoSave, RowSound, GrantsSound, RecordsSound;
    match e
    case Lock(id, key) =>
      LockKeeps(s, id, key);
      LockGrants(s, id, key);
      LockRecords(s, id, key);
    case UseCached(id) =>
      UseCachedKeeps(s, id);
      UseCachedGrants(s, id);
      UseCachedRecords(s, id);
    case CannotDecrypt(id) =>
      FailKeeps(s, id, false);
      FailGrants(s, id, false);
      FailRecords(s, id, false);
    case ExchangeFails(id) =>
      FailKeeps(s, id, true);
      FailGrants(s, id, true);
      FailRecords(s, id, true);
    case Exchange(id, rotates, expiresIn) =>
      ExchangeKeeps(s, id, rotates, expiresIn);
      ExchangeGrants(s, id, rotates, expiresIn);
      ExchangeRecords(s, id, rotates, expiresIn);
    case Store(id) =>
      StoreKeeps(s, id);
      StoreGrants(s, id);
      StoreRecords(s, id);
    case Authorize(admin, expiresIn) =>
      AuthorizeKeeps(s, admin, expiresIn);
      AuthorizeGrants(s, admin, expiresIn);
      AuthorizeRecords(s, admin, expiresIn);
    case Save(admin, key) =>
      SaveKeeps(s, admin, key);
      SaveGrants(s, admin, key);
      SaveRecords(s, admin, key);
    case Tick(ms) => TickKeeps(s, ms);
    case Disconnect =>
      if s.lock.None? {
        DisconnectKeeps(s);
      }
  }

  lemma TickKeeps(s: State, ms: nat)
    requires Sound(s)
    ensures Sound(s.(now := s.now + ms))
  {
    var s' := s.(now := s.now + ms);
    assert RowSound(s') by { hide GrantsSound, RecordsSound; }
    assert GrantsSound(s') by { hide RowSound, RecordsSound; }
    hide RowSound, GrantsSound, Recorded;
    AllRecordedStay(s, s');
  }

  lemma DisconnectKeeps(s: State)
    requires Sound(s) && s.lock.None?
    ensures Sound(s.(row := None))
  {
    var s' := s.(row := None);
    assert RowSound(s') by { hide GrantsSound, RecordsSound; }
    assert GrantsSound(s') by { hide RowSound, RecordsSound; }
    hide RowSound, GrantsSound, Recorded;
    AllRecordedStay(s, s');
  }

  lemma {:induction false} RunKeeps(s: State, events: seq<Event>)
    requires Sound(s)
    ensures Sound(Run(s, events))
    decreases |events|
  {
    hide Sound, Apply;
    if events != [] {
      StepKeeps(s, events[0]);
      RunKeeps(Apply(s, events[0]), events[1..]);
    }
  }

  /** Whenever the row is unlocked, its refresh token is one the endpoint accepts and has not
      superseded. */
  lemma StoredTokenAccepted(now: int, events: seq<Event>)
    ensures var s := Run(Initial(now), events);
      s.lock.None? && s.row.Some? ==>
        s.row.value.refresh.token in s.accepted && s.row.value.refresh.token !in s.superseded
  {
    hide Run, Apply;
    RunKeeps(Initial(now), events);
  }

  /** What one step presents was accepted, and not superseded, when it was presented. */
  lemma PresentsAccepted(now: int, events: seq<Event>, e: Event)
    ensures var s := Run(Initial(now), events);
      var s' := Apply(s, e);
      s'.presented == s.presented || (
        && |s'.presented| == |s.presented| + 1
        && s'.presented[|s.presented|] in s.accepted && s'.presented[|s.presented|] !in s.superseded)
  {
    hide Run;
    RunKeeps(Initial(now), events);
  }

  /** Every access token returned expires, at the endpoint, over two minutes later, less the longest time a grant took
      to be stored, or was minted by the call that returned it. Its recorded expiry is the real one up to that time. */
  lemma ReturnedTokensFresh(now: int, events: seq<Event>, i: nat)
    requires i < |Run(Initial(now), events).returned|
    ensures var s := Run(Initial(now), events);
      var r := s.returned[i];
      && r.access in s.expires && s.expires[r.access] <= r.expiresAt <= s.expires[r.access] + s.slowest
      && (r.minted || s.expires[r.access] > r.at + 120000 - s.slowest)
  {
    hide Run, Apply;
    RunKeeps(Initial(now), events);
  }

  // ----- the code is a run of the steps -------------------------------------------------------

  lemma RunTwo(s: State, a: Event, b: Event)
    ensures Run(s, [a, b]) == Apply(Apply(s, a), b)
  {
    hide Apply;
    assert [a, b][1..] == [b] && [b][1..] == [];
    assert Run(Apply(s, a), [b]) == Run(Apply(Apply(s, a), b), []);
  }

  lemma RunThree(s: State, a: Event, b: Event, c: Event)
    ensures Run(s, [a, b, c]) == Apply(Apply(Apply(s, a), b), c)
  {
    hide Apply;
    assert [a, b, c][1..] == [b, c];
    RunTwo(Apply(s, a), b, c);
  }

  /** How the endpoint treats an exchange: an error, or new tokens. */
  datatype Reply = Refuses | Grants(rotates: bool, expiresIn: nat)

  /** Its answer: fresh tokens. */
  function Answer(s: State, reply: Reply): Response {
    match reply
    case Refuses => Refused
    case Grants(rotates, expiresIn) => Granted(s.next, if rotates then Some(s.next + 1) else None, expiresIn)
  }

  /** The steps of a call that is not interrupted. */
  function CallSteps(s: State, id: nat, key: nat, reply: Reply): seq<Event> {
    if s.row.None? then [Lock(id, key)]
    else if UsesCache(s.row.value, key, s.now) then [Lock(id, key), UseCached(id)]
    else if Decrypt(s.row.value.refresh, key).None? then [Lock(id, key), CannotDecrypt(id)]
    else if reply.Refuses? then [Lock(id, key), ExchangeFails(id)]
    else [Lock(id, key), Exchange(id, reply.rotates, reply.expiresIn), Store(id)]
  }

  /** An uninterrupted call is a run of the steps with the result and the row of `EnsureFreshAccessToken`,
      and leaves the row unlocked. */
  lemma CallIsRun(s: State, id: nat, key: nat, reply: Reply)
    requires s.lock.None? && id !in s.calls
    ensures var s' := Run(s, CallSteps(s, id, key, reply));
      && s'.lock == None && id in s'.calls && s'.calls[id].Done?
      && (s'.calls[id].result, s'.row) == Outcome(s.row, key, s.now, Answer(s, reply))
  {
    hide Run;
    var lock := Lock(id, key);
    var s1 := Apply(s, lock);
    RunOne(s, lock);
    RunTwo(s, lock, UseCached(id));
    RunTwo(s, lock, CannotDecrypt(id));
    RunTwo(s, lock, ExchangeFails(id));
    if reply.Grants? {
      RunThree(s, lock, Exchange(id, reply.rotates, reply.expiresIn), Store(id));
    }
    assert s.row.Some? ==> s1.lock == Some(id) && s1.calls[id] == Locked(key) && s1.row == s.row;
  }

  lemma RunOne(s: State, a: Event)
    ensures Run(s, [a]) == Apply(s, a)
  {
    hide Apply;
    assert [a][1..] == [];
    assert Run(Apply(s, a), []) == Apply(s, a);
  }
}
