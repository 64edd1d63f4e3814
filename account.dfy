/** The user slice of the Redux store: one plain object holding four
    request/session flags next to whatever user fields the gateway returned,
    and the reducer that applies the account actions to it. */
module Account {
  import opened JsValue

  const IsInitialized := "isInitialized"
  const IsLoading := "isLoading"
  const IsRequesting := "isRequesting"
  const IsAuthenticated := "isAuthenticated"

  /** The account record. The flags are ordinary properties: a payload that
      carries one of these names overrides it like any other field. */
  type AccountRecord = Record

  /** The actions of the `users` module. The generic request/success/error
      types come from the action templates; `Other` is any action of a type
      the reducer has no case for. */
  datatype AccountAction =
    | GetRequest
    | GetSuccess(data: Record)
    | GetError
    | PostRequest
    | PostSuccess(data: Record)
    | PostError
    | PutRequest
    | PutSuccess
    | PutError
    | OnChange(data: Record)
    | LoginSuccess(data: Record)
    | LogoutSuccess
    | Other(kind: string)

  /** Reading a flag the way the views do, through truthiness. */
  predicate Flag(r: AccountRecord, name: string) {
    Truthy(Get(r, name))
  }

  /** `initialState`: the four flags, all false, and nothing else. */
  function InitialRecord(): (r: AccountRecord)
    ensures r.Keys == {IsInitialized, IsLoading, IsRequesting, IsAuthenticated}
    ensures r[IsInitialized] == Bool(false) && r[IsLoading] == Bool(false)
    ensures r[IsRequesting] == Bool(false) && r[IsAuthenticated] == Bool(false)
    ensures !Flag(r, IsInitialized) && !Flag(r, IsLoading) && !Flag(r, IsRequesting) && !Flag(r, IsAuthenticated)
  {
    map[IsInitialized := Bool(false), IsLoading := Bool(false),
        IsRequesting := Bool(false), IsAuthenticated := Bool(false)]
  }

  /** The reducer. Only login and logout drop fields; a login always
      leaves the user authenticated and a logout never does. */
  function Reduce(s: AccountRecord, a: AccountAction): (r: AccountRecord)
    ensures !a.LoginSuccess? && !a.LogoutSuccess? ==> s.Keys <= r.Keys
    ensures a.LoginSuccess? ==> Flag(r, IsAuthenticated)
    ensures a.LogoutSuccess? ==> !Flag(r, IsAuthenticated) && r.Keys == InitialRecord().Keys
  {
    match a
    case GetRequest => Spread(s, map[IsLoading := Bool(true)])
    case GetSuccess(data) =>
      Spread(Spread(s, map[IsInitialized := Bool(true), IsLoading := Bool(false)]), data)
    case GetError => s
    case PostRequest => Spread(s, map[IsRequesting := Bool(true)])
    case PostSuccess(data) => Spread(Spread(s, map[IsRequesting := Bool(false)]), data)
    case PostError => s
    case OnChange(data) => Spread(s, data)
    case LoginSuccess(data) =>
      Spread(SpreadOf(Get(data, "user")),
             map["id" := Get(data, "id"), "token" := Get(data, "token"), IsAuthenticated := Bool(true)])
    case LogoutSuccess => InitialRecord()
    case PutRequest => s
    case PutSuccess => s
    case PutError => s
    case Other(_) => s
  }

  /** The payload `login()` hands to `loginSuccess`: the user object and
      its `pk` as `id` (and no token). */
  function LoginPayload(user: Record): (r: Record)
    ensures r.Keys == {"user", "id"} && "token" !in r
    ensures r["user"] == Obj(user) && r["id"] == Get(user, "pk")
  {
    map["user" := Obj(user), "id" := Get(user, "pk")]
  }

  /** The payload `get()` hands to `getSuccess`: the first user returned,
      marked as authenticated. */
  function GetPayload(user: Record): (r: Record)
    ensures r.Keys == user.Keys + {IsAuthenticated} && r[IsAuthenticated] == Bool(true)
    ensures Flag(r, IsAuthenticated)
    ensures forall k :: k in user && k != IsAuthenticated ==> r[k] == user[k]
  {
    Spread(user, map[IsAuthenticated := Bool(true)])
  }

  /** Logging out (or deleting the account) restores the initial record
      whatever came before: four false flags and no other field. */
  lemma LogoutRestoresInitial(s: AccountRecord)
    ensures Reduce(s, LogoutSuccess) == InitialRecord()
    ensures Reduce(s, LogoutSuccess).Keys == {IsInitialized, IsLoading, IsRequesting, IsAuthenticated}
    ensures !Flag(Reduce(s, LogoutSuccess), IsInitialized) && !Flag(Reduce(s, LogoutSuccess), IsLoading)
    ensures !Flag(Reduce(s, LogoutSuccess), IsRequesting) && !Flag(Reduce(s, LogoutSuccess), IsAuthenticated)
  {
  }

  /** A successful login does not depend on the previous record, whatever
      the payload. */
  lemma LoginIgnoresPriorRecord(s1: AccountRecord, s2: AccountRecord, data: Record)
    ensures Reduce(s1, LoginSuccess(data)) == Reduce(s2, LoginSuccess(data))
  {
  }

  /** A successful login with a user object replaces the record wholesale:
      it holds the user's fields, `id` and `token` from the payload, and
      `isAuthenticated` true; no other field survives (the loading flags
      only if the user object carries them). */
  lemma LoginReplacesRecord(s: AccountRecord, data: Record, user: Record)
    requires Get(data, "user") == Obj(user)
    ensures var r := Reduce(s, LoginSuccess(data));
      r.Keys == user.Keys + {"id", "token", IsAuthenticated} &&
      r[IsAuthenticated] == Bool(true) && Flag(r, IsAuthenticated) &&
      r["id"] == Get(data, "id") && r["token"] == Get(data, "token") &&
      (forall k :: k in user && k !in {"id", "token", IsAuthenticated} ==> r[k] == user[k])
  {
  }

  /** The login flow's own payload never carries a token, so the record's
      `token` is `undefined` after every login; `id` is the user's `pk`. */
  lemma LoginLeavesTokenUndefined(s: AccountRecord, user: Record)
    ensures var r := Reduce(s, LoginSuccess(LoginPayload(user)));
      r["token"] == Undefined && r["id"] == Get(user, "pk") && Flag(r, IsAuthenticated) &&
      (IsLoading !in user ==> IsLoading !in r) && (IsInitialized !in user ==> IsInitialized !in r)
  {
  }

  /** A get request raises `isLoading` and changes nothing else. */
  lemma GetRequestSetsLoading(s: AccountRecord)
    ensures var r := Reduce(s, GetRequest);
      r.Keys == s.Keys + {IsLoading} && r[IsLoading] == Bool(true) &&
      forall k :: k in s && k != IsLoading ==> r[k] == s[k]
  {
  }

  /** A post request raises `isRequesting` and changes nothing else. */
  lemma PostRequestSetsRequesting(s: AccountRecord)
    ensures var r := Reduce(s, PostRequest);
      r.Keys == s.Keys + {IsRequesting} && r[IsRequesting] == Bool(true) &&
      forall k :: k in s && k != IsRequesting ==> r[k] == s[k]
  {
  }

  /** A get success marks the record initialised and not loading, then
      merges the data: every key of the data wins, flags included; every
      other field keeps its value. */
  lemma GetSuccessMerges(s: AccountRecord, data: Record)
    ensures var r := Reduce(s, GetSuccess(data));
      r.Keys == s.Keys + data.Keys + {IsInitialized, IsLoading} &&
      (forall k :: k in data ==> r[k] == data[k]) &&
      (IsInitialized !in data ==> r[IsInitialized] == Bool(true)) &&
      (IsLoading !in data ==> r[IsLoading] == Bool(false)) &&
      (forall k :: k in s && k !in data && k != IsInitialized && k != IsLoading ==> r[k] == s[k])
  {
  }

  /** A post success lowers `isRequesting`, then merges the data the same
      way. */
  lemma PostSuccessMerges(s: AccountRecord, data: Record)
    ensures var r := Reduce(s, PostSuccess(data));
      r.Keys == s.Keys + data.Keys + {IsRequesting} &&
      (forall k :: k in data ==> r[k] == data[k]) &&
      (IsRequesting !in data ==> r[IsRequesting] == Bool(false)) &&
      (forall k :: k in s && k !in data && k != IsRequesting ==> r[k] == s[k])
  {
  }

  /** A form change is a plain merge: the data's keys win, all others stay. */
  lemma OnChangeMerges(s: AccountRecord, data: Record)
    ensures var r := Reduce(s, OnChange(data));
      r.Keys == s.Keys + data.Keys &&
      (forall k :: k in data ==> r[k] == data[k]) &&
      (forall k :: k in s && k !in data ==> r[k] == s[k])
  {
  }

  /** Error actions, the put actions dispatched by `update()` and
      `destroy()`, and every unhandled type leave the record untouched; in
      particular a failed get leaves `isLoading` as it was. */
  lemma UnhandledActionsUnchanged(s: AccountRecord, a: AccountAction)
    requires a.GetError? || a.PostError? || a.PutRequest? || a.PutSuccess? || a.PutError? || a.Other?
    ensures Reduce(s, a) == s
  {
  }

  /** Session hydration after a login: `get()` raises `isLoading`, and its
      success leaves the record initialised, not loading and authenticated,
      unless the returned user itself carries one of those two flags. */
  lemma LoginThenGetHydrates(s: AccountRecord, loginUser: Record, fetched: Record)
    requires IsInitialized !in fetched && IsLoading !in fetched
    ensures var r := Reduce(Reduce(Reduce(s, LoginSuccess(LoginPayload(loginUser))), GetRequest),
                            GetSuccess(GetPayload(fetched)));
      Flag(r, IsInitialized) && !Flag(r, IsLoading) && Flag(r, IsAuthenticated) &&
      (forall k :: k in fetched && k != IsAuthenticated ==> r[k] == fetched[k])
  {
  }
}
