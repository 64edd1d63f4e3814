# Speaker directory client state, in Dafny

This project models the state layer of the speaker-directory web client. It covers the two Redux
reducers and the small pure helpers inside the account action creators:

- **Speaker slice** (`src/redux/modules/speaker.js`). This holds the search result list, the
  end-of-results flag, the search parameters and the speaker being viewed. `UPDATE_SPEAKERS` either
  appends a fetched batch to the list or replaces the list with it. In both modes the list is
  de-duplicated by `id` the way lodash `uniqBy` does it: the first occurrence wins and order is kept.
  The flag is recomputed from the batch length alone. `UPDATE_SPEAKER` sets the viewed speaker.
  `UPDATE_SEARCH_PARAMS` shallow-merges new parameters.
- **User slice** (`src/redux/modules/user.js`). This is one plain object holding the flags
  `isInitialized`, `isLoading`, `isRequesting` and `isAuthenticated`, next to whatever user fields
  the gateway returned. Request and success actions set flags and then merge their data.
  `LOGIN_SUCCESS` replaces the object, `LOGOUT_SUCCESS` resets it, and error and put actions change
  nothing.
- **Account helpers** (same file). These are the `Authorization: JWT <token>` header rule, the
  notification text built from a gateway error response, the choice between that notification and
  an error action, and the steps `validateToken` takes at start-up.

Modules:

- `JsValue` (`js_value.dfy`): JavaScript values, truthiness, property reads and object spread. A
  spread is Dafny's right-biased map union.
- `Dedup` (`dedup.dfy`): `uniqBy(list, 'id')` as a left-to-right scan, `UniqFrom`. It is tied to
  an independent reference, `FirstOccurrences`: the entries that are the first of their id, in
  order.
- `SpeakerStore` (`speaker_store.dfy`): the speaker state, its actions, the reducer `Reduce`, the
  fold `Run`, and the invariant that the list has no duplicate id.
- `Account` (`account.dfy`): the account record as one `map<string, Value>`, its actions and its
  reducer. The flags are ordinary keys because `...action.data` is spread last and may overwrite
  them. Views read the flags through truthiness (`Flag`).
- `AccountFlows` (`account_flows.dfy`): `AuthHeader`, `ErrorMessage`, `OnFailure`, and
  `validateToken`. `validateToken` is a list of effects (`ValidateTokenAsWritten`, `ValidateToken`)
  run by a small interpreter, `Perform`, over the account record, the token store and the route.

The action creators `updateSpeakers`, `updateSpeaker` and `updateSearchParams` are the constructors
of `SpeakerAction`. `DEFAULT_SPEAKER_LIMIT` and `IDENTITIES[0].label` live in a constants file that
is not part of this model. They are constants without a fixed value: the limit is only known to be
positive, so every lemma holds for any page size.

Three behaviours a reader of the code may not expect:

- A failed session fetch (`GetError`, src/redux/modules/user.js:503-507) leaves the record as it
  was, so `isLoading` stays true. It does not lower the loading flag.
- A rejected token in `validateToken` (src/redux/modules/user.js:140-144) does not log the user
  out (see Findings).
- `login()` (src/redux/modules/user.js:309-329) dispatches no request action, so it does not raise
  `isRequesting`.

## Model

| member | source | states |
|---|---|---|
| `JsValue.Spread` | src/redux/modules/user.js:530-535 | object spread: the result has the keys of both objects, every key of the later object takes its value, every other key keeps the earlier one |
| `Dedup.UniqFrom` | src/redux/modules/speaker.js:88 | the uniqBy scan returns a list no longer than its input, with no two entries sharing an id; its ids are exactly the input ids not already taken, and every entry comes from the input |
| `Dedup.UniqById` | src/redux/modules/speaker.js:94 | `uniqBy(list, 'id')` is duplicate-free, keeps exactly the set of ids of its input, never grows the list, and takes its entries from the input |
| `Dedup.UniqFromIsFirstOccurrences` | src/redux/modules/speaker.js:88 | the scan keeps, in their original order, exactly the entries whose id is not taken and not carried by an earlier entry (first occurrence wins) |
| `Dedup.UniqFromConcat` | src/redux/modules/speaker.js:88 | de-duplicating `a.concat(b)` de-duplicates `a`, then `b` with `a`'s ids already taken |
| `Dedup.UniqByIdIdempotent` | src/redux/modules/speaker.js:88 | de-duplication is the identity on an id-unique list, and applying it twice equals applying it once |
| `Dedup.AppendKeepsEarlier` | src/redux/modules/speaker.js:88 | de-duplicating old list plus batch gives the de-duplicated old list followed by the batch entries with new ids; the result is at most old length plus batch length |
| `SpeakerStore.InitialState` | src/redux/modules/speaker.js:73-80 | the initial state has an empty list, a false end flag, no viewed speaker, no selected location, the first identity label selected, and search parameters offset 0 and limit DEFAULT_SPEAKER_LIMIT |
| `SpeakerStore.Reduce` | src/redux/modules/speaker.js:82-113 | no action writes the two selections; only `UPDATE_SPEAKERS` writes the list and the flag, only `UPDATE_SEARCH_PARAMS` the parameters, only `UPDATE_SPEAKER` the viewed speaker; a batch always leaves a list without duplicate ids and an end flag that is true exactly when the batch is shorter than the page size |
| `SpeakerStore.Run` | src/redux/modules/speaker.js:82-113 | any sequence of dispatches leaves the selections as they were, and leaves the search parameters as they were when it holds no `UPDATE_SEARCH_PARAMS` |
| `SpeakerStore.InitialStateValid` | src/redux/modules/speaker.js:73-80 | the initial list has no duplicate id |
| `SpeakerStore.ReducePreservesValid` | src/redux/modules/speaker.js:82-113 | every action, in append or replace mode, keeps the list free of duplicate ids |
| `SpeakerStore.RunPreservesValid` | src/redux/modules/speaker.js:82-113 | any sequence of dispatches from a valid state keeps the list free of duplicate ids |
| `SpeakerStore.ReachableStatesValid` | src/redux/modules/speaker.js:82-113 | every state reached from the initial state by any sequence of actions has a duplicate-free list |
| `SpeakerStore.AppendKeepsExistingEntries` | src/redux/modules/speaker.js:85-90 | append mode keeps every existing entry in place with its own fields, then adds the batch's first entries of each new id in batch order; the ids become old ids plus batch ids; the length is at most old plus batch |
| `SpeakerStore.AppendExtendsDeduplicatedList` | src/redux/modules/speaker.js:88 | append mode from any state (even one with duplicates) starts the new list with the de-duplicated old list and bounds its length |
| `SpeakerStore.ReplaceDiscardsPrevious` | src/redux/modules/speaker.js:92-96 | replace mode discards the previous list: the result is the batch's first entries of each id, in order, and has the batch's ids |
| `SpeakerStore.EmptyReplaceEndsResults` | src/redux/modules/speaker.js:92-96 | `updateSpeakers([], false)` yields an empty list with the end-of-results flag set, from any state |
| `SpeakerStore.EndOfResultsFromBatchOnly` | src/redux/modules/speaker.js:85-96 | the end-of-results flag is true exactly when the batch is shorter than the page size; it does not depend on the previous list, the previous flag or the mode |
| `SpeakerStore.UpdateSpeakersFrame` | src/redux/modules/speaker.js:84-96 | updating the results leaves the search parameters, the viewed speaker and the selections unchanged |
| `SpeakerStore.UpdateSpeakerFrame` | src/redux/modules/speaker.js:97-101 | updating the viewed speaker sets it and changes no other field |
| `SpeakerStore.UpdateSearchParamsMerges` | src/redux/modules/speaker.js:102-109 | each given parameter takes its new value, every other parameter keeps its old one, and nothing outside the parameters changes |
| `SpeakerStore.OtherActionUnchanged` | src/redux/modules/speaker.js:110-111 | an action of any other type returns the state unchanged |
| `SpeakerStore.AppendScenario` | src/redux/modules/speaker.js:88 | appending ids 2 and 3 to ids 1 and 2 gives the entries for ids 1, 2 and 3, where id 2 keeps its original fields |
| `Account.InitialRecord` | src/redux/modules/user.js:478-483 | the initial record has exactly the four flags, each the boolean `false` (so none reads as set) |
| `Account.Reduce` | src/redux/modules/user.js:485-554 | every action except login and logout keeps every existing key; a login always leaves the user authenticated; a logout never does and leaves only the four flag keys |
| `Account.LoginPayload` | src/redux/modules/user.js:321-326 | the login payload has exactly the keys `user` (the user object) and `id` (the user's `pk`), and no token |
| `Account.GetPayload` | src/redux/modules/user.js:162-163 | the get payload is the fetched user with `isAuthenticated` set to the boolean `true`: the user's keys plus that flag, every other field unchanged |
| `Account.LogoutRestoresInitial` | src/redux/modules/user.js:546-548 | logout returns exactly the initial record, whatever the prior state: four false flags and no other field |
| `Account.LoginIgnoresPriorRecord` | src/redux/modules/user.js:537-544 | login success does not depend on the prior record, whatever the payload |
| `Account.LoginReplacesRecord` | src/redux/modules/user.js:537-544 | with a user object in the payload, the new record has the user's fields, `id` and `token` from the payload, and `isAuthenticated` true, with no other key |
| `Account.LoginLeavesTokenUndefined` | src/redux/modules/user.js:321-326 | the payload `login()` dispatches has no token, so `token` is undefined after login; `id` is the user's `pk`; the loading flags are gone unless the user object carries them |
| `Account.GetRequestSetsLoading` | src/redux/modules/user.js:487-492 | a get request sets `isLoading` true and changes nothing else |
| `Account.PostRequestSetsRequesting` | src/redux/modules/user.js:509-514 | a post request sets `isRequesting` true and changes nothing else |
| `Account.GetSuccessMerges` | src/redux/modules/user.js:494-501 | a get success sets `isInitialized` true and `isLoading` false unless the data carries them; every data key wins; every other field is kept |
| `Account.PostSuccessMerges` | src/redux/modules/user.js:516-522 | a post success sets `isRequesting` false unless the data carries it; every data key wins; every other field is kept |
| `Account.OnChangeMerges` | src/redux/modules/user.js:530-535 | a form change merges its data over the record and keeps all other keys |
| `Account.UnhandledActionsUnchanged` | src/redux/modules/user.js:550-552 | get error, post error, the three put actions and every unhandled type leave the record unchanged |
| `Account.LoginThenGetHydrates` | src/redux/modules/user.js:161-163 | login, then a get request, then a get success with the fetched user leaves the record initialised, not loading and authenticated, holding the fetched fields |
| `AccountFlows.AuthHeader` | src/redux/modules/user.js:156 | the header has at most the `Authorization` field, and has it exactly when a non-empty token is stored |
| `AccountFlows.AuthHeaderRoundTrip` | src/redux/modules/user.js:156 | a stored token can be read back from the header after `JWT `; with no token the header is empty and carries no token |
| `AccountFlows.ErrorList` | src/redux/modules/user.js:203-205 | one `name: messages` entry per field of the error body, in key order; one `index: character` entry per character of a text body, the index in decimal; none without a body |
| `AccountFlows.JoinAt` | src/redux/modules/user.js:208-210 | the joined string holds each part at its offset, with the separator between consecutive parts |
| `AccountFlows.Join` | src/redux/modules/user.js:208-210 | `join` of no parts is empty; otherwise the joined string ends one separator short of the offset after the last part (each part's offset being the lengths of the earlier parts, each followed by a separator) |
| `AccountFlows.ErrorMessageShape` | src/redux/modules/user.js:203-212 | for any body, field map or text, the `i`-th entry of the error list (`name: messages` for a field, `index: character` for a text body) sits in the notification at its offset after the sentence and a space, followed by ` \n ` when another entry follows |
| `AccountFlows.ErrorMessage` | src/redux/modules/user.js:206-212 | every notification starts with the flow's sentence and a space, and is exactly that when there are no entries; where each entry sits is stated by `AccountFlows.ErrorMessageShape` |
| `AccountFlows.HasErrorData` | src/redux/modules/user.js:202 | the guard holds exactly when there is a response and its body, as a JavaScript value, is truthy (a non-empty string or any object, even an empty one) |
| `AccountFlows.Prefix` | src/redux/modules/user.js:208-466 | each flow's first sentence (lines 208, 251, 297, 339, 371, 402, 433, 466) ends with a full stop, which the message follows with a space |
| `AccountFlows.ErrorAction` | src/redux/modules/user.js:214-472 | the error action dispatched without a body (lines 214, 257, 303, 343, 375, 406, 437, 472) is the put error exactly for update and delete, and the post error for every other flow |
| `AccountFlows.OnFailure` | src/redux/modules/user.js:200-216 | a failure produces a notification exactly when the response has a truthy body, and that notification is the flow's error message; otherwise the flow's error action (`ErrorAction`) is dispatched |
| `AccountFlows.EmptyErrorMapMessage` | src/redux/modules/user.js:202-212 | an empty field map still produces a notification, which is only the sentence and a space |
| `AccountFlows.FailureWithoutDataLeavesRecord` | src/redux/modules/user.js:213-215 | a failure without a body dispatches exactly the flow's error action, which leaves the account record unchanged |
| `AccountFlows.ValidateToken` | src/redux/modules/user.js:128-148 | as intended: a stored token is sent for verification first; the session is fetched exactly when the token is present and accepted; logout is dispatched exactly otherwise; the token is removed exactly when it is rejected; nothing undefined is dispatched |
| `AccountFlows.ValidateTokenAsWritten` | src/redux/modules/user.js:128-148 | as written: `undefined` is dispatched exactly when a stored token is rejected, and then it sits between the token removal and the logout; in every other case the steps are the intended ones |
| `AccountFlows.Perform` | src/redux/modules/user.js:128-148 | performing steps throws only when one of them dispatches `undefined`, and changes the token store only through a token removal |
| `AccountFlows.NoTokenLogsOutWithoutRequest` | src/redux/modules/user.js:145-147 | with no stored token (or an empty one), `validateToken` only dispatches a logout: no request, record reset, token store and route unchanged |
| `AccountFlows.AcceptedTokenFetchesSession` | src/redux/modules/user.js:132-139 | a stored token is sent for verification; when it is accepted, the session fetch starts (loading) and the token is kept; here the code as written and the intended handler agree |
| `AccountFlows.RejectedTokenAsWritten` | src/redux/modules/user.js:140-144 | as written, a rejected token is removed from the store, then the dispatch of `undefined` throws; the record and the route stay as they were |
| `AccountFlows.RejectedTokenLogsOut` | src/redux/modules/user.js:140-144 | as intended, a rejected token ends with an empty token store, the initial record and the login route |
| `AccountFlows.RejectedTokenStaysAuthenticatedAsWritten` | src/redux/modules/user.js:140-144 | for a logged-in user whose token is rejected, the code as written leaves the user authenticated, while the intended handler logs them out |

## Left out

- The asynchronous thunks are not modelled as flows: `fetchSpeakers`, `getSpeaker`, `get`, `create`, `update`, `destroy`, `login`, `logout`, `resetPassword`, `confirmResetPassword` and `changePassword`. They are HTTP calls, navigation, browser storage and notifications. Their effect on state is to dispatch the actions the reducers model. The failure handlers of `create`, `update`, `destroy`, `login`, `logout`, `resetPassword`, `confirmResetPassword` and `changePassword` are modelled by `OnFailure`. The other three handlers are not modelled: `fetchSpeakers` only logs the error, `getSpeaker` shows "This profile is not available." and navigates to `/`, and `get` dispatches `GET_ERROR`, whose effect on the record (none) is stated by `Account.UnhandledActionsUnchanged`. Two payload builders are modelled: `LoginPayload` and `GetPayload`. Only `validateToken` is modelled as a sequence of steps. There the gateway's answer is the input `verified`, and `get()` contributes only its synchronous `GET_REQUEST`.
- Ordering and races between overlapping fetches are not modelled. The model is single-threaded.
- `generateQueryString`, `speakerToNamePath`, `speakerToProfilePath`, `registrationFlow` and `IDENTITIES` are not part of this model. They live in helper and constant files that are not shown. `DEFAULT_SPEAKER_LIMIT` is a positive constant with no fixed value.
- The profile and notification slices are not part of this model. `dispatch(logoutProfile())` and `showNotification` have no modelled state.
- The React components `MobileSearch`, `SpeakerList` and `SpeakerInfo` are not modelled. They render views and dispatch `updateSearchParams` with literal objects.
- Numbers are unbounded integers. NaN, `-0` and fractional numbers are not modelled. Ids are compared structurally, which matches lodash's SameValueZero for the integer and string ids the gateway sends.
- JsValue.SpreadOf: spreading an array or a string (which copies index keys) is not modelled, and such a value spreads as no properties. Only an object user payload reaches a spread.
- AccountFlows.ErrorList: an array error body (which lodash would number `0`, `1`, …) is not modelled, and nested values inside a field's messages render only as strings or string lists. JavaScript places integer-like object keys first; the field order is taken as given. A text body is iterated by Dafny characters (Unicode scalar values), whereas lodash `map` visits UTF-16 code units: a character outside the Basic Multilingual Plane (such as an emoji) gives two entries in JavaScript and one in the model. Field names in a field-map body are assumed distinct: a JSON body that repeats a name parses in JavaScript to an object holding only the last value (as `BodyValue` does), whereas `ErrorList` renders every entry, so for such a body the model's notification lists the name once per occurrence.
- Account.Reduce: action payloads are plain objects. A non-object `data` spread into the record is not modelled.

## Findings

| source | as written | input that shows it | evidently intended | confidence | as-written member | corrected member |
|---|---|---|---|---|---|---|
| src/redux/modules/user.js:140-144 | when token verification fails, the catch handler calls `dispatch(removeApiToken())`. `removeApiToken()` returns `undefined`, and Redux throws when asked to dispatch anything but a plain object. So `dispatch(logoutSuccess())` and `navigate('/login')` never run. The token is gone from storage, but the account record still says the user is authenticated. | a logged-in user (`isAuthenticated: true`) with stored token `"abc"`, which the verification endpoint rejects | remove the token, dispatch `LOGOUT_SUCCESS`, and navigate to `/login` | medium; not executed (depends on the store's middleware passing non-function actions on to Redux's own dispatch) | `AccountFlows.RejectedTokenStaysAuthenticatedAsWritten` | `AccountFlows.RejectedTokenLogsOut` |
