/** The pure parts of the account request flows: the bearer header built
    from the stored token, the notification text built from a gateway error
    response, the choice between that notification and an error action, and
    the steps `validateToken` takes at start-up. */
module AccountFlows {
  import opened JsValue
  import Account

  /** What the token store holds: `localStorage.getItem` yields a string or
      null. */
  type StoredToken = Option<string>

  /** `if (token)`: present and not the empty string. */
  predicate TokenPresent(t: StoredToken) {
    t.Some? && t.value != ""
  }

  const AuthorizationField := "Authorization"
  const AuthScheme := "JWT "

  // ---------------------------------------------------------------------
  // Bearer header

  /** `token ? { Authorization: `JWT ${token}` } : {}`. */
  function AuthHeader(t: StoredToken): (h: map<string, string>)
    ensures h.Keys <= {AuthorizationField}
    ensures AuthorizationField in h <==> TokenPresent(t)
  {
    if TokenPresent(t) then map[AuthorizationField := AuthScheme + t.value] else map[]
  }

  /** What a gateway reading the header recovers: the token after the
      scheme, or nothing. */
  function TokenOfHeader(h: map<string, string>): StoredToken {
    if AuthorizationField in h && |h[AuthorizationField]| > |AuthScheme|
       && h[AuthorizationField][..|AuthScheme|] == AuthScheme
    then Some(h[AuthorizationField][|AuthScheme|..])
    else None
  }

  /** The header carries exactly the stored token when there is one, and
      nothing (so no token reaches the gateway) otherwise. */
  lemma AuthHeaderRoundTrip(t: StoredToken)
    ensures TokenPresent(t) ==> TokenOfHeader(AuthHeader(t)) == t
    ensures !TokenPresent(t) ==> AuthHeader(t) == map[] && TokenOfHeader(AuthHeader(t)) == None
  {
    if TokenPresent(t) {
      var v := AuthScheme + t.value;
      assert v[..|AuthScheme|] == AuthScheme;
      assert v[|AuthScheme|..] == t.value;
    }
  }

  // ---------------------------------------------------------------------
  // Error notifications

  /** A field's messages in an error response: one string, or a list of
      strings as the gateway usually sends. */
  datatype FieldValue = Message(text: string) | MessageList(texts: seq<string>)

  /** `err.response.data`: no body (`undefined` or `null`), a text body,
      or a JSON object mapping field names to messages, in key order. */
  datatype ErrorBody =
    | NoBody
    | Text(body: string)
    | Fields(entries: seq<(string, FieldValue)>)

  /** How a request failed: without a response, or with one. */
  datatype RequestFailure = NoResponse | Rejected(body: ErrorBody)

  /** The flows that turn a failure into a notification. */
  datatype Flow =
    | Register | Update | Delete | Login | Logout
    | ResetPassword | ConfirmResetPassword | ChangePassword

  /** The first sentence of each flow's failure notification, verbatim;
      each ends with a full stop, before the space that opens the list. */
  function Prefix(f: Flow): (r: string)
    ensures r != "" && r[|r| - 1] == '.'
  {
    match f
    case Register => "There was an error in saving your profile."
    case Update => "There was an error in saving your profile."
    case Delete => "There was an error in deleting your account."
    case Login => "We were not able to log you in."
    case Logout => "We were not able to log you out."
    case ResetPassword => "We were not able reset your password."
    case ConfirmResetPassword => "We were not able reset your password."
    case ChangePassword => "There was an error in updating your password."
  }

  const EntrySeparator := " \n "

  /** `a.join(sep)`: empty for no parts; otherwise it ends where a
      separator after the last part would begin. */
  function Join(parts: seq<string>, sep: string): (r: string)
    ensures |parts| == 0 ==> r == ""
    ensures |parts| > 0 ==> |r| + |sep| == Offset(parts, sep, |parts|)
    decreases |parts|
  {
    if |parts| == 0 then ""
    else if |parts| == 1 then parts[0]
    else
      OffsetTail(parts, sep, |parts|);
      parts[0] + sep + Join(parts[1..], sep)
  }

  /** Where the `i`-th part starts in the joined string. */
  function Offset(parts: seq<string>, sep: string, i: nat): nat
    requires i <= |parts|
  {
    if i == 0 then 0 else Offset(parts, sep, i - 1) + |parts[i - 1]| + |sep|
  }

  /** `${n}` for a natural number. */
  function DecimalString(n: nat): string
    decreases n
  {
    var digit := ["0123456789"[n % 10]];
    if n < 10 then digit else DecimalString(n / 10) + digit
  }

  /** `${v}` for a field's messages: an array renders joined by commas. */
  function Render(v: FieldValue): string {
    match v
    case Message(t) => t
    case MessageList(ts) => Join(ts, ",")
  }

  /** `${k}: ${v}` for one field. */
  function Entry(field: (string, FieldValue)): string {
    field.0 + ": " + Render(field.1)
  }

  /** lodash `map(data, (v, k) => `${k}: ${v}`)`: over an object's fields
      in key order, over a string's characters with their indices. */
  function ErrorList(body: ErrorBody): (r: seq<string>)
    ensures body.Fields? ==> |r| == |body.entries|
    ensures body.Fields? ==> forall i :: 0 <= i < |r| ==> r[i] == Entry(body.entries[i])
    ensures body.Text? ==> |r| == |body.body|
    ensures body.Text? ==> forall i :: 0 <= i < |r| ==> r[i] == DecimalString(i) + ": " + [body.body[i]]
    ensures body.NoBody? ==> r == []
  {
    match body
    case NoBody => []
    case Text(s) => seq(|s|, i requires 0 <= i < |s| => DecimalString(i) + ": " + [s[i]])
    case Fields(es) => seq(|es|, i requires 0 <= i < |es| => Entry(es[i]))
  }

  /** `${prefix} ${errorList.join(' \n ')}`: every notification starts
      with the flow's sentence and a space; with no entries it is exactly
      that. */
  function ErrorMessage(prefix: string, body: ErrorBody): (m: string)
    ensures |prefix| + 1 <= |m| && m[..|prefix| + 1] == prefix + " "
    ensures ErrorList(body) == [] ==> m == prefix + " "
  {
    var p := prefix + " ";
    var j := Join(ErrorList(body), EntrySeparator);
    assert (p + j)[..|p|] == p;
    p + j
  }

  /** A field's messages as the JavaScript value the parsed body holds. */
  function FieldValueOf(v: FieldValue): Value {
    match v
    case Message(t) => Str(t)
    case MessageList(ts) => Arr(seq(|ts|, i requires 0 <= i < |ts| => Str(ts[i])))
  }

  /** The parsed object of a field-map body (a repeated key keeps its last
      value). */
  function FieldsObject(es: seq<(string, FieldValue)>): Record
    decreases |es|
  {
    if es == [] then map[]
    else FieldsObject(es[..|es| - 1])[es[|es| - 1].0 := FieldValueOf(es[|es| - 1].1)]
  }

  /** `err.response.data` as a JavaScript value; a missing body reads as
      `undefined`. */
  function BodyValue(body: ErrorBody): Value {
    match body
    case NoBody => Undefined
    case Text(s) => Str(s)
    case Fields(es) => Obj(FieldsObject(es))
  }

  /** `err.response && err.response.data`: there is a response and its
      body is truthy in JavaScript's sense. */
  function HasErrorData(failure: RequestFailure): (b: bool)
    ensures b <==> failure.Rejected? && Truthy(BodyValue(failure.body))
  {
    failure.Rejected? &&
    match failure.body
    case NoBody => false
    case Text(s) => s != ""
    case Fields(_) => true
  }

  /** The error action each flow dispatches when there is no body to show:
      the put error for the flows that send a PUT or DELETE, the post error
      for the others. */
  function ErrorAction(f: Flow): (a: Account.AccountAction)
    ensures a.PostError? || a.PutError?
    ensures a.PutError? <==> f.Update? || f.Delete?
  {
    match f
    case Update => Account.PutError
    case Delete => Account.PutError
    case _ => Account.PostError
  }

  datatype FailureOutcome = Notify(message: string) | DispatchError(action: Account.AccountAction)

  /** A flow's `.catch` handler: a notification built from the error body
      when the response carries one, the flow's error action otherwise. */
  function OnFailure(f: Flow, failure: RequestFailure): (o: FailureOutcome)
    ensures o.Notify? <==> HasErrorData(failure)
    ensures o.Notify? ==> o.message == ErrorMessage(Prefix(f), failure.body)
    ensures o.DispatchError? ==> o.action == ErrorAction(f)
  {
    if HasErrorData(failure) then Notify(ErrorMessage(Prefix(f), failure.body))
    else DispatchError(ErrorAction(f))
  }

  lemma {:induction false} OffsetTail(parts: seq<string>, sep: string, i: nat)
    requires 1 <= i <= |parts|
    ensures Offset(parts, sep, i) == |parts[0]| + |sep| + Offset(parts[1..], sep, i - 1)
    decreases i
  {
    if i > 1 {
      OffsetTail(parts, sep, i - 1);
      assert parts[1..][i - 2] == parts[i - 1];
    }
  }

  /** Offsets grow with the index. */
  lemma {:induction false} OffsetMonotone(parts: seq<string>, sep: string, i: nat, k: nat)
    requires i <= k <= |parts|
    ensures Offset(parts, sep, i) <= Offset(parts, sep, k)
    decreases k
  {
    if i < k { OffsetMonotone(parts, sep, i, k - 1); }
  }

  /** The joined string is every part at its offset, with the separator
      between consecutive parts. */
  lemma {:induction false} JoinAt(parts: seq<string>, sep: string, i: nat)
    requires i < |parts|
    ensures Offset(parts, sep, i) + |parts[i]| <= |Join(parts, sep)|
    ensures i + 1 < |parts| ==> Offset(parts, sep, i + 1) <= |Join(parts, sep)|
    ensures Join(parts, sep)[Offset(parts, sep, i)..Offset(parts, sep, i) + |parts[i]|] == parts[i]
    ensures i + 1 < |parts| ==>
      Join(parts, sep)[Offset(parts, sep, i) + |parts[i]|..Offset(parts, sep, i + 1)] == sep
    decreases |parts|
  {
    OffsetMonotone(parts, sep, i + 1, |parts|);
    if i + 1 < |parts| { OffsetMonotone(parts, sep, i + 2, |parts|); }
    if |parts| > 1 {
      if i == 0 {
        JoinHead(parts, sep);
      } else {
        JoinAtTail(parts, sep, i);
        if i + 1 < |parts| { JoinSepAtTail(parts, sep, i); }
      }
    }
  }

  /** The first part, then the separator, open the joined string. */
  lemma JoinHead(parts: seq<string>, sep: string)
    requires |parts| > 1
    ensures |parts[0]| + |sep| <= |Join(parts, sep)|
    ensures Join(parts, sep)[..|parts[0]|] == parts[0]
    ensures Join(parts, sep)[|parts[0]|..|parts[0]| + |sep|] == sep
  {
    var j := Join(parts, sep);
    assert j == parts[0] + sep + Join(parts[1..], sep);
  }

  /** A later part sits where it sits in the join of the tail, shifted by
      the first part and a separator. */
  lemma {:induction false} JoinAtTail(parts: seq<string>, sep: string, i: nat)
    requires 0 < i < |parts|
    ensures Offset(parts, sep, i) + |parts[i]| <= |Join(parts, sep)|
    ensures Join(parts, sep)[Offset(parts, sep, i)..Offset(parts, sep, i) + |parts[i]|] == parts[i]
    decreases |parts|, 0
  {
    var tail := parts[1..];
    var jt := Join(tail, sep);
    var head := parts[0] + sep;
    assert Join(parts, sep) == head + jt;
    JoinAt(tail, sep, i - 1);
    OffsetTail(parts, sep, i);
    assert tail[i - 1] == parts[i];
    var lo := Offset(tail, sep, i - 1);
    assert Offset(parts, sep, i) == |head| + lo;
    SliceAfterPrefix(head, jt, lo, lo + |parts[i]|);
  }

  /** So does the separator after it. */
  lemma {:induction false} JoinSepAtTail(parts: seq<string>, sep: string, i: nat)
    requires 0 < i && i + 1 < |parts|
    ensures Offset(parts, sep, i + 1) <= |Join(parts, sep)|
    ensures Join(parts, sep)[Offset(parts, sep, i) + |parts[i]|..Offset(parts, sep, i + 1)] == sep
    decreases |parts|, 0
  {
    var tail := parts[1..];
    var jt := Join(tail, sep);
    var head := parts[0] + sep;
    assert Join(parts, sep) == head + jt;
    JoinAt(tail, sep, i - 1);
    OffsetTail(parts, sep, i);
    OffsetTail(parts, sep, i + 1);
    assert tail[i - 1] == parts[i];
    var lo := Offset(tail, sep, i - 1) + |parts[i]|;
    var hi := Offset(tail, sep, i);
    assert Offset(parts, sep, i) + |parts[i]| == |head| + lo;
    assert Offset(parts, sep, i + 1) == |head| + hi;
    assert jt[lo..hi] == sep;
    SliceAfterPrefix(head, jt, lo, hi);
  }

  lemma SliceAfterPrefix(p: string, j: string, lo: nat, hi: nat)
    requires lo <= hi <= |j|
    ensures (p + j)[|p| + lo..|p| + hi] == j[lo..hi]
  {
  }

  /** In `m`, the `i`-th of the parts joined by `sep` after a prefix of
      length `n` sits at its offset, followed by the separator when another
      part comes after it. */
  predicate PartAt(m: string, n: nat, parts: seq<string>, sep: string, i: nat)
    requires i < |parts|
  {
    var start := n + Offset(parts, sep, i);
    var end := start + |parts[i]|;
    end <= |m| && m[start..end] == parts[i] &&
    (i + 1 < |parts| ==> end + |sep| <= |m| && m[end..end + |sep|] == sep)
  }

  /** Each entry of the error list, for any body (a field's
      `name: messages`, or a text body's `index: character`), appears in the
      notification at its place after the flow's sentence and a space,
      followed by " \n " when another entry comes after it. */
  lemma ErrorMessageShape(prefix: string, body: ErrorBody, i: nat)
    requires i < |ErrorList(body)|
    ensures PartAt(ErrorMessage(prefix, body), |prefix| + 1, ErrorList(body), EntrySeparator, i)
  {
    ErrorMessageIsJoin(prefix, body);
    SentenceThenJoinAt(prefix, ErrorList(body), EntrySeparator, i);
  }

  /** `JoinAt` for the parts joined after a sentence and a space. */
  lemma SentenceThenJoinAt(prefix: string, parts: seq<string>, sep: string, i: nat)
    requires i < |parts|
    ensures PartAt((prefix + " ") + Join(parts, sep), |prefix| + 1, parts, sep, i)
  {
    var p := prefix + " ";
    var j := Join(parts, sep);
    assert (p + j)[|p|..] == j;
    JoinedAt(p + j, |p|, parts, sep, i);
  }

  /** `JoinAt` for a string whose suffix from `n` is the joined parts. */
  lemma JoinedAt(m: string, n: nat, parts: seq<string>, sep: string, i: nat)
    requires n <= |m| && m[n..] == Join(parts, sep) && i < |parts|
    ensures PartAt(m, n, parts, sep, i)
  {
    var j := m[n..];
    JoinAt(parts, sep, i);
    var lo := Offset(parts, sep, i);
    var hi := lo + |parts[i]|;
    SliceOfSuffix(m, n, lo, hi);
    assert n + hi <= |m| && m[n + lo..n + hi] == parts[i];
    if i + 1 < |parts| {
      var k := Offset(parts, sep, i + 1);
      assert j[hi..k] == sep;
      SliceOfSuffix(m, n, hi, k);
      assert k == hi + |sep|;
      assert m[n + hi..n + k] == sep;
    }
  }

  /** Slicing a suffix is slicing the whole string, shifted. */
  lemma SliceOfSuffix(m: string, n: nat, lo: nat, hi: nat)
    requires n <= |m| && lo <= hi <= |m| - n
    ensures m[n..][lo..hi] == m[n + lo..n + hi]
  {
  }

  lemma ErrorMessageIsJoin(prefix: string, body: ErrorBody)
    ensures ErrorMessage(prefix, body) == (prefix + " ") + Join(ErrorList(body), EntrySeparator)
    ensures |prefix + " "| == |prefix| + 1
  {
  }

  /** An empty field map, as a non-empty body, still yields a notification:
      the flow's sentence followed by a space. */
  lemma EmptyErrorMapMessage(f: Flow)
    ensures OnFailure(f, Rejected(Fields([]))) == Notify(Prefix(f) + " ")
  {
  }

  /** A failure without a body to show changes nothing in the account
      record: every error action the flows dispatch falls through the
      reducer. */
  lemma FailureWithoutDataLeavesRecord(f: Flow, failure: RequestFailure, s: Account.AccountRecord)
    requires !HasErrorData(failure)
    ensures OnFailure(f, failure) == DispatchError(ErrorAction(f))
    ensures Account.Reduce(s, OnFailure(f, failure).action) == s
  {
    Account.UnhandledActionsUnchanged(s, ErrorAction(f));
  }

  // ---------------------------------------------------------------------
  // validateToken

  /** The observable steps of the flows, in order. */
  datatype Effect =
    | PostVerifyToken(token: string)   // POST to the token verification endpoint
    | DispatchGet                      // dispatch(get())
    | Dispatch(action: Account.AccountAction)
    | DispatchUndefined                // dispatch(x) with x === undefined
    | RemoveToken                      // removeApiToken()
    | Navigate(path: string)

  /** What the steps act on: the account record, the token store and the
      current route. */
  datatype Session = Session(account: Account.AccountRecord, token: StoredToken, location: string)

  datatype Outcome = Outcome(session: Session, threw: bool)

  /** Performing the steps. The request itself changes nothing locally (its
      answer is an input of the flow); `get()` raises `isLoading` before it
      sends its own request; Redux refuses to dispatch anything but a plain
      object and throws, abandoning the remaining steps. */
  function Perform(w: Session, effects: seq<Effect>): (r: Outcome)
    ensures DispatchUndefined !in effects ==> !r.threw
    ensures RemoveToken !in effects ==> r.session.token == w.token
    decreases |effects|
  {
    if effects == [] then Outcome(w, false)
    else match effects[0]
      case PostVerifyToken(_) => Perform(w, effects[1..])
      case DispatchGet => Perform(w.(account := Account.Reduce(w.account, Account.GetRequest)), effects[1..])
      case Dispatch(a) => Perform(w.(account := Account.Reduce(w.account, a)), effects[1..])
      case DispatchUndefined => Outcome(w, true)
      case RemoveToken => Perform(w.(token := None), effects[1..])
      case Navigate(p) => Perform(w.(location := p), effects[1..])
  }

  /** `validateToken` as written: when verification fails, the catch
      handler passes the result of `removeApiToken()`, which is `undefined`,
      to `dispatch`. */
  function ValidateTokenAsWritten(stored: StoredToken, verified: bool): (r: seq<Effect>)
    ensures DispatchUndefined in r <==> TokenPresent(stored) && !verified
    ensures TokenPresent(stored) && !verified ==>
      r == ValidateToken(stored, verified)[..2] + [DispatchUndefined] + ValidateToken(stored, verified)[2..]
    ensures !(TokenPresent(stored) && !verified) ==> r == ValidateToken(stored, verified)
  {
    if TokenPresent(stored) then
      [PostVerifyToken(stored.value)] +
      if verified then [DispatchGet]
      else [RemoveToken, DispatchUndefined, Dispatch(Account.LogoutSuccess), Navigate("/login")]
    else [Dispatch(Account.LogoutSuccess)]
  }

  /** `validateToken` as intended: a rejected token is removed, the record
      is reset and the login route is shown. */
  function ValidateToken(stored: StoredToken, verified: bool): (r: seq<Effect>)
    ensures |r| > 0 && (TokenPresent(stored) ==> r[0] == PostVerifyToken(stored.value))
    ensures !TokenPresent(stored) ==> forall e :: e in r ==> !e.PostVerifyToken?
    ensures DispatchGet in r <==> TokenPresent(stored) && verified
    ensures Dispatch(Account.LogoutSuccess) in r <==> !(TokenPresent(stored) && verified)
    ensures (RemoveToken in r <==> TokenPresent(stored) && !verified) && DispatchUndefined !in r
  {
    if TokenPresent(stored) then
      [PostVerifyToken(stored.value)] +
      if verified then [DispatchGet]
      else [RemoveToken, Dispatch(Account.LogoutSuccess), Navigate("/login")]
    else [Dispatch(Account.LogoutSuccess)]
  }

  /** Without a stored token, `validateToken` only dispatches a logout: no
      request is sent, the record is reset, the token store and the route
      stay as they were. */
  lemma NoTokenLogsOutWithoutRequest(w: Session, verified: bool)
    requires !TokenPresent(w.token)
    ensures ValidateToken(w.token, verified) == [Dispatch(Account.LogoutSuccess)]
    ensures ValidateTokenAsWritten(w.token, verified) == ValidateToken(w.token, verified)
    ensures forall e :: e in ValidateToken(w.token, verified) ==> !e.PostVerifyToken?
    ensures Perform(w, ValidateToken(w.token, verified))
         == Outcome(Session(Account.InitialRecord(), w.token, w.location), false)
  {
  }

  /** A stored token is sent for verification first; when accepted, the
      session is fetched with the token kept. */
  lemma AcceptedTokenFetchesSession(w: Session)
    requires TokenPresent(w.token)
    ensures ValidateToken(w.token, true) == [PostVerifyToken(w.token.value), DispatchGet]
    ensures ValidateTokenAsWritten(w.token, true) == ValidateToken(w.token, true)
    ensures var o := Perform(w, ValidateToken(w.token, true));
      !o.threw && o.session.token == w.token && Account.Flag(o.session.account, Account.IsLoading)
  {
    var effs := ValidateToken(w.token, true);
    var w1 := w.(account := Account.Reduce(w.account, Account.GetRequest));
    assert effs[1..] == [DispatchGet] && effs[1..][1..] == [];
    assert Perform(w, effs) == Perform(w, effs[1..]);
    assert Perform(w, effs[1..]) == Perform(w1, []);
  }

  /** With the intended handler, a rejected token ends logged out: store
      cleared, record reset, on the login route. */
  lemma RejectedTokenLogsOut(w: Session)
    requires TokenPresent(w.token)
    ensures Perform(w, ValidateToken(w.token, false))
         == Outcome(Session(Account.InitialRecord(), None, "/login"), false)
  {
    var effs := ValidateToken(w.token, false);
    assert effs[1..] == [RemoveToken, Dispatch(Account.LogoutSuccess), Navigate("/login")];
    assert effs[1..][1..] == [Dispatch(Account.LogoutSuccess), Navigate("/login")];
    assert effs[1..][1..][1..] == [Navigate("/login")];
    assert effs[1..][1..][1..][1..] == [];
    var w1 := w.(token := None);
    var w2 := w1.(account := Account.InitialRecord());
    assert Perform(w, effs) == Perform(w, effs[1..]);
    assert Perform(w, effs[1..]) == Perform(w1, effs[1..][1..]);
    assert Perform(w1, effs[1..][1..]) == Perform(w2, effs[1..][1..][1..]);
    assert Perform(w2, effs[1..][1..][1..]) == Perform(w2.(location := "/login"), []);
  }

  /** As written, a rejected token is removed from the store, but the
      dispatch of `undefined` throws before the logout: the record and the
      route stay as they were. */
  lemma RejectedTokenAsWritten(w: Session)
    requires TokenPresent(w.token)
    ensures Perform(w, ValidateTokenAsWritten(w.token, false))
         == Outcome(Session(w.account, None, w.location), true)
  {
    var effs := ValidateTokenAsWritten(w.token, false);
    assert effs[1..] == [RemoveToken, DispatchUndefined, Dispatch(Account.LogoutSuccess), Navigate("/login")];
    assert effs[1..][1..][0] == DispatchUndefined;
    assert Perform(w, effs) == Perform(w, effs[1..]);
    assert Perform(w, effs[1..]) == Perform(w.(token := None), effs[1..][1..]);
  }

  /** The discrepancy on a concrete session: a logged-in user whose token
      the gateway rejects stays authenticated as written, and is logged out
      by the intended handler. */
  lemma RejectedTokenStaysAuthenticatedAsWritten()
    ensures var w := Session(Account.Reduce(Account.InitialRecord(), Account.LoginSuccess(Account.LoginPayload(map["pk" := Num(7)]))),
                             Some("abc"), "/profile");
      Account.Flag(Perform(w, ValidateTokenAsWritten(w.token, false)).session.account, Account.IsAuthenticated) &&
      !Account.Flag(Perform(w, ValidateToken(w.token, false)).session.account, Account.IsAuthenticated)
  {
    var w := Session(Account.Reduce(Account.InitialRecord(), Account.LoginSuccess(Account.LoginPayload(map["pk" := Num(7)]))),
                     Some("abc"), "/profile");
    RejectedTokenAsWritten(w);
    RejectedTokenLogsOut(w);
  }
}
