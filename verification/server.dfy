/**
 * The HTTP handlers for registration, login, logout, the current user, the
 * history list and translation, over a store and the calling request's
 * session. A handler's reply is a status code with a JSON body.
 *
 * The translation provider is an input: the handler reports the request it
 * would send (`ProviderRequest`) and is given the provider's reply.
 */
module Server {
  import opened Text
  import opened Storage

  const StatusOk := 200
  const StatusBadRequest := 400
  const StatusUnauthorized := 401
  const StatusConflict := 409
  const StatusServerError := 500

  datatype Body =
    | ErrorBody(error: string)
    | ErrorDetailsBody(error: string, details: string)
    | UserBody(user: PublicUser)
    | NullBody
    | HistoryBody(items: seq<HistoryEntry>)
    | TranslationBody(translatedText: string, raw: ProviderResult)
    | OkBody

  datatype Response = Response(status: int, body: Body)

  /** JSON request bodies; an absent field (or an absent body) is `None`. */
  datatype RegisterRequest = RegisterRequest(email: Option<string>, password: Option<string>, name: Option<string>)

  datatype LoginRequest = LoginRequest(email: Option<string>, password: Option<string>)

  datatype TranslateRequest = TranslateRequest(text: Option<string>, to: Option<string>)

  /** JavaScript truthiness of a string field: present and not empty. */
  predicate Present(f: Option<string>) {
    f.Some? && f.value != ""
  }

  /** The form the gateway posts to the provider: `text` and `target_lang`. */
  datatype ProviderRequest = ProviderRequest(text: string, targetLang: string)

  datatype Translation = Translation(detectedSourceLanguage: Option<string>, text: Option<string>)

  /** The provider's JSON answer; `translations` may be missing. */
  datatype ProviderResult = ProviderResult(translations: Option<seq<Translation>>)

  /**
   * How the provider call ended: a success status with a parsed body, a
   * non-success status with its text, or an exception (network failure,
   * unparsable body).
   */
  datatype ProviderReply =
    | Delivered(result: ProviderResult)
    | Rejected(status: int, body: string)
    | Thrown(details: string)

  /** `result?.translations?.[0]?.text || ''`. */
  function TranslatedText(result: ProviderResult): (t: string)
    ensures t != "" ==>
      (result.translations.Some? && |result.translations.value| > 0 && result.translations.value[0].text == Some(t))
    ensures (result.translations.Some? && |result.translations.value| > 0 && result.translations.value[0].text.Some?) ==>
      t == result.translations.value[0].text.value
  {
    match result.translations
    case Some(ts) =>
      if |ts| > 0 && ts[0].text.Some? then ts[0].text.value else ""
    case None => ""
  }

  /**
   * The name registration stores: `name || email.split('@')[0]`, then the
   * store's `name || email`. A given name is kept; otherwise it is the local
   * part, or the whole address when the local part is empty.
   */
  function RegisteredName(email: string, name: Option<string>): (r: string)
    ensures Present(name) ==> r == name.value
    ensures !Present(name) ==> r == LocalPart(email) || r == email
    ensures email != "" ==> r != ""
  {
    StoredName(email, if Present(name) then name.value else LocalPart(email))
  }

  /** Without a name, a new user is named after the part of the address before the first '@'. */
  lemma RegisteredNameDefault(email: string, name: Option<string>, k: nat)
    requires !Present(name)
    requires 0 < k < |email| && email[k] == '@' && '@' !in email[..k]
    ensures RegisteredName(email, name) == email[..k]
  {
    LocalPartAtFirstAt(email, k);
  }

  /**
   * An address that starts with '@' has an empty local part, so the store's
   * own default takes over and the name is the whole address.
   */
  lemma RegisteredNameLeadingAt(email: string, name: Option<string>)
    requires !Present(name)
    requires |email| > 0 && email[0] == '@'
    ensures RegisteredName(email, name) == email
  {
  }

  /** The history entry a successful translation records. */
  function NewEntry(text: string, to: string, result: ProviderResult, now: string): HistoryEntry {
    HistoryEntry(text, TranslatedText(result), ToUpper(to), now)
  }

  /**
   * The client may send the target language in either case: the recorded
   * entry is the same as for its upper- or lower-cased spelling.
   */
  lemma NewEntryIgnoresTargetCase(text: string, to: string, result: ProviderResult, now: string)
    ensures NewEntry(text, ToLower(to), result, now) == NewEntry(text, to, result, now)
    ensures NewEntry(text, ToUpper(to), result, now) == NewEntry(text, to, result, now)
    ensures NewEntry(text, to, result, now).targetLang == ToUpper(to)
  {
    ToUpperIgnoresCase(to);
    ToUpperIdempotent(to);
  }

  class Server {
    /** The two data files. */
    const store: Store
    /** `req.session.userId` of the request being handled. */
    var sessionUserId: Option<UserId>

    /**
     * What the handlers keep true of the store: ids unique, addresses unique
     * up to case, and no history list over the cap.
     */
    ghost predicate Valid()
      reads this, store
    {
      && UniqueIds(store.users)
      && UniqueEmails(store.users)
      && HistoryBounded(store.history)
    }

    constructor (store: Store, sessionUserId: Option<UserId>)
      ensures this.store == store && this.sessionUserId == sessionUserId
    {
      this.store := store;
      this.sessionUserId := sessionUserId;
    }

    /**
     * POST /api/auth/register. `id` is the fresh UUID the store would draw
     * (never empty, never in use), `hasher` the hashing library and `now`
     * the clock.
     */
    method Register(req: RegisterRequest, id: UserId, hasher: Hasher, now: string) returns (res: Response)
      requires id != "" && FreshId(store.users, id)
      modifies this, store
      ensures store.history == old(store.history)
      ensures !Present(req.email) || !Present(req.password) ==>
        && res == Response(StatusBadRequest, ErrorBody("Email and password required"))
        && store.users == old(store.users)
        && sessionUserId == old(sessionUserId)
      ensures Present(req.email) && Present(req.password) && FindUserByEmail(old(store.users), req.email.value).Some? ==>
        && res == Response(StatusConflict, ErrorBody("Email already registered"))
        && store.users == old(store.users)
        && sessionUserId == old(sessionUserId)
      ensures Present(req.email) && Present(req.password) && FindUserByEmail(old(store.users), req.email.value).None? ==>
        var u := User(id, req.email.value, RegisteredName(req.email.value, req.name), hasher.hash(req.password.value), now);
        && store.users == old(store.users) + [u]
        && sessionUserId == Some(id)
        && res == Response(StatusOk, UserBody(View(u)))
      ensures old(Valid()) ==> Valid()
    {
      if !Present(req.email) || !Present(req.password) {
        return Response(StatusBadRequest, ErrorBody("Email and password required"));
      }
      var email := req.email.value;
      var existing := FindUserByEmail(store.users, email);
      if existing.Some? {
        return Response(StatusConflict, ErrorBody("Email already registered"));
      }
      var name := if Present(req.name) then req.name.value else LocalPart(email);
      ghost var before := store.users;
      var user := store.CreateUser(id, email, req.password.value, name, hasher, now);
      sessionUserId := Some(user.id);
      res := Response(StatusOk, UserBody(PublicUser(user.id, user.email, user.name)));
      if UniqueIds(before) && UniqueEmails(before) {
        AppendKeepsUniqueIds(before, store.users[|before|]);
        AppendKeepsUniqueEmails(before, store.users[|before|]);
      }
    }

    /** POST /api/auth/login. */
    method Login(req: LoginRequest, hasher: Hasher) returns (res: Response)
      modifies this
      ensures !Present(req.email) || !Present(req.password) ==>
        && res == Response(StatusBadRequest, ErrorBody("Email and password required"))
        && sessionUserId == old(sessionUserId)
      ensures Present(req.email) && Present(req.password) ==>
        match FindUserByEmail(store.users, req.email.value)
        case None =>
          && res == Response(StatusUnauthorized, ErrorBody("Invalid credentials"))
          && sessionUserId == old(sessionUserId)
        case Some(u) =>
          if VerifyPassword(hasher, u, req.password.value) then
            && res == Response(StatusOk, UserBody(View(u)))
            && sessionUserId == Some(u.id)
          else
            && res == Response(StatusUnauthorized, ErrorBody("Invalid credentials"))
            && sessionUserId == old(sessionUserId)
      ensures old(Valid()) ==> Valid()
    {
      if !Present(req.email) || !Present(req.password) {
        return Response(StatusBadRequest, ErrorBody("Email and password required"));
      }
      var user := FindUserByEmail(store.users, req.email.value);
      if user.None? {
        return Response(StatusUnauthorized, ErrorBody("Invalid credentials"));
      }
      var ok := VerifyPassword(hasher, user.value, req.password.value);
      if !ok {
        return Response(StatusUnauthorized, ErrorBody("Invalid credentials"));
      }
      sessionUserId := Some(user.value.id);
      res := Response(StatusOk, UserBody(View(user.value)));
    }

    /** POST /api/auth/logout: the session is destroyed. */
    method Logout() returns (res: Response)
      modifies this
      ensures sessionUserId == None
      ensures res == Response(StatusOk, OkBody)
      ensures old(Valid()) ==> Valid()
    {
      sessionUserId := None;
      res := Response(StatusOk, OkBody);
    }

    /**
     * GET /api/auth/me: the public view of the session's user, or null when
     * there is no session or its id names no stored user.
     */
    method Me() returns (res: Response)
      ensures res.status == StatusOk
      ensures res.body == NullBody || res.body.UserBody?
      ensures res.body.UserBody? <==> Present(sessionUserId) && !FreshId(store.users, sessionUserId.value)
      ensures res.body.UserBody? ==>
        && res.body.user.id == sessionUserId.value
        && exists k :: FirstIdMatch(store.users, sessionUserId.value, k) && View(store.users[k]) == res.body.user
    {
      if !Present(sessionUserId) {
        return Response(StatusOk, NullBody);
      }
      var user := GetUserById(store.users, sessionUserId.value);
      if user.None? {
        return Response(StatusOk, NullBody);
      }
      res := Response(StatusOk, UserBody(View(user.value)));
    }

    /** GET /api/history: the session user's own list, 401 without a session. */
    method History() returns (res: Response)
      ensures !Present(sessionUserId) <==> res == Response(StatusUnauthorized, ErrorBody("Not authenticated"))
      ensures Present(sessionUserId) ==>
        && res.status == StatusOk
        && res.body == HistoryBody(GetHistoryForUser(store.history, sessionUserId.value))
    {
      if !Present(sessionUserId) {
        return Response(StatusUnauthorized, ErrorBody("Not authenticated"));
      }
      var items := GetHistoryForUser(store.history, sessionUserId.value);
      res := Response(StatusOk, HistoryBody(items));
    }

    /**
     * POST /api/translate. `sent` is the request forwarded to the provider
     * (none when validation fails); `reply` is how that call ended.
     */
    method Translate(req: TranslateRequest, reply: ProviderReply, now: string)
      returns (res: Response, sent: Option<ProviderRequest>)
      modifies store
      ensures store.users == old(store.users)
      ensures !Present(req.text) || !Present(req.to) ==>
        && res == Response(StatusBadRequest, ErrorBody("Missing required fields: text and to"))
        && sent == None
        && store.history == old(store.history)
      ensures Present(req.text) && Present(req.to) ==>
        && sent == Some(ProviderRequest(req.text.value, ToUpper(req.to.value)))
        && match reply
           case Rejected(status, body) =>
             && res == Response(status, ErrorDetailsBody("Translation failed", body))
             && store.history == old(store.history)
           case Thrown(details) =>
             && res == Response(StatusServerError, ErrorDetailsBody("Translate error", details))
             && store.history == old(store.history)
           case Delivered(result) =>
             && res == Response(StatusOk, TranslationBody(TranslatedText(result), result))
             && store.history ==
                if !Present(sessionUserId) then old(store.history)
                else
                  var uid := sessionUserId.value;
                  old(store.history)[uid := WithNewest(GetHistoryForUser(old(store.history), uid),
                                                       NewEntry(req.text.value, req.to.value, result, now))]
      ensures old(Valid()) ==> Valid()
    {
      if !Present(req.text) || !Present(req.to) {
        return Response(StatusBadRequest, ErrorBody("Missing required fields: text and to")), None;
      }
      var text := req.text.value;
      var targetLang := ToUpper(req.to.value);
      sent := Some(ProviderRequest(text, targetLang));
      match reply
      case Rejected(status, body) =>
        res := Response(status, ErrorDetailsBody("Translation failed", body));
      case Thrown(details) =>
        res := Response(StatusServerError, ErrorDetailsBody("Translate error", details));
      case Delivered(result) =>
        var translatedText := TranslatedText(result);
        if Present(sessionUserId) {
          store.AppendHistoryForUser(sessionUserId.value, HistoryEntry(text, translatedText, targetLang, now));
        }
        res := Response(StatusOk, TranslationBody(translatedText, result));
    }
  }
}
