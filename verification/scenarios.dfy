/**
 * Clients of the handlers: request sequences whose outcome follows from the
 * handlers' contracts alone.
 */
module Scenarios {
  import opened Text
  import opened Storage
  import opened Server

  /**
   * Registering a new address and then logging in with any case variant of
   * it and the same password logs in the user just created.
   */
  method RegisterThenLogin(s: Server, email: string, variant: string, password: string,
                           id: UserId, hasher: Hasher, now: string)
    returns (registered: Response, loggedIn: Response)
    requires email != "" && password != "" && SameEmail(email, variant)
    requires Sound(hasher)
    requires id != "" && FreshId(s.store.users, id)
    requires FindUserByEmail(s.store.users, email).None?
    modifies s, s.store
    ensures registered.status == StatusOk && registered.body.UserBody? && registered.body.user.id == id
    ensures loggedIn == registered
    ensures s.sessionUserId == Some(id)
  {
    ghost var before := s.store.users;
    registered := s.Register(RegisterRequest(Some(email), Some(password), None), id, hasher, now);
    ghost var u := s.store.users[|before|];
    FindUserByEmailIgnoresCase(before, email, variant);
    FindUserByEmailAfterAppend(before, u, variant);
    assert s.store.users == before + [u];
    assert hasher.compare(password, hasher.hash(password));
    loggedIn := s.Login(LoginRequest(Some(variant), Some(password)), hasher);
  }

  /**
   * With a hashing library that tells passwords apart, logging in with the
   * right address (in any case) but another password is refused, and the
   * session stays with the user registration logged in.
   */
  method RegisterThenWrongLogin(s: Server, email: string, variant: string, password: string, wrong: string,
                                id: UserId, hasher: Hasher, now: string)
    returns (registered: Response, loggedIn: Response)
    requires email != "" && password != "" && wrong != "" && wrong != password && SameEmail(email, variant)
    requires Discriminating(hasher)
    requires id != "" && FreshId(s.store.users, id)
    requires FindUserByEmail(s.store.users, email).None?
    modifies s, s.store
    ensures registered.status == StatusOk && registered.body.UserBody? && registered.body.user.id == id
    ensures loggedIn == Response(StatusUnauthorized, ErrorBody("Invalid credentials"))
    ensures s.sessionUserId == Some(id)
  {
    ghost var before := s.store.users;
    registered := s.Register(RegisterRequest(Some(email), Some(password), None), id, hasher, now);
    ghost var u := s.store.users[|before|];
    FindUserByEmailIgnoresCase(before, email, variant);
    FindUserByEmailAfterAppend(before, u, variant);
    assert s.store.users == before + [u];
    assert u.passwordHash == hasher.hash(password);
    loggedIn := s.Login(LoginRequest(Some(variant), Some(wrong)), hasher);
  }

  /**
   * Registering the same address twice, the second time in another letter
   * case, gives one success and one conflict, and stores one record.
   */
  method RegisterTwice(s: Server, email: string, variant: string, password: string,
                       id1: UserId, id2: UserId, hasher: Hasher, now: string)
    returns (first: Response, second: Response)
    requires email != "" && password != "" && SameEmail(email, variant)
    requires id1 != "" && id2 != "" && id1 != id2
    requires FreshId(s.store.users, id1) && FreshId(s.store.users, id2)
    requires FindUserByEmail(s.store.users, email).None?
    modifies s, s.store
    ensures first.status == StatusOk
    ensures second == Response(StatusConflict, ErrorBody("Email already registered"))
    ensures |s.store.users| == old(|s.store.users|) + 1
    ensures s.sessionUserId == Some(id1)
  {
    ghost var before := s.store.users;
    first := s.Register(RegisterRequest(Some(email), Some(password), None), id1, hasher, now);
    ghost var u := s.store.users[|before|];
    assert s.store.users == before + [u];
    FindUserByEmailIgnoresCase(before, email, variant);
    FindUserByEmailAfterAppend(before, u, variant);
    second := s.Register(RegisterRequest(Some(variant), Some(password), None), id2, hasher, now);
  }

  /**
   * A logged-in translation shows up at the front of that user's history
   * and of nobody else's.
   */
  method TranslateThenHistory(s: Server, text: string, to: string, result: ProviderResult, now: string)
    returns (translated: Response, listed: Response)
    requires text != "" && to != "" && Present(s.sessionUserId)
    modifies s.store
    ensures translated.status == StatusOk
    ensures listed.status == StatusOk && listed.body.HistoryBody? && |listed.body.items| > 0
    ensures listed.body.items[0] == HistoryEntry(text, TranslatedText(result), ToUpper(to), now)
    ensures forall v :: v != s.sessionUserId.value ==>
      GetHistoryForUser(s.store.history, v) == GetHistoryForUser(old(s.store.history), v)
  {
    var sent;
    translated, sent := s.Translate(TranslateRequest(Some(text), Some(to)), Delivered(result), now);
    listed := s.History();
  }
}
