/**
 * The persistence layer: a users file holding a sequence of user records and
 * a history file mapping each user id to that user's translations, newest
 * first, at most `HistoryCap` of them.
 *
 * Reading a file is modelled by applying a function to the store's current
 * contents; the read-modify-write of a mutation is a method of `Store` that
 * computes the new contents and assigns them to the field in one step.
 */
module Storage {
  import opened Text

  datatype Option<T> = None | Some(value: T)

  type UserId = string

  /** One record of the users file. */
  datatype User = User(id: UserId, email: string, name: string, passwordHash: string, createdAt: string)

  /** What the store hands back to callers: no password hash. */
  datatype PublicUser = PublicUser(id: UserId, email: string, name: string)

  function View(u: User): PublicUser {
    PublicUser(u.id, u.email, u.name)
  }

  /** The public view does not depend on the password hash or the creation time. */
  lemma ViewHidesPasswordHash(u: User, passwordHash: string, createdAt: string)
    ensures View(u.(passwordHash := passwordHash, createdAt := createdAt)) == View(u)
  {
  }

  /** One record of a user's history list. */
  datatype HistoryEntry = HistoryEntry(originalText: string, translatedText: string, targetLang: string, createdAt: string)

  /**
   * The password hashing library, which lies outside this model: `hash` is the
   * salted hash computed for one call (the salt is part of the oracle) and
   * `compare` the library's check of a password against a stored hash.
   */
  datatype Hasher = Hasher(hash: string -> string, compare: (string, string) -> bool)

  /** A hasher whose check accepts the password a hash was made from. */
  ghost predicate Sound(h: Hasher) {
    forall p :: h.compare(p, h.hash(p))
  }

  /**
   * A hasher whose check accepts a password only against a hash made from
   * that same password: two different passwords never pass for each other.
   */
  ghost predicate Discriminating(h: Hasher) {
    forall p, q :: h.compare(p, h.hash(q)) ==> p == q
  }

  /** The number of history entries kept per user. */
  const HistoryCap: nat := 100

  // ---------------------------------------------------------------------
  // Users
  // ---------------------------------------------------------------------

  /** No record carries `id`. */
  predicate FreshId(users: seq<User>, id: UserId) {
    forall i :: 0 <= i < |users| ==> users[i].id != id
  }

  predicate UniqueIds(users: seq<User>) {
    forall i, j :: 0 <= i < j < |users| ==> users[i].id != users[j].id
  }

  /** No two records share an e-mail address up to letter case. */
  predicate UniqueEmails(users: seq<User>) {
    forall i, j :: 0 <= i < j < |users| ==> !SameEmail(users[i].email, users[j].email)
  }

  /** Record `k` is the first whose address matches `email` up to case. */
  predicate FirstEmailMatch(users: seq<User>, email: string, k: int) {
    && 0 <= k < |users|
    && SameEmail(users[k].email, email)
    && forall j :: 0 <= j < k ==> !SameEmail(users[j].email, email)
  }

  /** Record `k` is the first carrying exactly `id`. */
  predicate FirstIdMatch(users: seq<User>, id: UserId, k: int) {
    && 0 <= k < |users|
    && users[k].id == id
    && forall j :: 0 <= j < k ==> users[j].id != id
  }

  /** `findUserByEmail`: the first record whose address matches up to case. */
  function FindUserByEmail(users: seq<User>, email: string): (r: Option<User>)
    ensures r.None? <==> forall i :: 0 <= i < |users| ==> !SameEmail(users[i].email, email)
    ensures r.Some? ==> exists k :: FirstEmailMatch(users, email, k) && users[k] == r.value
  {
    if users == [] then None
    else if SameEmail(users[0].email, email) then Some(users[0])
    else
      var r := FindUserByEmail(users[1..], email);
      assert forall i :: 1 <= i < |users| ==> users[i] == users[1..][i - 1];
      r
  }

  /** `getUserById`: the first record carrying exactly `id`. */
  function GetUserById(users: seq<User>, id: UserId): (r: Option<User>)
    ensures r.None? <==> FreshId(users, id)
    ensures r.Some? ==> exists k :: FirstIdMatch(users, id, k) && users[k] == r.value
  {
    if users == [] then None
    else if users[0].id == id then Some(users[0])
    else
      var r := GetUserById(users[1..], id);
      assert forall i :: 1 <= i < |users| ==> users[i] == users[1..][i - 1];
      r
  }

  /** `name || email`: the name a new record stores. */
  function StoredName(email: string, name: string): (r: string)
    ensures name != "" ==> r == name
    ensures r == name || r == email
    ensures email != "" ==> r != ""
  {
    if name == "" then email else name
  }

  /**
   * `verifyPassword`: the library's check of `password` against the stored
   * hash; with a sound library, a record accepts the password it was made
   * from, and with a discriminating one it accepts no other.
   */
  function VerifyPassword(h: Hasher, u: User, password: string): (ok: bool)
    ensures Sound(h) && u.passwordHash == h.hash(password) ==> ok
    ensures Discriminating(h) && ok ==> forall q :: u.passwordHash == h.hash(q) ==> q == password
  {
    h.compare(password, u.passwordHash)
  }

  /** The lookup ignores letter case: case variants find the same record. */
  lemma {:induction false} FindUserByEmailIgnoresCase(users: seq<User>, a: string, b: string)
    requires SameEmail(a, b)
    ensures FindUserByEmail(users, a) == FindUserByEmail(users, b)
  {
    if users != [] {
      FindUserByEmailIgnoresCase(users[1..], a, b);
    }
  }

  /** Appending a record leaves earlier matches alone and makes the new one findable. */
  lemma {:induction false} FindUserByEmailAfterAppend(users: seq<User>, u: User, email: string)
    ensures FindUserByEmail(users + [u], email) ==
      if FindUserByEmail(users, email).Some? then FindUserByEmail(users, email)
      else if SameEmail(u.email, email) then Some(u)
      else None
  {
    if users != [] {
      assert (users + [u])[1..] == users[1..] + [u];
      FindUserByEmailAfterAppend(users[1..], u, email);
    }
  }

  /** Appending a record with a fresh id makes it the one found by that id. */
  lemma {:induction false} GetUserByIdAfterAppend(users: seq<User>, u: User, id: UserId)
    ensures GetUserById(users + [u], id) ==
      if GetUserById(users, id).Some? then GetUserById(users, id)
      else if u.id == id then Some(u)
      else None
  {
    if users != [] {
      assert (users + [u])[1..] == users[1..] + [u];
      GetUserByIdAfterAppend(users[1..], u, id);
    }
  }

  /** With unique ids, the lookup by id finds a record exactly when one carries that id. */
  lemma GetUserByIdUnique(users: seq<User>, id: UserId, k: nat)
    requires UniqueIds(users)
    requires k < |users| && users[k].id == id
    ensures GetUserById(users, id) == Some(users[k])
  {
  }

  /** With unique addresses, the lookup by address finds the one matching record. */
  lemma FindUserByEmailUnique(users: seq<User>, email: string, k: nat)
    requires UniqueEmails(users)
    requires k < |users| && SameEmail(users[k].email, email)
    ensures FindUserByEmail(users, email) == Some(users[k])
  {
  }

  /** Appending a record whose address is not yet present keeps the addresses unique. */
  lemma AppendKeepsUniqueEmails(users: seq<User>, u: User)
    requires UniqueEmails(users)
    requires FindUserByEmail(users, u.email).None?
    ensures UniqueEmails(users + [u])
  {
    var us := users + [u];
    forall i, j | 0 <= i < j < |us|
      ensures !SameEmail(us[i].email, us[j].email)
    {
      if j == |users| {
        assert !SameEmail(users[i].email, u.email);
      }
    }
  }

  /**
   * `createUser` does not check for duplicates: appending a record whose
   * address is already present (up to case) breaks uniqueness.
   */
  lemma AppendDuplicateBreaksUniqueEmails(users: seq<User>, u: User)
    requires FindUserByEmail(users, u.email).Some?
    ensures !UniqueEmails(users + [u])
  {
    var k :| 0 <= k < |users| && SameEmail(users[k].email, u.email);
    var us := users + [u];
    assert us[k] == users[k] && us[|users|] == u;
  }

  /** Appending a record with a fresh id keeps the ids unique. */
  lemma AppendKeepsUniqueIds(users: seq<User>, u: User)
    requires UniqueIds(users)
    requires FreshId(users, u.id)
    ensures UniqueIds(users + [u])
  {
  }

  // ---------------------------------------------------------------------
  // History
  // ---------------------------------------------------------------------

  /** `all[userId] || []`: a user without a list has an empty history. */
  function GetHistoryForUser(history: map<UserId, seq<HistoryEntry>>, userId: UserId): (r: seq<HistoryEntry>)
    ensures userId in history ==> r == history[userId]
    ensures userId !in history ==> r == []
    ensures HistoryBounded(history) ==> |r| <= HistoryCap
  {
    if userId in history then history[userId] else []
  }

  /** `Array.prototype.slice(0, n)`: the first `n` elements, or all of them. */
  function Take<T>(s: seq<T>, n: nat): (r: seq<T>)
    ensures |r| == if |s| <= n then |s| else n
    ensures r == s[..|r|]
  {
    if |s| <= n then s else s[..n]
  }

  /**
   * The list `appendHistoryForUser` leaves behind, `unshift(item)` then
   * `slice(0, 100)`: the new item is at the front, the older entries follow
   * in their original order, and the list holds min(old length + 1, 100).
   */
  function WithNewest(list: seq<HistoryEntry>, item: HistoryEntry): (r: seq<HistoryEntry>)
    ensures |r| == if |list| + 1 <= HistoryCap then |list| + 1 else HistoryCap
    ensures r[0] == item
    ensures forall i :: 1 <= i < |r| ==> r[i] == list[i - 1]
  {
    Take([item] + list, HistoryCap)
  }

  /** Every user's list is within the cap. */
  predicate HistoryBounded(history: map<UserId, seq<HistoryEntry>>) {
    forall u :: u in history ==> |history[u]| <= HistoryCap
  }

  /** Replays a sequence of appends, oldest first, onto one user's list. */
  function AppendAll(list: seq<HistoryEntry>, items: seq<HistoryEntry>): seq<HistoryEntry>
    decreases |items|
  {
    if items == [] then list
    else AppendAll(WithNewest(list, items[0]), items[1..])
  }

  function Reverse<T>(s: seq<T>): (r: seq<T>)
    ensures |r| == |s|
  {
    if s == [] then [] else Reverse(s[1..]) + [s[0]]
  }

  lemma {:induction false} ReverseAt<T>(s: seq<T>, i: nat)
    requires i < |s|
    ensures Reverse(s)[i] == s[|s| - 1 - i]
  {
    if i < |s| - 1 {
      ReverseAt(s[1..], i);
    }
  }

  /** `slice` of a `slice`: cutting the tail first does not change the first `n`. */
  lemma TakeOfTake<T>(a: seq<T>, b: seq<T>, n: nat)
    ensures Take(a + Take(b, n), n) == Take(a + b, n)
  {
    var lhs, rhs := Take(a + Take(b, n), n), Take(a + b, n);
    assert |lhs| == |rhs|;
    forall i | 0 <= i < |lhs|
      ensures lhs[i] == rhs[i]
    {
      if i >= |a| {
        assert lhs[i] == Take(b, n)[i - |a|];
      }
    }
  }

  /**
   * A list within the cap, after appending `items` one by one, holds the
   * newest entries first: the items in reverse order followed by the old list,
   * cut at the cap.
   */
  lemma {:induction false} AppendAllKeepsNewest(list: seq<HistoryEntry>, items: seq<HistoryEntry>)
    requires |list| <= HistoryCap
    ensures AppendAll(list, items) == Take(Reverse(items) + list, HistoryCap)
    decreases |items|
  {
    if items != [] {
      var x, rest := items[0], items[1..];
      AppendAllKeepsNewest(WithNewest(list, x), rest);
      TakeOfTake(Reverse(rest), [x] + list, HistoryCap);
      assert Reverse(items) + list == Reverse(rest) + ([x] + list);
    }
  }

  /**
   * Starting from no history, `n` appends leave the last min(n, 100) items,
   * newest first; with 150 appends the 50 oldest are gone.
   */
  lemma HistoryFromEmpty(items: seq<HistoryEntry>)
    ensures |AppendAll([], items)| == if |items| <= HistoryCap then |items| else HistoryCap
    ensures forall i :: 0 <= i < |AppendAll([], items)| ==> AppendAll([], items)[i] == items[|items| - 1 - i]
  {
    AppendAllKeepsNewest([], items);
    assert Reverse(items) + [] == Reverse(items);
    forall i | 0 <= i < |AppendAll([], items)|
      ensures AppendAll([], items)[i] == items[|items| - 1 - i]
    {
      ReverseAt(items, i);
    }
  }

  // ---------------------------------------------------------------------
  // The two files as state
  // ---------------------------------------------------------------------

  class Store {
    /** The users file. */
    var users: seq<User>
    /** The history file. */
    var history: map<UserId, seq<HistoryEntry>>

    /** `ensureDataFiles` on a fresh data directory: `[]` and `{}`. */
    constructor ()
      ensures users == [] && history == map[]
    {
      users := [];
      history := map[];
    }

    /**
     * `createUser`: appends one record at the end without checking for a
     * duplicate address, and returns its public view.
     */
    method CreateUser(id: UserId, email: string, password: string, name: string, hasher: Hasher, createdAt: string)
      returns (view: PublicUser)
      requires id != "" && FreshId(users, id)
      modifies this
      ensures users == old(users) + [User(id, email, StoredName(email, name), hasher.hash(password), createdAt)]
      ensures history == old(history)
      ensures view == View(users[|users| - 1])
    {
      var all := users;
      var user := User(id, email, StoredName(email, name), hasher.hash(password), createdAt);
      all := all + [user];
      users := all;
      view := PublicUser(user.id, user.email, user.name);
    }

    /**
     * `appendHistoryForUser`: puts `item` at the front of the user's list
     * (creating the list when absent), keeps only the newest `HistoryCap`,
     * and leaves every other user's list alone.
     */
    method AppendHistoryForUser(userId: UserId, item: HistoryEntry)
      modifies this
      ensures users == old(users)
      ensures history == old(history)[userId := WithNewest(GetHistoryForUser(old(history), userId), item)]
      ensures |history[userId]| <= HistoryCap && history[userId][0] == item
      ensures forall v :: v != userId ==> GetHistoryForUser(history, v) == GetHistoryForUser(old(history), v)
      ensures old(HistoryBounded(history)) ==> HistoryBounded(history)
    {
      var all := history;
      if userId !in all {
        all := all[userId := []];
      }
      var list := [item] + all[userId];
      all := all[userId := Take(list, HistoryCap)];
      history := all;
    }
  }
}
