/**
 * The register, login and logout handlers: input validation, the decisions
 * they take against the `users` table, and the in-place updates of the
 * `users` and `user_tokens` tables. Storage is an in-memory `Store`; a
 * handler's transaction is one method call.
 */
module Auths {
  import opened Primitives
  import opened Destru
  import opened Ids
  import opened UserTokens

  // ---------------------------------------------------------------------
  // Input validation
  // ---------------------------------------------------------------------

  /** The character class `[0-9a-zA-Z_-]`. */
  predicate NameChar(ch: char) {
    '0' <= ch <= '9' || 'a' <= ch <= 'z' || 'A' <= ch <= 'Z' || ch == '_' || ch == '-'
  }

  /** The character class `[0-9a-fA-F]`. */
  predicate HexDigit(ch: char) {
    '0' <= ch <= '9' || 'a' <= ch <= 'f' || 'A' <= ch <= 'F'
  }

  /**
   * A match of the anchored pattern `^[class]{lo,hi}$`, scanning left to
   * right: `lo` is how many repetitions are still required, `hi` how many
   * are still allowed.
   */
  function MatchRepeat(inClass: char -> bool, s: string, lo: nat, hi: nat): (m: bool)
    ensures m ==> lo <= |s| <= hi
    decreases |s|
  {
    if s == [] then lo == 0
    else hi > 0 && inClass(s[0]) && MatchRepeat(inClass, s[1..], if lo == 0 then 0 else lo - 1, hi - 1)
  }

  /** The scan accepts exactly the strings of `lo` to `hi` characters, all in the class. */
  lemma {:induction false} MatchRepeatIff(inClass: char -> bool, s: string, lo: nat, hi: nat)
    ensures MatchRepeat(inClass, s, lo, hi) <==>
              lo <= |s| <= hi && forall i :: 0 <= i < |s| ==> inClass(s[i])
  {
    if s != [] && hi > 0 {
      MatchRepeatIff(inClass, s[1..], if lo == 0 then 0 else lo - 1, hi - 1);
      assert forall i :: 0 < i < |s| ==> s[i] == s[1..][i - 1];
      if forall i :: 0 <= i < |s[1..]| ==> inClass(s[1..][i]) {
        assert inClass(s[0]) ==> forall i :: 0 <= i < |s| ==> inClass(s[i]);
      }
    }
  }

  /** `NAME_REGEX`, `^[0-9a-zA-Z_-]{3,100}$`. */
  function IsValidName(name: string): (ok: bool)
    ensures ok <==> 3 <= |name| <= 100 && forall i :: 0 <= i < |name| ==> NameChar(name[i])
  {
    MatchRepeatIff(NameChar, name, 3, 100);
    MatchRepeat(NameChar, name, 3, 100)
  }

  /** `PASSWORD_REGEX`, `^[0-9a-fA-F]{64}$`: the client sends a 64-digit hex digest, never the raw password. */
  function IsValidPassword(password: string): (ok: bool)
    ensures ok <==> |password| == 64 && forall i :: 0 <= i < |password| ==> HexDigit(password[i])
  {
    MatchRepeatIff(HexDigit, password, 64, 64);
    MatchRepeat(HexDigit, password, 64, 64)
  }

  // ---------------------------------------------------------------------
  // Session expiry
  // ---------------------------------------------------------------------

  const HOUR: int := 3600
  const DAY: int := 24 * HOUR

  /** The session lifetime: 30 days with remember-me, else 24 hours; an absent flag means no. */
  function LoginExpiry(remember: Option<bool>, now: int): (expired: int)
    ensures remember == Some(true) ==> expired == now + 30 * DAY
    ensures remember != Some(true) ==> expired == now + 24 * HOUR
  {
    if remember.UnwrapOr(false) then now + 30 * DAY else now + 24 * HOUR
  }

  // ---------------------------------------------------------------------
  // The users table and the login decision
  // ---------------------------------------------------------------------

  /** A row of `users`; the `password` column may be NULL. */
  datatype UserRow = UserRow(id: I64, name: string, password: Option<string>)

  /** Ids from the `users` sequence are positive and increasing; names are unique. */
  ghost predicate UsersWellFormed(users: seq<UserRow>) {
    && (forall i :: 0 <= i < |users| ==> users[i].id > 0)
    && (forall i, j :: 0 <= i < j < |users| ==> users[i].id < users[j].id && users[i].name != users[j].name)
  }

  /** `SELECT ... FROM users WHERE name = $1`, first row if any. */
  function FindUser(users: seq<UserRow>, name: string): (r: Option<UserRow>)
    ensures r.None? <==> forall u :: u in users ==> u.name != name
    ensures r.Some? ==> r.value in users && r.value.name == name
  {
    if users == [] then None
    else if users[0].name == name then Some(users[0])
    else FindUser(users[1..], name)
  }

  /** The failures the auth handlers report. */
  datatype AuthError = InvalidName | InvalidPassword | NameExists | NotFound | Unauthorized

  /**
   * The login decision: empty name, then empty password (no pattern is
   * applied), then unknown name, then a failed verification against the
   * stored hash (a NULL hash reads as the empty string). On success, the
   * user's primary key.
   */
  function CheckLogin(users: seq<UserRow>, name: Option<string>, password: Option<string>, k: Crypto)
    : (r: Result<I64, AuthError>)
    ensures r == Failure(InvalidName) <==> name.UnwrapOr("") == ""
    ensures r == Failure(InvalidPassword) <==> name.UnwrapOr("") != "" && password.UnwrapOr("") == ""
    ensures r == Failure(NotFound) <==>
              name.UnwrapOr("") != "" && password.UnwrapOr("") != "" && FindUser(users, name.UnwrapOr("")).None?
    ensures r == Failure(Unauthorized) <==>
              name.UnwrapOr("") != "" && password.UnwrapOr("") != "" && FindUser(users, name.UnwrapOr("")).Some? &&
              !k.verify(password.UnwrapOr(""), FindUser(users, name.UnwrapOr("")).value.password.UnwrapOr(""))
    ensures r.Success? <==>
              name.UnwrapOr("") != "" && password.UnwrapOr("") != "" && FindUser(users, name.UnwrapOr("")).Some? &&
              k.verify(password.UnwrapOr(""), FindUser(users, name.UnwrapOr("")).value.password.UnwrapOr(""))
    ensures r.Success? ==> r.value == FindUser(users, name.UnwrapOr("")).value.id
    ensures r.Success? ==>
              (exists u :: u in users && u.name == name.UnwrapOr("") && u.id == r.value &&
                           k.verify(password.UnwrapOr(""), u.password.UnwrapOr("")))
  {
    var nm := name.UnwrapOr("");
    var pw := password.UnwrapOr("");
    if nm == "" then Failure(InvalidName)
    else if pw == "" then Failure(InvalidPassword)
    else match FindUser(users, nm)
      case None => Failure(NotFound)
      case Some(u) => if k.verify(pw, u.password.UnwrapOr("")) then Success(u.id) else Failure(Unauthorized)
  }

  /** The row a successful registration appends. */
  function NewUser(id: I64, name: string, password: string, salt: string, k: Crypto): (u: UserRow)
    ensures u.id == id && u.name == name && u.password.Some?
    ensures Faithful(k) ==> k.verify(password, u.password.value)
    ensures Faithful(k) ==> forall attempt :: k.verify(attempt, u.password.value) ==> attempt == password
  {
    UserRow(id, name, Some(k.hash(password, salt)))
  }

  /** A freshly registered user can log in with the password they registered. */
  lemma RegisteredUserLogsIn(users: seq<UserRow>, id: I64, name: string, password: string, salt: string, k: Crypto)
    requires Faithful(k) && IsValidName(name) && IsValidPassword(password)
    requires forall u :: u in users ==> u.name != name
    ensures CheckLogin(users + [NewUser(id, name, password, salt, k)], Some(name), Some(password), k) == Success(id)
  {
  }

  /** Any other non-empty password is refused for that user. */
  lemma RegisteredUserWrongPassword(users: seq<UserRow>, id: I64, name: string, password: string,
                                                       attempt: string, salt: string, k: Crypto)
    requires Faithful(k) && IsValidName(name) && attempt != password && attempt != ""
    requires forall u :: u in users ==> u.name != name
    ensures CheckLogin(users + [NewUser(id, name, password, salt, k)], Some(name), Some(attempt), k) == Failure(Unauthorized)
  {
  }

  // ---------------------------------------------------------------------
  // The store
  // ---------------------------------------------------------------------

  /** The foreign services a login relies on: Sqids, Argon2 and the JWT signer. */
  datatype Services = Services(codec: Codec, crypto: Crypto, sign: Claims -> string)

  /** What the login handler answers: the user's id, the cookie's token and expiry; a rejection; or an aborted request. */
  datatype LoginResult =
    | LoggedIn(id: TypedId, token: string, expired: int)
    | Rejected(error: AuthError)
    | Aborted

  class Store {
    var users: seq<UserRow>
    var tokens: seq<TokenRow>

    ghost predicate Valid()
      reads this
    {
      UsersWellFormed(users) && IdsIncreasing(tokens)
    }

    constructor ()
      ensures Valid() && users == [] && tokens == []
    {
      users := [];
      tokens := [];
    }

    /**
     * `register`: the name is checked before the password, a missing field
     * reads as empty, and neither rejection touches storage; a taken name
     * leaves the table as it was; otherwise exactly one row is appended with
     * the Argon2 hash of the password under `salt`. `newId` is the next
     * value of the `users` id sequence.
     */
    method Register(name: Option<string>, password: Option<string>, newId: I64, salt: string, k: Crypto)
      returns (r: Result<(), AuthError>)
      requires Valid()
      requires newId > 0 && forall u :: u in users ==> u.id < newId
      modifies this
      ensures Valid() && tokens == old(tokens)
      ensures r == Failure(InvalidName) <==> !IsValidName(name.UnwrapOr(""))
      ensures r == Failure(InvalidPassword) <==>
                IsValidName(name.UnwrapOr("")) && !IsValidPassword(password.UnwrapOr(""))
      ensures r == Failure(NameExists) <==>
                IsValidName(name.UnwrapOr("")) && IsValidPassword(password.UnwrapOr("")) &&
                FindUser(old(users), name.UnwrapOr("")).Some?
      ensures r.Success? <==>
                IsValidName(name.UnwrapOr("")) && IsValidPassword(password.UnwrapOr("")) &&
                FindUser(old(users), name.UnwrapOr("")).None?
      ensures r.Success? ==> users == old(users) + [NewUser(newId, name.UnwrapOr(""), password.UnwrapOr(""), salt, k)]
      ensures r.Failure? ==> users == old(users)
    {
      var nm := name.UnwrapOr("");
      if !IsValidName(nm) {
        return Failure(InvalidName);
      }
      var pw := password.UnwrapOr("");
      if !IsValidPassword(pw) {
        return Failure(InvalidPassword);
      }
      if FindUser(users, nm).Some? {
        return Failure(NameExists);
      }
      var row := NewUser(newId, nm, pw, salt, k);
      users := users + [row];
      r := Success(());
    }

    /** `DELETE ... WHERE "user" = $1 AND expired < NOW()`. */
    method DeleteExpiredTokens(user: int, dbNow: int)
      requires Valid()
      modifies this
      ensures Valid() && users == old(users)
      ensures tokens == DeleteWhere(old(tokens), ExpiredBefore(user, dbNow))
    {
      DeleteKeepsIdsIncreasing(tokens, ExpiredBefore(user, dbNow));
      tokens := DeleteWhere(tokens, ExpiredBefore(user, dbNow));
    }

    /** `DELETE ... WHERE "user" = $1 AND id NOT IN (... ORDER BY id DESC LIMIT 5)`. */
    method DeleteExcessTokens(user: int)
      requires Valid()
      modifies this
      ensures Valid() && users == old(users)
      ensures tokens == DeleteWhere(old(tokens), NotAmongNewest(user, SESSION_LIMIT, old(tokens)))
      ensures |OwnedBy(tokens, user)| == Min(|OwnedBy(old(tokens), user)|, SESSION_LIMIT)
    {
      DeleteKeepsIdsIncreasing(tokens, NotAmongNewest(user, SESSION_LIMIT, tokens));
      TrimCount(tokens, user, SESSION_LIMIT);
      tokens := DeleteWhere(tokens, NotAmongNewest(user, SESSION_LIMIT, tokens));
    }

    /** `INSERT INTO user_tokens ...`, with an id larger than every id in the table. */
    method InsertToken(row: TokenRow)
      requires Valid() && forall x :: x in tokens ==> x.id < row.id
      modifies this
      ensures Valid() && users == old(users)
      ensures tokens == old(tokens) + [row]
    {
      tokens := tokens + [row];
    }

    /**
     * `login`: the decision of `CheckLogin`; on success the expiry from the
     * application clock `now`, the claims and their signature, then the
     * three token-table statements in order, with `dbNow` the transaction's
     * clock and `newTokenId` the next value of the token id sequence. A
     * rejection or an aborted request (the claims' `unwrap`) leaves both
     * tables as they were.
     */
    method Login(name: Option<string>, password: Option<string>, remember: Option<bool>,
                 now: int, dbNow: int, newTokenId: int, env: Services)
      returns (r: LoginResult)
      requires Valid()
      requires forall x :: x in tokens ==> x.id < newTokenId
      modifies this
      ensures Valid() && users == old(users)
      ensures r.Rejected? <==> CheckLogin(users, name, password, env.crypto).Failure?
      ensures r.Rejected? ==> r.error == CheckLogin(users, name, password, env.crypto).error
      ensures !r.LoggedIn? ==> tokens == old(tokens)
      ensures r.Aborted? ==>
                && CheckLogin(users, name, password, env.crypto).Success?
                && GenerateClaims(env.codec, CheckLogin(users, name, password, env.crypto).value,
                                  LoginExpiry(remember, now)).Failure?
      ensures r.LoggedIn? ==>
                && CheckLogin(users, name, password, env.crypto) == Success(r.id.value)
                && r.id == From(UserID, r.id.value)
                && r.expired == LoginExpiry(remember, now)
                && GenerateClaims(env.codec, r.id.value, r.expired).Success?
                && r.token == env.sign(GenerateClaims(env.codec, r.id.value, r.expired).value)
                && tokens == Issue(old(tokens), TokenRow(newTokenId, r.id.value, r.token, r.expired), dbNow)
      ensures r.LoggedIn? ==>
                && |OwnedBy(tokens, r.id.value)| <= SESSION_LIMIT + 1
                && OwnedByOthers(tokens, r.id.value) == OwnedByOthers(old(tokens), r.id.value)
    {
      var checked := CheckLogin(users, name, password, env.crypto);
      if checked.Failure? {
        return Rejected(checked.error);
      }
      var id := checked.value;
      var expired := LoginExpiry(remember, now);
      var claims := GenerateClaims(env.codec, id, expired);
      if claims.Failure? {
        return Aborted;
      }
      var token := env.sign(claims.value);
      var row := TokenRow(newTokenId, id, token, expired);
      DeleteExpiredTokens(id, dbNow);
      DeleteExcessTokens(id);
      InsertToken(row);
      IssueBound(old(tokens), row, dbNow);
      IssueSparesOthers(old(tokens), row, dbNow);
      r := LoggedIn(From(UserID, id), token, expired);
    }

    /**
     * `logout`: with a `Token` cookie, deletes every row carrying its value
     * and nothing else; without one the handler's `unwrap` panics before
     * storage is touched.
     */
    method Logout(cookie: Option<string>) returns (r: Outcome<()>)
      requires Valid()
      modifies this
      ensures Valid() && users == old(users)
      ensures r.Panicked? <==> cookie.None?
      ensures cookie.None? ==> tokens == old(tokens)
      ensures cookie.Some? ==> tokens == DeleteWhere(old(tokens), TokenIs(cookie.value))
    {
      if cookie.None? {
        return Panicked;
      }
      DeleteKeepsIdsIncreasing(tokens, TokenIs(cookie.value));
      tokens := DeleteWhere(tokens, TokenIs(cookie.value));
      r := Returned(());
    }
  }
}
