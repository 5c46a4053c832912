/** POST /api/auth/register: creates an account for an e-mail address that
    holds a live verification code. The checks run in a fixed order (fields,
    code, e-mail), a UID is drawn until one is free or ten attempts are
    spent, and one transaction inserts the user and an empty USDT wallet.
    Password hashing is a parameter: `passwordHash` is what bcrypt returns. */
module RegisterApi {
  import opened Common
  import opened Store
  import opened Uid

  const MaxUidAttempts := 10

  datatype RegisterReply =
    | MissingFields             // 400: email, password and code are required
    | InvalidCode               // 400: invalid or expired verification code
    | EmailTaken                // 409: email already registered
    | UidExhausted              // 500: failed to generate a unique UID
    | ServerError               // 500: an insert failed and the transaction rolled back
    | Created(userId: nat)      // 201, announcing a 1000 USDT welcome bonus

  predicate EmailRegistered(users: seq<User>, email: string) {
    exists i :: 0 <= i < |users| && users[i].email == email
  }

  predicate UidTaken(users: seq<User>, uid: string) {
    exists i :: 0 <= i < |users| && users[i].uid == uid
  }

  /** A stored code for this address with this value that has not expired. */
  predicate CodeValid(codes: seq<VerificationCode>, email: string, code: string, now: int) {
    exists i :: 0 <= i < |codes| && codes[i].email == email && codes[i].code == code && codes[i].expiresAt > now
  }

  /** The oracle has a well-formed draw for every attempt the loop may make. */
  predicate DrawsFor(draws: seq<Draw>) {
    MaxUidAttempts <= |draws| && forall k :: 0 <= k < |draws| ==> DrawInRange(draws[k])
  }

  /** No two accounts share an e-mail address or a UID, and ids are indices. */
  predicate AccountsDistinct(users: seq<User>) {
    && (forall i :: 0 <= i < |users| ==> users[i].id == i)
    && (forall i, j :: 0 <= i < j < |users| ==> users[i].email != users[j].email && users[i].uid != users[j].uid)
  }

  /** The attempt at which the retry loop stops, when attempt `a` is next:
      the first draw from `a` on, before the tenth attempt, whose UID is not
      taken. */
  function FirstFreeAttempt(users: seq<User>, draws: seq<Draw>, a: nat): (r: Option<nat>)
    requires a <= MaxUidAttempts && DrawsFor(draws)
    ensures r.None? <==> forall k :: a <= k < MaxUidAttempts ==> UidTaken(users, UidOf(draws[k]))
    ensures r.Some? ==> && a <= r.value < MaxUidAttempts
                        && !UidTaken(users, UidOf(draws[r.value]))
                        && forall j :: a <= j < r.value ==> UidTaken(users, UidOf(draws[j]))
    decreases MaxUidAttempts - a
  {
    if a == MaxUidAttempts then None
    else if !UidTaken(users, UidOf(draws[a])) then Some(a)
    else FirstFreeAttempt(users, draws, a + 1)
  }

  /** The UID the retry loop settles on, if any. */
  function FreeUid(users: seq<User>, draws: seq<Draw>): Option<string>
    requires DrawsFor(draws)
  {
    match FirstFreeAttempt(users, draws, 0)
    case None => None
    case Some(k) => Some(UidOf(draws[k]))
  }

  /** What the handler leaves in the account tables and answers. */
  function Register(d: Directory, email: Option<string>, password: Option<string>, code: Option<string>,
                    passwordHash: string, draws: seq<Draw>, now: int): (r: (Directory, RegisterReply))
    requires DrawsFor(draws)
    ensures r.1 == MissingFields <==> FalsyString(email) || FalsyString(password) || FalsyString(code)
    ensures !r.1.Created? ==> r.0 == d
  {
    if FalsyString(email) || FalsyString(password) || FalsyString(code) then (d, MissingFields)
    else if !CodeValid(d.codes, email.value, code.value, now) then (d, InvalidCode)
    else if EmailRegistered(d.users, email.value) then (d, EmailTaken)
    else Enroll(d, email.value, passwordHash, FreeUid(d.users, draws))
  }

  /** The tail of the handler once the checks have passed: no free UID is a
      500, and otherwise one transaction inserts the user and its wallet. */
  function Enroll(d: Directory, email: string, passwordHash: string, uid: Option<string>): (r: (Directory, RegisterReply))
  {
    if uid.None? then (d, UidExhausted)
    else
      var id := |d.users|;
      // the wallet table keeps one row per user: a second insert throws
      if id in d.wallets then (d, ServerError)
      else
        (d.(users := d.users + [User(id, email, passwordHash, uid.value)],
            wallets := d.wallets[id := Wallet(0.0, 0.0)]),
         Created(id))
  }

  /** The UID retry loop. */
  method FindUnusedUid(users: seq<User>, draws: seq<Draw>) returns (found: Option<string>)
    requires DrawsFor(draws)
    ensures found == FreeUid(users, draws)
  {
    var uid := "";
    var isUnique := false;
    var attempts := 0;
    while !isUnique && attempts < MaxUidAttempts
      invariant 0 <= attempts <= MaxUidAttempts
      invariant isUnique ==> 0 < attempts && uid == UidOf(draws[attempts - 1])
      invariant FirstFreeAttempt(users, draws, 0) == if isUnique then Some(attempts - 1) else FirstFreeAttempt(users, draws, attempts)
      decreases MaxUidAttempts - attempts
    {
      uid := GenerateUid(draws[attempts]);
      assert FirstFreeAttempt(users, draws, attempts)
          == if !UidTaken(users, uid) then Some(attempts) else FirstFreeAttempt(users, draws, attempts + 1);
      if !UidTaken(users, uid) {
        isUnique := true;
      }
      attempts := attempts + 1;
    }
    if !isUnique {
      return None;
    }
    return Some(uid);
  }

  method RegisterAccount(db: Database, email: Option<string>, password: Option<string>, code: Option<string>,
                         passwordHash: string, draws: seq<Draw>, now: int) returns (reply: RegisterReply)
    requires db.Valid() && DrawsFor(draws)
    modifies db
    ensures db.Valid()
    ensures (db.Accounts(), reply) == Register(old(db.Accounts()), email, password, code, passwordHash, draws, now)
    ensures db.positions == old(db.positions) && db.controls == old(db.controls)
  {
    if FalsyString(email) || FalsyString(password) || FalsyString(code) {
      return MissingFields;
    }
    var existing := EmailRegistered(db.users, email.value);
    var verification := CodeValid(db.codes, email.value, code.value, now);
    if !verification {
      return InvalidCode;
    }
    if existing {
      return EmailTaken;
    }
    var uid := FindUnusedUid(db.users, draws);
    reply := EnrollAccount(db, email.value, passwordHash, uid);
  }

  method EnrollAccount(db: Database, email: string, passwordHash: string, uid: Option<string>)
    returns (reply: RegisterReply)
    requires db.Valid()
    modifies db
    ensures db.Valid()
    ensures (db.Accounts(), reply) == Enroll(old(db.Accounts()), email, passwordHash, uid)
    ensures db.positions == old(db.positions) && db.controls == old(db.controls)
  {
    if uid.None? {
      return UidExhausted;
    }
    var id := |db.users|;
    if id in db.wallets {
      return ServerError;
    }
    db.users := db.users + [User(id, email, passwordHash, uid.value)];
    db.wallets := db.wallets[id := Wallet(0.0, 0.0)];
    reply := Created(id);
  }

  /** The code is checked before the address: without a live code the answer
      is 400 whether or not the address is registered, and 409 is given only
      to a caller holding a live code. */
  lemma CodeCheckedFirst(d: Directory, email: string, password: string, code: string,
                         passwordHash: string, draws: seq<Draw>, now: int)
    requires DrawsFor(draws) && email != "" && password != "" && code != ""
    ensures var reply := Register(d, Some(email), Some(password), Some(code), passwordHash, draws, now).1;
            && (!CodeValid(d.codes, email, code, now) ==> reply == InvalidCode)
            && (reply == EmailTaken <==> CodeValid(d.codes, email, code, now) && EmailRegistered(d.users, email))
  {
  }

  /** The retry loop fails exactly when all ten drawn UIDs are taken. */
  lemma UidExhaustedIff(d: Directory, email: string, password: string, code: string,
                        passwordHash: string, draws: seq<Draw>, now: int)
    requires DrawsFor(draws) && email != "" && password != "" && code != ""
    requires CodeValid(d.codes, email, code, now) && !EmailRegistered(d.users, email)
    ensures Register(d, Some(email), Some(password), Some(code), passwordHash, draws, now).1 == UidExhausted
            <==> forall k :: 0 <= k < MaxUidAttempts ==> UidTaken(d.users, UidOf(draws[k]))
  {
    var uid := FreeUid(d.users, draws);
    assert Register(d, Some(email), Some(password), Some(code), passwordHash, draws, now)
        == Enroll(d, email, passwordHash, uid);
    assert uid.None? <==> FirstFreeAttempt(d.users, draws, 0).None?;
  }

  /** A new account is appended with the next id, a fresh well-formed UID and
      the hash it was given, next to a wallet holding nothing: the announced
      welcome bonus is not credited. No other wallet and no code changes. */
  lemma {:induction false} RegisterCreates(d: Directory, email: Option<string>, password: Option<string>,
                                           code: Option<string>, passwordHash: string, draws: seq<Draw>,
                                           now: int)
    requires DrawsFor(draws)
    ensures var (after, reply) := Register(d, email, password, code, passwordHash, draws, now);
            reply.Created? ==>
              && reply.userId == |d.users|
              && CodeValid(d.codes, email.value, code.value, now)
              && !EmailRegistered(d.users, email.value)
              && |after.users| == |d.users| + 1 && after.users[..|d.users|] == d.users
              && after.users[|d.users|] == User(reply.userId, email.value, passwordHash, after.users[|d.users|].uid)
              && WellFormedUid(after.users[|d.users|].uid) && !UidTaken(d.users, after.users[|d.users|].uid)
              && reply.userId !in d.wallets
              && after.wallets == d.wallets[reply.userId := Wallet(0.0, 0.0)]
              && Available(after.wallets, reply.userId) == 0.0
              && after.codes == d.codes
  {
    var (after, reply) := Register(d, email, password, code, passwordHash, draws, now);
    if reply.Created? {
      UidWellFormed(draws[FirstFreeAttempt(d.users, draws, 0).value]);
      assert after.users[..|d.users|] == d.users;
    }
  }

  /** Which answer a request with all three fields gets: 400 without a live
      code, then 409 for a registered address, then 500 when all ten UIDs
      are taken, and otherwise 201 unless the new id already owns a wallet
      row, when the unique wallet insert fails and the transaction rolls
      back. */
  lemma {:induction false} RegisterOutcomes(d: Directory, email: string, password: string, code: string,
                                            passwordHash: string, draws: seq<Draw>, now: int)
    requires DrawsFor(draws) && email != "" && password != "" && code != ""
    ensures var reply := Register(d, Some(email), Some(password), Some(code), passwordHash, draws, now).1;
            var admitted := CodeValid(d.codes, email, code, now) && !EmailRegistered(d.users, email);
            var freeUid := exists k :: 0 <= k < MaxUidAttempts && !UidTaken(d.users, UidOf(draws[k]));
            && (reply == InvalidCode <==> !CodeValid(d.codes, email, code, now))
            && (reply == ServerError <==> admitted && freeUid && |d.users| in d.wallets)
            && (reply.Created? <==> admitted && freeUid && |d.users| !in d.wallets)
  {
    var attempt := FirstFreeAttempt(d.users, draws, 0);
    if attempt.Some? {
      assert !UidTaken(d.users, UidOf(draws[attempt.value]));
    }
  }

  /** Every wallet row belongs to a registered account. */
  predicate WalletsOfUsers(d: Directory) {
    forall u :: u in d.wallets ==> u < |d.users|
  }

  /** While every wallet belongs to an account, registration never hits the
      failing wallet insert, and keeps that so. */
  lemma RegisterKeepsWalletsOfUsers(d: Directory, email: Option<string>, password: Option<string>,
                                    code: Option<string>, passwordHash: string, draws: seq<Draw>, now: int)
    requires DrawsFor(draws) && WalletsOfUsers(d)
    ensures var (after, reply) := Register(d, email, password, code, passwordHash, draws, now);
            reply != ServerError && WalletsOfUsers(after)
  {
  }

  /** Registration keeps e-mail addresses and UIDs unique. */
  lemma RegisterKeepsAccountsDistinct(d: Directory, email: Option<string>, password: Option<string>,
                                      code: Option<string>, passwordHash: string, draws: seq<Draw>, now: int)
    requires DrawsFor(draws) && AccountsDistinct(d.users)
    ensures AccountsDistinct(Register(d, email, password, code, passwordHash, draws, now).0.users)
  {
    var (after, reply) := Register(d, email, password, code, passwordHash, draws, now);
    if reply.Created? {
      var n := |d.users|;
      var user := after.users[n];
      assert !EmailRegistered(d.users, user.email) && !UidTaken(d.users, user.uid);
      forall i, j | 0 <= i < j < |after.users|
        ensures after.users[i].email != after.users[j].email && after.users[i].uid != after.users[j].uid
      {
        if j == n {
          assert after.users[i] == d.users[i];
        }
      }
    }
  }
}
