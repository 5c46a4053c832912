/** POST /api/auth/send-code: stores a fresh four-digit verification code for
    an e-mail address, at most once a minute per address, valid for ten
    minutes, and mails it. `Math.random` is an index oracle and delivery by
    e-mail is an outcome passed in. */
module SendCodeApi {
  import opened Common
  import opened Text
  import opened Store
  import opened RegisterApi

  const CooldownSeconds := 60
  const CodeLifetimeMs := 10 * 60 * 1000

  datatype CodeReply =
    | MissingEmail                  // 400: email is required
    | TooSoon(retryAfter: int)      // 429, also sent as the Retry-After header
    | MailFailed                    // 500: the code is stored but the mail was not sent
    | Sent                          // 200: expiresIn 600, cooldown 60

  /** `generate4DigitCode`: `draw` is the value of floor(Math.random() * 9000). */
  function Generate4DigitCode(draw: nat): (code: string)
    requires draw < 9000
    ensures |code| == 4 && AllDigits(code)
    ensures DigitsValue(code) == 1000 + draw
  {
    FourDigitLength(1000 + draw);
    NatToStringRoundTrip(1000 + draw);
    NatToString(1000 + draw)
  }

  /** `createdAt` of the newest code stored for the address, if any. */
  function LatestCreated(codes: seq<VerificationCode>, email: string): (r: Option<int>)
    ensures r.None? <==> forall i :: 0 <= i < |codes| ==> codes[i].email != email
    ensures r.Some? ==> exists i :: 0 <= i < |codes| && codes[i].email == email && codes[i].createdAt == r.value
    ensures r.Some? ==> forall i :: 0 <= i < |codes| && codes[i].email == email ==> codes[i].createdAt <= r.value
  {
    if codes == [] then None
    else
      var rest := LatestCreated(codes[..|codes| - 1], email);
      var last := codes[|codes| - 1];
      assert forall i :: 0 <= i < |codes| - 1 ==> codes[..|codes| - 1][i] == codes[i];
      if last.email != email then rest
      else if rest.Some? && rest.value >= last.createdAt then rest
      else Some(last.createdAt)
  }

  /** Whole seconds left of the cooldown: 60 minus the elapsed milliseconds
      divided by 1000 and rounded down. Division by a positive constant is
      the same rounded-down quotient in Dafny as `Math.floor` in JavaScript,
      negative elapsed time included. */
  function Remaining(now: int, createdAt: int): int {
    CooldownSeconds - (now - createdAt) / 1000
  }

  /** What the handler leaves in the code table and answers. */
  function SendCode(codes: seq<VerificationCode>, email: Option<string>, draw: nat, now: int,
                    delivered: bool): (r: (seq<VerificationCode>, CodeReply))
    requires draw < 9000
    ensures FalsyString(email) <==> r.1 == MissingEmail
    ensures r.1.MissingEmail? || r.1.TooSoon? ==> r.0 == codes
  {
    if FalsyString(email) then (codes, MissingEmail)
    else
      var last := LatestCreated(codes, email.value);
      if last.Some? && Remaining(now, last.value) > 0 then (codes, TooSoon(Remaining(now, last.value)))
      else
        var record := VerificationCode(email.value, Generate4DigitCode(draw), now + CodeLifetimeMs, now);
        (codes + [record], if delivered then Sent else MailFailed)
  }

  method SendCodePost(db: Database, email: Option<string>, draw: nat, now: int, delivered: bool)
    returns (reply: CodeReply)
    requires draw < 9000
    modifies db
    ensures (db.codes, reply) == SendCode(old(db.codes), email, draw, now, delivered)
    ensures db.users == old(db.users) && db.wallets == old(db.wallets)
    ensures db.positions == old(db.positions) && db.controls == old(db.controls)
  {
    if FalsyString(email) {
      return MissingEmail;
    }
    var last := LatestCreated(db.codes, email.value);
    if last.Some? {
      var remaining := Remaining(now, last.value);
      if remaining > 0 {
        return TooSoon(remaining);
      }
    }
    var code := Generate4DigitCode(draw);
    var expiresAt := now + CodeLifetimeMs;
    db.codes := db.codes + [VerificationCode(email.value, code, expiresAt, now)];
    if !delivered {
      return MailFailed;
    }
    reply := Sent;
  }

  /** The cooldown is exactly the first 60000 ms after the last code, and
      the wait it reports is between 1 and 60 seconds when that code is not
      dated in the future. */
  lemma {:induction false} CooldownIff(now: int, createdAt: int)
    ensures Remaining(now, createdAt) > 0 <==> now - createdAt < 60000
    ensures 0 <= now - createdAt < 60000 ==> 1 <= Remaining(now, createdAt) <= CooldownSeconds
  {
    var q, r := (now - createdAt) / 1000, (now - createdAt) % 1000;
    assert now - createdAt == q * 1000 + r && 0 <= r < 1000;
  }

  /** A 429 is given exactly when the address has a code younger than a
      minute; then nothing is stored. Otherwise a new code of four digits,
      expiring in ten minutes, is stored, and stays stored if mailing fails. */
  lemma {:induction false} SendCodeOutcome(codes: seq<VerificationCode>, email: string, draw: nat, now: int,
                                           delivered: bool)
    requires draw < 9000 && email != ""
    ensures var (after, reply) := SendCode(codes, Some(email), draw, now, delivered);
            && (reply.TooSoon? <==> exists i :: 0 <= i < |codes| && codes[i].email == email
                                                && now - codes[i].createdAt < 60000)
            && (reply.TooSoon? ==> reply.retryAfter > 0 && after == codes)
            && (!reply.TooSoon? ==>
                  && (reply == Sent <==> delivered)
                  && |after| == |codes| + 1 && after[..|codes|] == codes
                  && after[|codes|].email == email && after[|codes|].createdAt == now
                  && after[|codes|].expiresAt == now + 600000
                  && |after[|codes|].code| == 4 && AllDigits(after[|codes|].code)
                  && 1000 <= DigitsValue(after[|codes|].code) <= 9999)
  {
    var last := LatestCreated(codes, email);
    if last.Some? {
      CooldownIff(now, last.value);
      if exists i :: 0 <= i < |codes| && codes[i].email == email && now - codes[i].createdAt < 60000 {
        var i :| 0 <= i < |codes| && codes[i].email == email && now - codes[i].createdAt < 60000;
        assert codes[i].createdAt <= last.value;
      }
    }
    var after := SendCode(codes, Some(email), draw, now, delivered).0;
    if after != codes {
      assert after[..|codes|] == codes;
    }
  }

  /** Two codes are never stored for one address less than a minute apart:
      after a code is stored at `t1`, a request before `t1 + 60000` is a 429. */
  lemma {:induction false} CooldownHolds(codes: seq<VerificationCode>, email: string, draw1: nat, t1: int,
                                         delivered1: bool, draw2: nat, t2: int, delivered2: bool)
    requires draw1 < 9000 && draw2 < 9000 && email != ""
    requires !SendCode(codes, Some(email), draw1, t1, delivered1).1.TooSoon?
    requires t2 < t1 + 60000
    ensures SendCode(SendCode(codes, Some(email), draw1, t1, delivered1).0, Some(email), draw2, t2, delivered2).1.TooSoon?
  {
    var after := SendCode(codes, Some(email), draw1, t1, delivered1).0;
    var last := LatestCreated(after, email);
    assert after[|after| - 1].createdAt == t1;
    CooldownIff(t2, last.value);
  }

  /** A stored code lets its address register until it expires, even when
      mailing it failed. */
  lemma {:induction false} StoredCodeRegisters(codes: seq<VerificationCode>, email: string, draw: nat, now: int,
                                               delivered: bool, t: int)
    requires draw < 9000 && email != "" && t < now + CodeLifetimeMs
    ensures var (after, reply) := SendCode(codes, Some(email), draw, now, delivered);
            !reply.TooSoon? ==> CodeValid(after, email, Generate4DigitCode(draw), t)
  {
    var after := SendCode(codes, Some(email), draw, now, delivered).0;
    if after != codes {
      assert after[|codes|].email == email;
    }
  }
}
