/** pages/api/auth/reset-password.ts: the HTTP route that redeems a reset
    token. It differs from the server action in two ways: a token expiring at
    this very moment is still accepted, and only the row of this token AND
    this user is deleted. */
module ResetPasswordApi {
  import opened Base
  import opened Rows
  import opened Store
  import PasswordActions

  /** `WHERE token = ? AND userId = ?` */
  function Matching(token: string, userId: string): ResetToken -> bool
  {
    (t: ResetToken) => t.token == token && t.userId == userId
  }

  /** The row the route inspects: the first one with the token and the user. */
  function Record(tokens: seq<ResetToken>, token: string, userId: string): Option<ResetToken>
  {
    First(tokens, Matching(token, userId))
  }

  /** The token checks pass: a POST whose first matching row expires no
      earlier than now. */
  predicate Accepted(tokens: seq<ResetToken>, verb: Verb, token: string, userId: string, now: int)
  {
    var record := Record(tokens, token, userId);
    verb == POST && record.Some? && record.value.expiresAt >= now
  }

  /** The route's reply; the 405 reply has an empty body. `password` is None
      when the body has no password: bcrypt's `hash` then rejects, and since
      the route has no try/catch it ends without writing a reply (None). */
  function ResetReply(tokens: seq<ResetToken>, verb: Verb, token: string, userId: string, password: Option<string>,
                      now: int): Option<Reply>
  {
    var record := Record(tokens, token, userId);
    if verb != POST then Some(Reply(405, ""))
    else if record.None? then Some(Reply(400, "Invalid or expired token"))
    else if record.value.expiresAt < now then Some(Reply(400, "Token expired"))
    else if password.None? then None
    else Some(Reply(200, "Password updated successfully"))
  }

  function UsersAfterApiReset(users: seq<User>, tokens: seq<ResetToken>, verb: Verb, token: string, userId: string,
                              password: Option<string>, now: int): seq<User>
  {
    if Accepted(tokens, verb, token, userId, now) && password.Some? then
      SetPassword(users, WithId(userId), Hash(password.value), now, true)
    else users
  }

  function TokensAfterApiReset(tokens: seq<ResetToken>, verb: Verb, token: string, userId: string,
                               password: Option<string>, now: int): seq<ResetToken>
  {
    if Accepted(tokens, verb, token, userId, now) && password.Some? then Delete(tokens, Matching(token, userId))
    else tokens
  }

  method Handle(db: Database, verb: Verb, token: string, userId: string, password: Option<string>, now: int)
    returns (reply: Option<Reply>)
    modifies db
    ensures reply == ResetReply(old(db.resetTokens), verb, token, userId, password, now)
    ensures db.users == UsersAfterApiReset(old(db.users), old(db.resetTokens), verb, token, userId, password, now)
    ensures db.resetTokens == TokensAfterApiReset(old(db.resetTokens), verb, token, userId, password, now)
    ensures db.complaints == old(db.complaints) && db.notifications == old(db.notifications)
  {
    if verb != POST {
      return Some(Reply(405, ""));
    }
    var record := First(db.resetTokens, Matching(token, userId));
    if record.None? {
      return Some(Reply(400, "Invalid or expired token"));
    }
    if record.value.expiresAt < now {
      return Some(Reply(400, "Token expired"));
    }
    if password.None? {
      return None;
    }
    db.users := SetPassword(db.users, WithId(userId), Hash(password.value), now, true);
    db.resetTokens := Delete(db.resetTokens, Matching(token, userId));
    reply := Some(Reply(200, "Password updated successfully"));
  }

  /** A POST with a password succeeds exactly when a row holds the token for
      the user and the first such row expires no earlier than now; no row
      gives "Invalid or expired token"; an accepted reset rewrites only
      userId's rows, with a digest of the new password. */
  lemma ApiResetAccepts(users: seq<User>, tokens: seq<ResetToken>, token: string, userId: string,
                        password: string, now: int)
    ensures ResetReply(tokens, POST, token, userId, Some(password), now) == Some(Reply(200, "Password updated successfully"))
            <==> Record(tokens, token, userId).Some? && Record(tokens, token, userId).value.expiresAt >= now
    ensures (forall t | t in tokens :: !(t.token == token && t.userId == userId)) ==>
              ResetReply(tokens, POST, token, userId, Some(password), now) == Some(Reply(400, "Invalid or expired token"))
    ensures var after := UsersAfterApiReset(users, tokens, POST, token, userId, Some(password), now);
            |after| == |users| &&
            (forall i | 0 <= i < |users| && users[i].id != userId :: after[i] == users[i]) &&
            (Accepted(tokens, POST, token, userId, now) ==>
               forall i | 0 <= i < |users| && users[i].id == userId :: Matches(password, after[i].password))
  {
    MatchesExactly(password, password);
  }

  /** A body without a password is answered by the token checks exactly as
      one with a password would be; once they pass, the route ends without a
      reply and neither the password nor the token has changed, so the link
      still works. */
  lemma MissingPasswordThrows(users: seq<User>, tokens: seq<ResetToken>, verb: Verb, token: string, userId: string,
                              password: string, now: int)
    ensures ResetReply(tokens, verb, token, userId, None, now) == None <==> Accepted(tokens, verb, token, userId, now)
    ensures !Accepted(tokens, verb, token, userId, now) ==>
              ResetReply(tokens, verb, token, userId, None, now) == ResetReply(tokens, verb, token, userId, Some(password), now)
    ensures UsersAfterApiReset(users, tokens, verb, token, userId, None, now) == users
    ensures TokensAfterApiReset(tokens, verb, token, userId, None, now) == tokens
    ensures Accepted(tokens, verb, token, userId, now) ==>
              ResetReply(tokens, POST, token, userId, Some(password), now) == Some(Reply(200, "Password updated successfully"))
  {
  }

  /** After an accepted reset no row of that token and user is left, so using
      the link again is refused as invalid, with or without a password. */
  lemma ApiResetIsSingleUse(tokens: seq<ResetToken>, token: string, userId: string, password: string, now: int,
                            again: Option<string>, later: int)
    requires Accepted(tokens, POST, token, userId, now)
    ensures ResetReply(TokensAfterApiReset(tokens, POST, token, userId, Some(password), now), POST, token, userId,
                       again, later)
            == Some(Reply(400, "Invalid or expired token"))
  {
    var after := TokensAfterApiReset(tokens, POST, token, userId, Some(password), now);
    assert forall t | t in after :: !Matching(token, userId)(t);
  }

  /** The route and the server action disagree at the boundary: a token that
      expires at this very moment resets the password through the route and is
      refused by the action. */
  lemma BoundaryDiffers(id: string, userId: string, role: string, token: string, now: int)
    ensures var tokens := [ResetToken(id, userId, role, token, now)];
            Accepted(tokens, POST, token, userId, now) &&
            PasswordActions.ResetOutcome(tokens, token, userId, now, PasswordActions.ResetRuns)
              == ActionResult(false, PasswordActions.InvalidToken)
  {
    var tokens := [ResetToken(id, userId, role, token, now)];
    PasswordActions.ResetNeedsLiveToken([], tokens, token, userId, "", now, PasswordActions.ResetRuns);
  }

  /** They also delete differently: a row holding the same token for another
      user survives a reset through the route, and not one through the action. */
  lemma DeletionDiffers(tokens: seq<ResetToken>, token: string, userId: string, password: string, now: int,
                        other: ResetToken)
    requires Accepted(tokens, POST, token, userId, now)
    requires PasswordActions.ResetOutcome(tokens, token, userId, now, PasswordActions.ResetRuns).success
    requires other in tokens && other.token == token && other.userId != userId
    ensures other in TokensAfterApiReset(tokens, POST, token, userId, Some(password), now)
    ensures other !in PasswordActions.TokensAfterReset(tokens, token, userId, now, PasswordActions.ResetRuns)
  {
  }
}
