/** app/actions/password-actions.ts: the server actions behind the "forgot
    password" form. `requestPasswordReset` issues a one-hour token for an
    account found by email AND role; `resetPassword` redeems a live token
    for a user once and deletes it. */
module PasswordActions {
  import opened Base
  import opened Rows
  import opened Store

  /** One hour, in milliseconds: how long an issued token stays redeemable. */
  const ResetWindow: int := 3600000

  const NotRevealed := "If an account exists with this email, you will receive a reset link."
  const LinkSent := "Reset link sent successfully"
  const RequestFailed := "Failed to process reset request"
  const InvalidToken := "Invalid or expired reset token"
  const ResetDone := "Password reset successful"
  const ResetFailed := "Failed to reset password"

  // ---------------------------------------------------------------------
  // The reset link

  const LinkPath := "/reset-password?token="
  const UserParam := "&userId="
  const RoleParam := "&role="

  /** `${appUrl}/reset-password?token=${token}&userId=${userId}` followed by
      `&role=${role}` when a role is given. */
  function ResetLink(appUrl: string, token: string, userId: string, role: Option<string>): string
  {
    appUrl + LinkPath + token + UserParam + userId + (if role.Some? then RoleParam + role.value else "")
  }

  lemma PieceAt(a: string, b: string, c: string)
    ensures (a + b + c)[|a|..|a| + |b|] == b
  {
    assert (a + b + c)[|a|..|a| + |b|] == (a + b)[|a|..];
  }

  /** The link starts at the application's address and carries the token and
      the user id, each right after its parameter name. */
  lemma LinkCarries(appUrl: string, token: string, userId: string, role: Option<string>)
    ensures var link := ResetLink(appUrl, token, userId, role);
            var t := |appUrl| + |LinkPath|;
            var u := t + |token| + |UserParam|;
            u + |userId| <= |link| &&
            link[..|appUrl|] == appUrl && link[|appUrl|..t] == LinkPath &&
            link[t..t + |token|] == token && link[t + |token|..u] == UserParam &&
            link[u..u + |userId|] == userId
  {
    var tail := if role.Some? then RoleParam + role.value else "";
    var link := ResetLink(appUrl, token, userId, role);
    var t := |appUrl| + |LinkPath|;
    var u := t + |token| + |UserParam|;
    assert link == appUrl + LinkPath + token + UserParam + userId + tail;
    PieceAt([], appUrl, LinkPath + token + UserParam + userId + tail);
    PieceAt(appUrl, LinkPath, token + UserParam + userId + tail);
    PieceAt(appUrl + LinkPath, token, UserParam + userId + tail);
    PieceAt(appUrl + LinkPath + token, UserParam, userId + tail);
    PieceAt(appUrl + LinkPath + token + UserParam, userId, tail);
  }

  // ---------------------------------------------------------------------
  // requestPasswordReset

  /** Which statement of requestPasswordReset throws, if any: the user lookup,
      the token insert or the mail delivery. */
  datatype RequestFault = RequestRuns | LookupThrows | InsertThrows | MailThrows

  /** The row requestPasswordReset inserts for `userId`. */
  function IssuedToken(tokenId: string, userId: string, token: string, role: string, now: int): ResetToken
  {
    ResetToken(tokenId, userId, role, token, now + ResetWindow)
  }

  /** The account a request is for: the first row with that email AND role. */
  function Account(users: seq<User>, email: string, role: string): Option<User>
  {
    First(users, WithEmailAndRole(email, role))
  }

  /** What requestPasswordReset returns. */
  function RequestOutcome(users: seq<User>, email: string, role: string, fault: RequestFault): ActionResult
  {
    if fault == LookupThrows then ActionResult(false, RequestFailed)
    else if Account(users, email, role).None? then ActionResult(true, NotRevealed)
    else if fault == RequestRuns then ActionResult(true, LinkSent)
    else ActionResult(false, RequestFailed)
  }

  /** The token table after requestPasswordReset: one row more once the insert
      has run, the same table otherwise. */
  function TokensAfterRequest(tokens: seq<ResetToken>, users: seq<User>, email: string, role: string,
                              token: string, tokenId: string, now: int, fault: RequestFault): seq<ResetToken>
  {
    var account := Account(users, email, role);
    if fault == LookupThrows || fault == InsertThrows || account.None? then tokens
    else tokens + [IssuedToken(tokenId, account.value.id, token, role, now)]
  }

  /** `token` and `tokenId` are the two uuids the action draws, `appUrl` the
      configured application address; `link` is the URL handed to the mailer,
      if the action gets that far. */
  method RequestPasswordReset(db: Database, email: string, role: string, token: string, tokenId: string,
                              appUrl: string, now: int, fault: RequestFault)
    returns (result: ActionResult, link: Option<string>)
    modifies db
    ensures result == RequestOutcome(old(db.users), email, role, fault)
    ensures db.resetTokens == TokensAfterRequest(old(db.resetTokens), old(db.users), email, role, token, tokenId, now, fault)
    ensures link.Some? <==> fault in {RequestRuns, MailThrows} && Account(old(db.users), email, role).Some?
    ensures link.Some? ==> link.value == ResetLink(appUrl, token, Account(old(db.users), email, role).value.id, Some(role))
    ensures db.users == old(db.users) && db.complaints == old(db.complaints)
    ensures db.notifications == old(db.notifications)
  {
    link := None;
    if fault == LookupThrows {
      return ActionResult(false, RequestFailed), link;
    }
    var user := First(db.users, WithEmailAndRole(email, role));
    if user.None? {
      return ActionResult(true, NotRevealed), link;
    }
    if fault == InsertThrows {
      return ActionResult(false, RequestFailed), link;
    }
    db.resetTokens := db.resetTokens + [ResetToken(tokenId, user.value.id, role, token, now + 3600000)];
    link := Some(ResetLink(appUrl, token, user.value.id, Some(role)));
    if fault == MailThrows {
      return ActionResult(false, RequestFailed), link;
    }
    result := ActionResult(true, LinkSent);
  }

  /** Whether an account exists does not show in the success flag: barring a
      failure the action succeeds either way, and only an existing account gets
      a token (the messages of the two cases do differ). */
  lemma RequestHidesAccount(tokens: seq<ResetToken>, users: seq<User>, email: string, role: string,
                            token: string, tokenId: string, now: int)
    ensures RequestOutcome(users, email, role, RequestRuns).success
    ensures Account(users, email, role).None? <==>
              TokensAfterRequest(tokens, users, email, role, token, tokenId, now, RequestRuns) == tokens
    ensures Account(users, email, role).None? ==> forall u | u in users :: !(u.email == email && u.role == role)
  {
    if Account(users, email, role).Some? {
      assert |TokensAfterRequest(tokens, users, email, role, token, tokenId, now, RequestRuns)| == |tokens| + 1;
    }
  }

  /** A request that reaches the insert adds exactly one row, bound to the
      account's id and the requested role, expiring one hour later; a failed
      mail delivery does not take the row back. */
  lemma RequestIssuesOneToken(tokens: seq<ResetToken>, users: seq<User>, email: string, role: string,
                              token: string, tokenId: string, now: int, fault: RequestFault)
    requires fault in {RequestRuns, MailThrows} && Account(users, email, role).Some?
    ensures var after := TokensAfterRequest(tokens, users, email, role, token, tokenId, now, fault);
            var row := after[|tokens|];
            |after| == |tokens| + 1 && after[..|tokens|] == tokens &&
            row.userId == Account(users, email, role).value.id && row.role == role &&
            row.token == token && row.expiresAt == now + ResetWindow
  {
  }

  // ---------------------------------------------------------------------
  // resetPassword

  /** `WHERE token = ? AND userId = ? AND expiresAt > NOW()` */
  predicate Redeemable(t: ResetToken, token: string, userId: string, now: int)
  {
    t.token == token && t.userId == userId && t.expiresAt > now
  }

  function RedeemableBy(token: string, userId: string, now: int): ResetToken -> bool
  {
    (t: ResetToken) => Redeemable(t, token, userId, now)
  }

  /** `DELETE FROM password_reset_tokens WHERE token = ?` */
  function WithToken(token: string): ResetToken -> bool
  {
    (t: ResetToken) => t.token == token
  }

  /** Which statement of resetPassword throws, if any. */
  datatype ResetFault = ResetRuns | SelectThrows | UpdateThrows | DeleteThrows

  predicate HasRedeemable(tokens: seq<ResetToken>, token: string, userId: string, now: int)
  {
    First(tokens, RedeemableBy(token, userId, now)).Some?
  }

  /** What resetPassword returns. */
  function ResetOutcome(tokens: seq<ResetToken>, token: string, userId: string, now: int, fault: ResetFault): ActionResult
  {
    if fault == SelectThrows then ActionResult(false, ResetFailed)
    else if !HasRedeemable(tokens, token, userId, now) then ActionResult(false, InvalidToken)
    else if fault == ResetRuns then ActionResult(true, ResetDone)
    else ActionResult(false, ResetFailed)
  }

  /** The users table after resetPassword: userId's row carries the new digest
      once the UPDATE has run. */
  function UsersAfterReset(users: seq<User>, tokens: seq<ResetToken>, token: string, userId: string,
                           newPassword: string, now: int, fault: ResetFault): seq<User>
  {
    if fault in {SelectThrows, UpdateThrows} || !HasRedeemable(tokens, token, userId, now) then users
    else SetPassword(users, WithId(userId), Hash(newPassword), now, true)
  }

  /** The token table after resetPassword: every row with the token gone once
      the DELETE has run. */
  function TokensAfterReset(tokens: seq<ResetToken>, token: string, userId: string, now: int, fault: ResetFault): seq<ResetToken>
  {
    if fault != ResetRuns || !HasRedeemable(tokens, token, userId, now) then tokens
    else Delete(tokens, WithToken(token))
  }

  method ResetPassword(db: Database, token: string, userId: string, newPassword: string, now: int, fault: ResetFault)
    returns (result: ActionResult)
    modifies db
    ensures result == ResetOutcome(old(db.resetTokens), token, userId, now, fault)
    ensures db.users == UsersAfterReset(old(db.users), old(db.resetTokens), token, userId, newPassword, now, fault)
    ensures db.resetTokens == TokensAfterReset(old(db.resetTokens), token, userId, now, fault)
    ensures db.complaints == old(db.complaints) && db.notifications == old(db.notifications)
  {
    if fault == SelectThrows {
      return ActionResult(false, ResetFailed);
    }
    var request := First(db.resetTokens, RedeemableBy(token, userId, now));
    if request.None? {
      return ActionResult(false, InvalidToken);
    }
    if fault == UpdateThrows {
      return ActionResult(false, ResetFailed);
    }
    db.users := SetPassword(db.users, WithId(userId), Hash(newPassword), now, true);
    if fault == DeleteThrows {
      return ActionResult(false, ResetFailed);
    }
    db.resetTokens := Delete(db.resetTokens, WithToken(token));
    result := ActionResult(true, ResetDone);
  }

  /** A reset succeeds exactly when nothing throws and some row holds the token
      for this user with an expiry strictly after now; a reset that finds no
      such row says so and changes nothing. */
  lemma ResetNeedsLiveToken(users: seq<User>, tokens: seq<ResetToken>, token: string, userId: string,
                            newPassword: string, now: int, fault: ResetFault)
    ensures ResetOutcome(tokens, token, userId, now, fault).success <==>
              fault == ResetRuns && exists t | t in tokens :: Redeemable(t, token, userId, now)
    ensures fault != SelectThrows && (forall t | t in tokens :: !Redeemable(t, token, userId, now)) ==>
              ResetOutcome(tokens, token, userId, now, fault) == ActionResult(false, InvalidToken) &&
              UsersAfterReset(users, tokens, token, userId, newPassword, now, fault) == users &&
              TokensAfterReset(tokens, token, userId, now, fault) == tokens
  {
    var first := First(tokens, RedeemableBy(token, userId, now));
    if first.Some? {
      assert Redeemable(first.value, token, userId, now);
    }
  }

  /** A successful reset gives userId's rows a digest of the new password and
      leaves every other user's row as it was. */
  lemma ResetChangesOnlyUser(users: seq<User>, tokens: seq<ResetToken>, token: string, userId: string,
                             newPassword: string, now: int, fault: ResetFault)
    ensures var after := UsersAfterReset(users, tokens, token, userId, newPassword, now, fault);
            |after| == |users| &&
            (forall i | 0 <= i < |users| && users[i].id != userId :: after[i] == users[i]) &&
            (ResetOutcome(tokens, token, userId, now, fault).success ==>
               forall i | 0 <= i < |users| && users[i].id == userId ::
                 Matches(newPassword, after[i].password) && after[i].passwordUpdatedAt == now)
  {
    MatchesExactly(newPassword, newPassword);
  }

  /** A token redeems once: after a successful reset no row with that token is
      left, so a second reset with it fails for every user at every time. */
  lemma ResetIsSingleUse(tokens: seq<ResetToken>, token: string, userId: string, now: int,
                         otherUser: string, later: int)
    requires ResetOutcome(tokens, token, userId, now, ResetRuns).success
    ensures ResetOutcome(TokensAfterReset(tokens, token, userId, now, ResetRuns), token, otherUser, later, ResetRuns)
            == ActionResult(false, InvalidToken)
  {
    var after := TokensAfterReset(tokens, token, userId, now, ResetRuns);
    assert forall t | t in after :: !WithToken(token)(t);
  }

  /** When the DELETE throws, the password has already changed, yet the token
      survives and can be redeemed again until it expires. */
  lemma FailedDeleteLeavesToken(users: seq<User>, tokens: seq<ResetToken>, token: string, userId: string,
                                newPassword: string, now: int)
    requires exists t | t in tokens :: Redeemable(t, token, userId, now)
    ensures !ResetOutcome(tokens, token, userId, now, DeleteThrows).success
    ensures UsersAfterReset(users, tokens, token, userId, newPassword, now, DeleteThrows)
            == SetPassword(users, WithId(userId), Hash(newPassword), now, true)
    ensures ResetOutcome(TokensAfterReset(tokens, token, userId, now, DeleteThrows), token, userId, now, ResetRuns).success
  {
    ResetNeedsLiveToken(users, tokens, token, userId, newPassword, now, ResetRuns);
  }

  /** The lifecycle end to end: a token issued for an account redeems for that
      account's id at any moment strictly before the hour is over, and at no
      moment after. */
  lemma IssuedTokenRedeems(tokens: seq<ResetToken>, users: seq<User>, email: string, role: string,
                           token: string, tokenId: string, now: int, later: int)
    requires Account(users, email, role).Some?
    requires forall t | t in tokens :: t.token != token
    ensures var issued := TokensAfterRequest(tokens, users, email, role, token, tokenId, now, RequestRuns);
            var id := Account(users, email, role).value.id;
            ResetOutcome(issued, token, id, later, ResetRuns).success <==> later < now + ResetWindow
  {
    var issued := TokensAfterRequest(tokens, users, email, role, token, tokenId, now, RequestRuns);
    var id := Account(users, email, role).value.id;
    var row := IssuedToken(tokenId, id, token, role, now);
    assert issued == tokens + [row];
    assert row in issued;
    ResetNeedsLiveToken(users, issued, token, id, "", later, ResetRuns);
    assert forall t | t in issued && t.token == token :: t == row;
  }
}
