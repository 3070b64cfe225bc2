/** pages/api/auth/forgot-password.ts: the HTTP route that issues a reset
    token. Unlike the server action it looks the account up by email alone,
    answers 404 for an unknown address, and stores the role the request names
    (or 'student'). */
module ForgotPasswordApi {
  import opened Base
  import opened Rows
  import opened Store
  import PasswordActions

  /** The role stored when the request names none. */
  const DefaultRole := "student"

  /** The account the route issues a token for: the first row with the email,
      whatever its role. */
  function AccountByEmail(users: seq<User>, email: string): Option<User>
  {
    First(users, WithEmail(email))
  }

  /** The route's reply to a request. */
  function ForgotReply(users: seq<User>, verb: Verb, email: string): Reply
  {
    if verb != POST then Reply(405, "Method not allowed")
    else if AccountByEmail(users, email).None? then Reply(404, "User not found")
    else Reply(200, "Password reset email sent")
  }

  /** The token table after the request: one row for the account found, with
      the named role or 'student', expiring an hour later. */
  function TokensAfterForgot(tokens: seq<ResetToken>, users: seq<User>, verb: Verb, email: string, role: string,
                             token: string, rowId: string, now: int): seq<ResetToken>
  {
    var account := AccountByEmail(users, email);
    if verb != POST || account.None? then tokens
    else tokens + [ResetToken(rowId, account.value.id, OrElse(role, DefaultRole), token, now + PasswordActions.ResetWindow)]
  }

  /** `role` is "" when the body has none; `token` and `rowId` are the two
      uuids the route draws; `link` is the URL handed to the mailer. */
  method Handle(db: Database, verb: Verb, email: string, role: string, token: string, rowId: string,
                appUrl: string, now: int)
    returns (reply: Reply, link: Option<string>)
    modifies db
    ensures reply == ForgotReply(old(db.users), verb, email)
    ensures db.resetTokens == TokensAfterForgot(old(db.resetTokens), old(db.users), verb, email, role, token, rowId, now)
    ensures link.Some? <==> reply.status == 200
    ensures link.Some? ==>
              link.value == PasswordActions.ResetLink(appUrl, token, AccountByEmail(old(db.users), email).value.id, None)
    ensures db.users == old(db.users) && db.complaints == old(db.complaints)
    ensures db.notifications == old(db.notifications)
  {
    if verb != POST {
      return Reply(405, "Method not allowed"), None;
    }
    var user := First(db.users, WithEmail(email));
    if user.None? {
      return Reply(404, "User not found"), None;
    }
    var expiresAt := now + 60 * 60 * 1000;
    db.resetTokens := db.resetTokens + [ResetToken(rowId, user.value.id, OrElse(role, "student"), token, expiresAt)];
    link := Some(PasswordActions.ResetLink(appUrl, token, user.value.id, None));
    reply := Reply(200, "Password reset email sent");
  }

  /** Only a POST for a known email issues a token, and then exactly one: bound
      to that account whatever its role, with the named role or 'student', and
      expiring one hour after the request. */
  lemma ForgotIssuesOneToken(tokens: seq<ResetToken>, users: seq<User>, verb: Verb, email: string, role: string,
                             token: string, rowId: string, now: int)
    ensures var after := TokensAfterForgot(tokens, users, verb, email, role, token, rowId, now);
            (ForgotReply(users, verb, email).status == 200 <==> |after| == |tokens| + 1) &&
            (ForgotReply(users, verb, email).status != 200 ==> after == tokens) &&
            (ForgotReply(users, verb, email).status == 200 ==>
               var row := after[|tokens|];
               after[..|tokens|] == tokens &&
               row.userId == AccountByEmail(users, email).value.id &&
               AccountByEmail(users, email).value.email == email &&
               row.role != "" && (role != "" ==> row.role == role) &&
               row.token == token && row.expiresAt == now + PasswordActions.ResetWindow)
  {
  }

  /** A POST answers 404 exactly when no account at all has the email, so the
      route tells who is registered. */
  lemma ForgotRevealsAccount(users: seq<User>, email: string)
    ensures ForgotReply(users, POST, email).status == 404 <==> forall u | u in users :: u.email != email
  {
  }

  /** The two ways to ask for a reset disagree: for an email nobody has, the
      server action reports success while the route reports 404; and for an
      email registered under another role, the action issues nothing while the
      route issues a token. */
  lemma RequestPathsDiffer(tokens: seq<ResetToken>, users: seq<User>, email: string, role: string,
                           token: string, rowId: string, now: int)
    ensures (forall u | u in users :: u.email != email) ==>
              PasswordActions.RequestOutcome(users, email, role, PasswordActions.RequestRuns).success &&
              ForgotReply(users, POST, email).status == 404
    ensures (exists u | u in users :: u.email == email) && (forall u | u in users && u.email == email :: u.role != role) ==>
              PasswordActions.TokensAfterRequest(tokens, users, email, role, token, rowId, now, PasswordActions.RequestRuns) == tokens &&
              |TokensAfterForgot(tokens, users, POST, email, role, token, rowId, now)| == |tokens| + 1
  {
  }
}
