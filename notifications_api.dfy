/** pages/api/notifications/index.ts: the signed-in user's inbox over HTTP.
    GET lists the newest 20, POST creates one (for the caller unless a target
    is given), PATCH marks one read, DELETE removes one; the last two only
    ever touch the caller's own rows. */
module NotificationsApi {
  import opened Base
  import opened Rows
  import opened Store
  import opened Notifications

  /** The request: its method and the body fields the handler reads; an
      absent string field is "". */
  datatype Request = Request(
    verb: Verb,
    title: string,
    message: string,
    kind: string,
    targetUserId: string,
    relatedId: Option<string>,
    notificationId: string)

  /** The reply: a status and what its JSON body carries. */
  datatype Body =
    | Listing(rows: seq<Notification>)
    | Created(row: Notification)
    | Success
    | Message(text: string)

  const ConnectionLimitCode := "ER_CON_COUNT_ERROR"
  /** The GET branch's `LIMIT 20`. */
  const ListLimit: nat := 20

  /** The catch block: the connection-limit error is reported as temporary,
      every other failure as a server error. */
  function ErrorStatus(code: string): (status: nat)
    ensures status == 503 <==> code == ConnectionLimitCode
    ensures status == 500 <==> code != ConnectionLimitCode
  {
    if code == ConnectionLimitCode then 503 else 500
  }

  /** The row the POST branch inserts: `type || 'info'`, `targetUserId ||
      session.userId`. */
  function PostedRow(req: Request, caller: string, id: string, now: int): (n: Notification)
    requires caller != ""
    ensures n.userId != "" && n.kind != ""
    ensures n.userId == caller <==> req.targetUserId == "" || req.targetUserId == caller
    ensures !n.isRead && n.readAt == None && n.id == id
  {
    NewRow(NotificationData(req.title, req.message, OrElse(req.kind, DefaultKind),
                            OrElse(req.targetUserId, caller), req.relatedId), id, now)
  }

  /** `session` is the decoded cookie (None when there is none); `id` is the
      uuid a POST draws; `failure` is the error code the one query of the
      request throws, if it throws. */
  method Handle(db: Database, session: Option<Session>, req: Request, id: string, now: int,
                failure: Option<string>) returns (status: nat, body: Body)
    modifies db
    ensures session.None? || session.value.userId == "" ==>
              status == 401 && db.notifications == old(db.notifications)
    ensures session.Some? && session.value.userId != "" ==>
              var caller := session.value.userId;
              var rows := old(db.notifications);
              if req.verb !in {GET, POST, PATCH, DELETE} then
                status == 405 && db.notifications == rows
              else if failure.Some? then
                status == ErrorStatus(failure.value) && db.notifications == rows
              else if req.verb == GET then
                status == 200 && body == Listing(Newest(rows, caller, ListLimit)) && db.notifications == rows
              else if req.verb == POST then
                status == 201 && body == Created(PostedRow(req, caller, id, now)) &&
                db.notifications == rows + [PostedRow(req, caller, id, now)]
              else if req.verb == PATCH then
                status == 200 && body == Success &&
                db.notifications == MarkedRead(rows, req.notificationId, caller, now)
              else
                status == 200 && body == Success &&
                db.notifications == Deleted(rows, req.notificationId, caller)
    ensures db.users == old(db.users) && db.complaints == old(db.complaints)
    ensures db.resetTokens == old(db.resetTokens)
  {
    if session.None? || session.value.userId == "" {
      return 401, Message("Unauthorized");
    }
    var caller := session.value.userId;
    if req.verb !in {GET, POST, PATCH, DELETE} {
      return 405, Message("Method not allowed");
    }
    if failure.Some? {
      var code := ErrorStatus(failure.value);
      return code, Message(if code == 503 then "Service temporarily unavailable. Please try again in a moment."
                           else "Internal server error");
    }
    if req.verb == GET {
      status, body := 200, Listing(Newest(db.notifications, caller, ListLimit));
    } else if req.verb == POST {
      var n := PostedRow(req, caller, id, now);
      db.notifications := db.notifications + [n];
      status, body := 201, Created(n);
    } else if req.verb == PATCH {
      db.notifications := MarkedRead(db.notifications, req.notificationId, caller, now);
      status, body := 200, Success;
    } else {
      db.notifications := Deleted(db.notifications, req.notificationId, caller);
      status, body := 200, Success;
    }
  }

  /** A PATCH or DELETE can never reach another user's notifications: the
      unread count and the inbox of everyone but the caller are untouched. */
  lemma CallerScoped(rows: seq<Notification>, notificationId: string, caller: string, now: int, u: string)
    requires u != caller
    ensures UnreadCount(MarkedRead(rows, notificationId, caller, now), u) == UnreadCount(rows, u)
    ensures Select(Deleted(rows, notificationId, caller), OwnedBy(u)) == Select(rows, OwnedBy(u))
  {
    MarkReadUnreadCount(rows, notificationId, caller, now, u);
    DeleteKeepsOtherInboxes(rows, notificationId, caller, u);
  }

  /** The route's listing is the inbox getUserNotifications returns with its
      default limit. */
  lemma ListingIsDefaultInbox(rows: seq<Notification>, caller: string)
    ensures Newest(rows, caller, ListLimit) == UserNotifications(rows, caller, DefaultLimit)
  {
  }
}
