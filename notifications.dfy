/** lib/notifications.ts: the per-user in-app inbox on the `notifications`
    table. Every read and every change is scoped to one recipient; a mark or a
    delete whose id does not belong to the caller silently changes nothing. */
module Notifications {
  import opened Base
  import opened Rows
  import opened Store

  const MaxLimit: nat := 100
  /** The default `limit` of getUserNotifications. */
  const DefaultLimit: int := 20
  const DayMs: int := 24 * 60 * 60 * 1000
  /** `INTERVAL 30 DAY` of the cleanup. */
  const RetentionMs: int := 30 * DayMs
  /** The default `type` of createSystemNotification. */
  const DefaultKind := "info"

  /** The `NotificationData` argument of createNotification. */
  datatype NotificationData = NotificationData(
    title: string, message: string, kind: string, userId: string, relatedId: Option<string>)

  function CreatedAtOf(n: Notification): int { n.createdAt }

  /** `WHERE userId = ?` */
  function OwnedBy(userId: string): Notification -> bool
  {
    (n: Notification) => n.userId == userId
  }

  /** `WHERE id = ? AND userId = ?` */
  function Addressed(id: string, userId: string): Notification -> bool
  {
    (n: Notification) => n.id == id && n.userId == userId
  }

  /** `WHERE userId = ? AND isRead = FALSE` */
  function UnreadFor(userId: string): Notification -> bool
  {
    (n: Notification) => n.userId == userId && !n.isRead
  }

  /** The rows a mark-as-read turns from unread to read. */
  function UnreadAddressed(id: string, userId: string): Notification -> bool
  {
    (n: Notification) => n.id == id && n.userId == userId && !n.isRead
  }

  /** `WHERE createdAt < DATE_SUB(NOW(), INTERVAL 30 DAY) AND isRead = TRUE` */
  function Stale(now: int): Notification -> bool
  {
    (n: Notification) => n.createdAt < now - RetentionMs && n.isRead
  }

  // ---------------------------------------------------------------------
  // createNotification, createSystemNotification

  /** How a call of this module ends: it returns its value, or it rethrows
      the error the store raised (every function here catches the error,
      logs it and throws it again). */
  datatype Outcome<T> = Returned(value: T) | Rethrown(code: string)

  /** The row createNotification INSERTs. */
  function NewRow(data: NotificationData, id: string, now: int): Notification
  {
    Notification(id, data.title, data.message, data.kind, data.userId, data.relatedId, false, None, now, now)
  }

  /** createNotification(data): `id` is the uuid drawn for the row; `fault`
      is the error code the INSERT throws, None when it goes through. */
  method CreateNotification(db: Database, data: NotificationData, id: string, now: int, fault: Option<string>)
    returns (r: Outcome<Notification>)
    modifies db
    ensures fault.None? ==>
              r == Returned(NewRow(data, id, now)) &&
              db.notifications == old(db.notifications) + [NewRow(data, id, now)]
    ensures fault.Some? ==> r == Rethrown(fault.value) && db.notifications == old(db.notifications)
    ensures r.Returned? ==> r.value.id == id && r.value.userId == data.userId && !r.value.isRead && r.value.readAt == None
    ensures db.users == old(db.users) && db.complaints == old(db.complaints)
    ensures db.resetTokens == old(db.resetTokens)
  {
    if fault.Some? {
      return Rethrown(fault.value);
    }
    var n := NewRow(data, id, now);
    db.notifications := db.notifications + [n];
    r := Returned(n);
  }

  /** A new notification adds one unread row to its recipient's inbox and to
      no other. */
  lemma {:induction false} CreateAddsOneUnread(rows: seq<Notification>, data: NotificationData, id: string, now: int, u: string)
    ensures UnreadCount(rows + [NewRow(data, id, now)], u)
            == UnreadCount(rows, u) + (if u == data.userId then 1 else 0)
  {
    SelectAppend(rows, [NewRow(data, id, now)], UnreadFor(u));
  }

  /** The ids of `SELECT id FROM users WHERE role = 'admin'`, in table order. */
  function Admins(users: seq<User>): (r: seq<User>)
    ensures forall i | 0 <= i < |r| :: r[i] in users && r[i].role == "admin"
    ensures forall u | u in users && u.role == "admin" :: u in r
  {
    Select(users, (u: User) => u.role == "admin")
  }

  function SystemKind(kind: Option<string>): string
  {
    match kind
    case None => DefaultKind
    case Some(k) => k
  }

  /** The row createSystemNotification asks for on behalf of one admin; it
      passes no relatedId, stored as NULL. */
  function SystemRow(title: string, message: string, kind: string, admin: User, id: string, now: int): Notification
  {
    NewRow(NotificationData(title, message, kind, admin.id, None), id, now)
  }

  /** The rows that land when the inserts for the first n admins are issued
      and those with a fault throw. `Promise.all` over `admins.map` starts
      every insert, so one that throws does not keep the others out. */
  function SystemRows(admins: seq<User>, title: string, message: string, kind: string, ids: seq<string>,
                      faults: seq<Option<string>>, now: int, n: nat): seq<Notification>
    requires n <= |admins| && n <= |ids| && n <= |faults|
  {
    if n == 0 then []
    else SystemRows(admins, title, message, kind, ids, faults, now, n - 1) +
         (if faults[n - 1].None? then [SystemRow(title, message, kind, admins[n - 1], ids[n - 1], now)] else [])
  }

  /** The error `Promise.all` rejects with: the first failing insert's, taken
      here in admin order. */
  function FirstFault(faults: seq<Option<string>>, n: nat): Option<string>
    requires n <= |faults|
  {
    if n == 0 then None
    else if FirstFault(faults, n - 1).Some? then FirstFault(faults, n - 1)
    else faults[n - 1]
  }

  /** `Promise.all` rejects exactly when some insert throws, and then with
      the error of one that did. */
  lemma {:induction false} FirstFaultExact(faults: seq<Option<string>>, n: nat)
    requires n <= |faults|
    ensures FirstFault(faults, n).None? <==> forall k | 0 <= k < n :: faults[k].None?
    ensures FirstFault(faults, n).Some? ==> exists k | 0 <= k < n :: faults[k] == FirstFault(faults, n)
  {
    if n > 0 {
      FirstFaultExact(faults, n - 1);
    }
  }

  /** Exactly the inserts that do not fail land. */
  lemma {:induction false} SystemRowsLanded(admins: seq<User>, title: string, message: string, kind: string, ids: seq<string>,
                                            faults: seq<Option<string>>, now: int, n: nat)
    requires n <= |admins| && n <= |ids| && n <= |faults|
    ensures forall k | 0 <= k < n && faults[k].None? ::
              SystemRow(title, message, kind, admins[k], ids[k], now) in SystemRows(admins, title, message, kind, ids, faults, now, n)
    ensures forall m | m in SystemRows(admins, title, message, kind, ids, faults, now, n) ::
              exists k | 0 <= k < n && faults[k].None? :: m == SystemRow(title, message, kind, admins[k], ids[k], now)
  {
    if n > 0 {
      SystemRowsLanded(admins, title, message, kind, ids, faults, now, n - 1);
    }
  }

  /** When no insert fails, the rows are one per admin, in admin order. */
  lemma {:induction false} SystemRowsAllLand(admins: seq<User>, title: string, message: string, kind: string, ids: seq<string>,
                                             faults: seq<Option<string>>, now: int, n: nat)
    requires n <= |admins| && n <= |ids| && n <= |faults|
    requires forall k | 0 <= k < n :: faults[k].None?
    ensures var landed := SystemRows(admins, title, message, kind, ids, faults, now, n);
            |landed| == n && forall k | 0 <= k < n :: landed[k] == SystemRow(title, message, kind, admins[k], ids[k], now)
  {
    if n > 0 {
      SystemRowsAllLand(admins, title, message, kind, ids, faults, now, n - 1);
    }
  }

  /** createSystemNotification(title, message, type): one notification per
      admin, in the order the admins were read (the source issues the inserts
      concurrently; here they run one after another). `ids` stands for the
      uuids drawn for them; `selectFault` and `insertFaults` are the errors
      the admin query and each insert throw. */
  method CreateSystemNotification(db: Database, title: string, message: string, kind: Option<string>,
                                  ids: seq<string>, now: int, selectFault: Option<string>,
                                  insertFaults: seq<Option<string>>)
    returns (r: Outcome<seq<Notification>>)
    requires |ids| >= |Admins(db.users)| && |insertFaults| >= |Admins(db.users)|
    modifies db
    ensures selectFault.Some? ==> r == Rethrown(selectFault.value) && db.notifications == old(db.notifications)
    ensures selectFault.None? ==>
              var admins := Admins(old(db.users));
              var landed := SystemRows(admins, title, message, SystemKind(kind), ids, insertFaults, now, |admins|);
              var thrown := FirstFault(insertFaults, |admins|);
              db.notifications == old(db.notifications) + landed &&
              (thrown.None? ==> r == Returned(landed)) &&
              (thrown.Some? ==> r == Rethrown(thrown.value))
    ensures selectFault.None? && r.Returned? ==>
              var admins := Admins(old(db.users));
              |r.value| == |admins| &&
              forall i | 0 <= i < |r.value| ::
                var n := r.value[i];
                n.userId == admins[i].id && n.id == ids[i] &&
                n.title == title && n.message == message && n.kind == SystemKind(kind) &&
                !n.isRead && n.relatedId == None
    ensures db.users == old(db.users) && db.complaints == old(db.complaints)
    ensures db.resetTokens == old(db.resetTokens)
  {
    if selectFault.Some? {
      return Rethrown(selectFault.value);
    }
    var admins := Admins(db.users);
    var t := SystemKind(kind);
    var landed: seq<Notification> := [];
    var thrown: Option<string> := None;
    var i := 0;
    while i < |admins|
      invariant 0 <= i <= |admins|
      invariant landed == SystemRows(admins, title, message, t, ids, insertFaults, now, i)
      invariant thrown == FirstFault(insertFaults, i)
      invariant db.notifications == old(db.notifications) + landed
      invariant db.users == old(db.users) && db.complaints == old(db.complaints)
      invariant db.resetTokens == old(db.resetTokens)
    {
      var one := CreateNotification(db, NotificationData(title, message, t, admins[i].id, None), ids[i], now, insertFaults[i]);
      if one.Returned? {
        landed := landed + [one.value];
      } else if thrown.None? {
        thrown := Some(one.code);
      }
      i := i + 1;
    }
    FirstFaultExact(insertFaults, |admins|);
    if thrown.None? {
      SystemRowsAllLand(admins, title, message, t, ids, insertFaults, now, |admins|);
    }
    r := if thrown.None? then Returned(landed) else Rethrown(thrown.value);
  }

  /** The error mysql2's `execute` raises, before anything reaches the store,
      for a bind value that is `undefined`: a TypeError without an error code. */
  const UndefinedBind := "TypeError"

  /** The insert faults of createSystemNotification as written: it builds
      each NotificationData without relatedId, so createNotification binds
      `undefined` for it and every insert is refused. */
  function AsWrittenInsertFaults(n: nat): (faults: seq<Option<string>>)
    ensures |faults| == n && forall k | 0 <= k < n :: faults[k] == Some(UndefinedBind)
  {
    seq(n, _ => Some(UndefinedBind))
  }

  /** When every insert fails with the same error, nothing lands and that
      error is the one thrown. */
  lemma {:induction false} AllInsertsFail(admins: seq<User>, title: string, message: string, kind: string, ids: seq<string>,
                                          faults: seq<Option<string>>, now: int, n: nat, e: string)
    requires n <= |admins| && n <= |ids| && n <= |faults|
    requires forall k | 0 <= k < n :: faults[k] == Some(e)
    ensures SystemRows(admins, title, message, kind, ids, faults, now, n) == []
    ensures FirstFault(faults, n) == if n == 0 then None else Some(e)
  {
    if n > 0 {
      AllInsertsFail(admins, title, message, kind, ids, faults, now, n - 1, e);
    }
  }

  /** As written, once there is an admin, createSystemNotification stores no
      notification at all and throws the driver's TypeError. */
  lemma SystemNotificationThrowsAsWritten(admins: seq<User>, title: string, message: string, kind: string,
                                          ids: seq<string>, now: int)
    requires 1 <= |admins| <= |ids|
    ensures var faults := AsWrittenInsertFaults(|admins|);
            SystemRows(admins, title, message, kind, ids, faults, now, |admins|) == [] &&
            FirstFault(faults, |admins|) == Some(UndefinedBind)
  {
    AllInsertsFail(admins, title, message, kind, ids, AsWrittenInsertFaults(|admins|), now, |admins|, UndefinedBind);
  }

  // ---------------------------------------------------------------------
  // getUserNotifications

  /** `Math.max(1, Math.min(100, Math.floor(limit)))` for an integral limit. */
  function SafeLimit(limit: int): (r: nat)
    ensures 1 <= r <= MaxLimit
    ensures 1 <= limit <= MaxLimit ==> r == limit
    ensures limit < 1 ==> r == 1
    ensures limit > MaxLimit ==> r == MaxLimit
  {
    Max(1, Min(MaxLimit, limit))
  }

  /** `SELECT ... WHERE userId = ? ORDER BY createdAt DESC LIMIT n`: the
      user's own rows, newest first, as many as the user has up to n. */
  function Newest(rows: seq<Notification>, userId: string, n: nat): (r: seq<Notification>)
    ensures |r| == Min(n, Count(rows, OwnedBy(userId)))
    ensures forall i | 0 <= i < |r| :: r[i].userId == userId && r[i] in rows
    ensures NewestFirst(r, CreatedAtOf)
  {
    NewestPage(Select(rows, OwnedBy(userId)), CreatedAtOf, 0, n)
  }

  function UserNotifications(rows: seq<Notification>, userId: string, limit: int): (r: seq<Notification>)
    ensures 1 <= |r| || Count(rows, OwnedBy(userId)) == 0
    ensures |r| <= SafeLimit(limit) <= MaxLimit
    ensures forall i | 0 <= i < |r| :: r[i].userId == userId && r[i] in rows
    ensures NewestFirst(r, CreatedAtOf)
  {
    Newest(rows, userId, SafeLimit(limit))
  }

  /** What the inbox leaves out is never newer than what it shows. */
  lemma InboxHoldsNewest(rows: seq<Notification>, userId: string, n: nat)
    ensures var r := Newest(rows, userId, n);
            forall m | m in rows && m.userId == userId && m !in r ::
              forall i | 0 <= i < |r| :: r[i].createdAt >= m.createdAt
  {
    var owned := Select(rows, OwnedBy(userId));
    forall m | m in rows && m.userId == userId && m !in Newest(rows, userId, n)
      ensures forall i | 0 <= i < |Newest(rows, userId, n)| :: Newest(rows, userId, n)[i].createdAt >= m.createdAt
    {
      assert OwnedBy(userId)(m);
      NewestPageHoldsNewest(owned, CreatedAtOf, n, m);
    }
  }

  // ---------------------------------------------------------------------
  // getUnreadNotificationCount

  /** `SELECT COUNT(*) WHERE userId = ? AND isRead = FALSE` (`result[0]?.count || 0`). */
  function UnreadCount(rows: seq<Notification>, userId: string): (r: nat)
    ensures r <= |rows|
    ensures r == 0 <==> forall n | n in rows && n.userId == userId :: n.isRead
  {
    var unread := Select(rows, UnreadFor(userId));
    assert unread != [] ==> unread[0] in rows && UnreadFor(userId)(unread[0]);
    |unread|
  }

  // ---------------------------------------------------------------------
  // markNotificationAsRead

  /** `SET isRead = TRUE, readAt = NOW(), updatedAt = NOW()` */
  function ReadNow(n: Notification, now: int): Notification
  {
    n.(isRead := true, readAt := Some(now), updatedAt := now)
  }

  /** The table after markNotificationAsRead(id, userId): a row whose id AND
      recipient both match is read as of now, every other row is identical. */
  function MarkedRead(rows: seq<Notification>, id: string, userId: string, now: int): (r: seq<Notification>)
    ensures |r| == |rows|
    ensures forall i | 0 <= i < |rows| && !(rows[i].id == id && rows[i].userId == userId) :: r[i] == rows[i]
    ensures forall i | 0 <= i < |rows| && rows[i].id == id && rows[i].userId == userId ::
              r[i] == ReadNow(rows[i], now) && r[i].isRead && r[i].readAt == Some(now)
  {
    Update(rows, Addressed(id, userId), (n: Notification) => ReadNow(n, now))
  }

  /** markNotificationAsRead(id, userId): `{ success: true }` whether or not
      a row matched; `fault` is the error the UPDATE throws. */
  method MarkNotificationAsRead(db: Database, id: string, userId: string, now: int, fault: Option<string>)
    returns (r: Outcome<bool>)
    modifies db
    ensures fault.None? ==> r == Returned(true) && db.notifications == MarkedRead(old(db.notifications), id, userId, now)
    ensures fault.Some? ==> r == Rethrown(fault.value) && db.notifications == old(db.notifications)
    ensures db.users == old(db.users) && db.complaints == old(db.complaints)
    ensures db.resetTokens == old(db.resetTokens)
  {
    if fault.Some? {
      return Rethrown(fault.value);
    }
    db.notifications := MarkedRead(db.notifications, id, userId, now);
    r := Returned(true);
  }

  /** Marking again at the same moment changes nothing; at a later moment only
      the timestamps move, every read flag stays as it was. */
  lemma MarkReadIdempotent(rows: seq<Notification>, id: string, userId: string, now: int, later: int)
    ensures MarkedRead(MarkedRead(rows, id, userId, now), id, userId, now) == MarkedRead(rows, id, userId, now)
    ensures var once := MarkedRead(rows, id, userId, now);
            var twice := MarkedRead(once, id, userId, later);
            |twice| == |once| && forall i | 0 <= i < |once| :: twice[i].isRead == once[i].isRead
  {
  }

  /** Marking someone else's (or a missing) notification leaves the table as it was. */
  lemma MarkReadForeignIsNoop(rows: seq<Notification>, id: string, userId: string, now: int)
    requires forall n | n in rows :: !(n.id == id && n.userId == userId)
    ensures MarkedRead(rows, id, userId, now) == rows
  {
    NoMatchUnchanged(rows, Addressed(id, userId), (n: Notification) => ReadNow(n, now));
  }

  /** Marking as read lowers the caller's unread count by the number of unread
      rows it addressed, and no other user's count moves. */
  lemma {:induction false} MarkReadUnreadCount(rows: seq<Notification>, id: string, userId: string, now: int, u: string)
    ensures UnreadCount(MarkedRead(rows, id, userId, now), u)
            == UnreadCount(rows, u) - (if u == userId then Count(rows, UnreadAddressed(id, userId)) else 0)
  {
    if rows != [] {
      var after := MarkedRead(rows, id, userId, now);
      MarkReadUnreadCount(rows[1..], id, userId, now, u);
      assert after[0] == (if Addressed(id, userId)(rows[0]) then ReadNow(rows[0], now) else rows[0]);
      assert after[1..] == MarkedRead(rows[1..], id, userId, now);
    }
  }

  // ---------------------------------------------------------------------
  // deleteNotification

  /** The table after deleteNotification(id, userId): exactly the rows whose
      id AND recipient both match are gone. */
  function Deleted(rows: seq<Notification>, id: string, userId: string): (r: seq<Notification>)
    ensures forall n | n in r :: n in rows && !(n.id == id && n.userId == userId)
    ensures forall n | n in rows && !(n.id == id && n.userId == userId) :: n in r
    ensures |r| == |rows| - Count(rows, Addressed(id, userId))
  {
    DeleteCount(rows, Addressed(id, userId));
    Delete(rows, Addressed(id, userId))
  }

  /** deleteNotification(id, userId): `{ success: true }` whether or not a
      row matched; `fault` is the error the DELETE throws. */
  method DeleteNotification(db: Database, id: string, userId: string, fault: Option<string>)
    returns (r: Outcome<bool>)
    modifies db
    ensures fault.None? ==> r == Returned(true) && db.notifications == Deleted(old(db.notifications), id, userId)
    ensures fault.Some? ==> r == Rethrown(fault.value) && db.notifications == old(db.notifications)
    ensures db.users == old(db.users) && db.complaints == old(db.complaints)
    ensures db.resetTokens == old(db.resetTokens)
  {
    if fault.Some? {
      return Rethrown(fault.value);
    }
    db.notifications := Deleted(db.notifications, id, userId);
    r := Returned(true);
  }

  /** A delete by one user leaves every other user's inbox exactly as it was. */
  lemma {:induction false} DeleteKeepsOtherInboxes(rows: seq<Notification>, id: string, userId: string, u: string)
    requires u != userId
    ensures Select(Deleted(rows, id, userId), OwnedBy(u)) == Select(rows, OwnedBy(u))
  {
    if rows != [] {
      DeleteKeepsOtherInboxes(rows[1..], id, userId, u);
      var rest := Delete(rows[1..], Addressed(id, userId));
      if Addressed(id, userId)(rows[0]) {
        assert Deleted(rows, id, userId) == rest;
      } else {
        assert Deleted(rows, id, userId) == [rows[0]] + rest;
        assert ([rows[0]] + rest)[1..] == rest;
      }
    }
  }

  // ---------------------------------------------------------------------
  // cleanupOldNotifications

  /** The table after the cleanup: the read rows older than 30 days are gone,
      every other row stays. */
  function CleanedUp(rows: seq<Notification>, now: int): (r: seq<Notification>)
    ensures forall n | n in r :: n in rows && !(n.isRead && n.createdAt < now - RetentionMs)
    ensures forall n | n in rows && !(n.isRead && n.createdAt < now - RetentionMs) :: n in r
    ensures |r| == |rows| - Count(rows, Stale(now))
  {
    DeleteCount(rows, Stale(now));
    Delete(rows, Stale(now))
  }

  /** cleanupOldNotifications(): `{ count: affectedRows }`; `fault` is the
      error the DELETE throws. */
  method CleanupOldNotifications(db: Database, now: int, fault: Option<string>) returns (r: Outcome<nat>)
    modifies db
    ensures fault.None? ==>
              db.notifications == CleanedUp(old(db.notifications), now) &&
              r == Returned(Count(old(db.notifications), Stale(now))) &&
              r.value == |old(db.notifications)| - |db.notifications|
    ensures fault.Some? ==> r == Rethrown(fault.value) && db.notifications == old(db.notifications)
    ensures db.users == old(db.users) && db.complaints == old(db.complaints)
    ensures db.resetTokens == old(db.resetTokens)
  {
    if fault.Some? {
      return Rethrown(fault.value);
    }
    var count := Count(db.notifications, Stale(now));
    db.notifications := CleanedUp(db.notifications, now);
    r := Returned(count);
  }

  /** The cleanup never removes an unread notification: every user's unread
      count is the same after it. */
  lemma {:induction false} CleanupKeepsUnread(rows: seq<Notification>, now: int, u: string)
    ensures UnreadCount(CleanedUp(rows, now), u) == UnreadCount(rows, u)
  {
    if rows != [] {
      CleanupKeepsUnread(rows[1..], now, u);
      var rest := Delete(rows[1..], Stale(now));
      if Stale(now)(rows[0]) {
        assert CleanedUp(rows, now) == rest;
      } else {
        assert CleanedUp(rows, now) == [rows[0]] + rest;
        assert ([rows[0]] + rest)[1..] == rest;
      }
    }
  }
}
