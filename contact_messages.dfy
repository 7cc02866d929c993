/**
  The contact-message views of the admin dashboard: the paged inbox with
  its unread count, the detail page that marks a message read, and delete.
  None of them writes to the activity log.
*/
module ContactMessageViews {
  import opened Support
  import opened Models
  import opened Http
  import opened Tables
  import opened Crud
  import opened ActivityLogs

  const ContactListPage := "admindashboard/contact/list.html"
  const ContactDetailPage := "admindashboard/contact/detail.html"
  const ContactDeletePage := "admindashboard/contact/delete.html"
  const ContactListRoute := "admindashboard:contact_messages"

  /** Messages per inbox page. */
  const InboxPerPage: nat := 10

  /** The keys of the messages not yet read. */
  function Unread(rows: map<int, ContactUs>): (ks: set<int>)
    ensures forall k :: k in ks <==> k in rows && !rows[k].isRead
  {
    KeysWhere(rows, (c: ContactUs) => !c.isRead)
  }

  /** What the inbox shows: one page of messages, and the number unread in the whole table. */
  datatype Inbox = Inbox(page: Page<(int, ContactUs)>, unreadCount: nat)

  /**
    `contact_messages`: the model ordering (`-created_at`) paged ten at a
    time, and the count of unread messages over all pages.
  */
  function ContactList(req: Request, rows: map<int, ContactUs>): (r: Option<Inbox>)
    ensures r.None? <==> req.actor.Anonymous?
    ensures r.Some? ==>
      var all := ListDescending(req, rows, (c: ContactUs) => c.createdAt).value;
      && r.value.page == GetPage(all, InboxPerPage, req.page)
      && r.value.unreadCount == |Unread(rows)|
  {
    match ListDescending(req, rows, (c: ContactUs) => c.createdAt)
    case None => None
    case Some(all) => Some(Inbox(GetPage(all, InboxPerPage, req.page), |Unread(rows)|))
  }

  /** The table after message `pk` has been read: its flag set, everything else as it was. */
  function MarkRead(rows: map<int, ContactUs>, pk: int): (r: map<int, ContactUs>)
    requires pk in rows
    ensures r.Keys == rows.Keys
    ensures r[pk].isRead && r[pk] == rows[pk].(isRead := r[pk].isRead)
    ensures forall k :: k in rows && k != pk ==> r[k] == rows[k]
  {
    rows[pk := rows[pk].(isRead := true)]
  }

  /**
    `contact_message_detail`: 404 for an unknown key; otherwise an unread
    message is flagged read and saved, and the page is shown.
  */
  method ContactDetail(contacts: Table<ContactUs>, log: ActivityLog, req: Request, pk: int)
    returns (resp: Response)
    requires contacts.Valid()
    modifies contacts
    ensures contacts.Valid() && contacts.nextPk == old(contacts.nextPk)
    ensures req.actor.Anonymous? ==> resp == LoginRedirect && contacts.rows == old(contacts.rows)
    ensures req.actor.Member? && pk !in old(contacts.rows) ==> resp == NotFound && contacts.rows == old(contacts.rows)
    ensures req.actor.Member? && pk in old(contacts.rows) ==>
      resp == Rendered(ContactDetailPage) && contacts.rows == MarkRead(old(contacts.rows), pk)
    ensures log.entries == old(log.entries)
  {
    if req.actor.Anonymous? {
      return LoginRedirect;
    }
    if pk !in contacts.rows {
      return NotFound;
    }
    var message := contacts.rows[pk];
    if !message.isRead {
      contacts.Update(pk, message.(isRead := true));
    } else {
      assert MarkRead(contacts.rows, pk) == contacts.rows;
    }
    resp := Rendered(ContactDetailPage);
  }

  /** `contact_message_delete`: only on POST, and not logged. */
  method ContactDelete(contacts: Table<ContactUs>, log: ActivityLog, req: Request, pk: int)
    returns (resp: Response)
    requires contacts.Valid()
    modifies contacts
    ensures contacts.Valid()
    ensures Applied(resp, contacts, DeleteStep(req, pk, false, old(contacts.rows), old(contacts.nextPk),
                                               ContactDeletePage, ContactListRoute))
    ensures log.entries == old(log.entries)
  {
    var removed;
    resp, removed := Delete(contacts, req, pk, false, ContactDeletePage, ContactListRoute);
  }

  /** Reading a message removes exactly that message from the unread set. */
  lemma MarkReadUnread(rows: map<int, ContactUs>, pk: int)
    requires pk in rows
    ensures Unread(MarkRead(rows, pk)) == Unread(rows) - {pk}
    ensures |Unread(MarkRead(rows, pk))| == if rows[pk].isRead then |Unread(rows)| else |Unread(rows)| - 1
  {
    var after := Unread(MarkRead(rows, pk));
    assert after == Unread(rows) - {pk};
    if !rows[pk].isRead {
      assert Unread(rows) == after + {pk};
    }
  }

  /** Viewing a message a second time changes nothing. */
  lemma MarkReadIdempotent(rows: map<int, ContactUs>, pk: int)
    requires pk in rows
    ensures MarkRead(MarkRead(rows, pk), pk) == MarkRead(rows, pk)
  {
  }

  /** Deleting a message lowers the unread count by one exactly when it was unread. */
  lemma DeleteUnread(req: Request, pk: int, rows: map<int, ContactUs>, nextPk: int)
    requires req.actor.Member? && req.verb == Post && pk in rows
    ensures var s := DeleteStep(req, pk, false, rows, nextPk, ContactDeletePage, ContactListRoute);
      && Unread(s.rows) == Unread(rows) - {pk}
      && |Unread(s.rows)| == if rows[pk].isRead then |Unread(rows)| else |Unread(rows)| - 1
  {
    var s := DeleteStep(req, pk, false, rows, nextPk, ContactDeletePage, ContactListRoute);
    assert Unread(s.rows) == Unread(rows) - {pk};
    if !rows[pk].isRead {
      assert Unread(rows) == Unread(s.rows) + {pk};
    }
  }

  /** Every message is on some inbox page: the one its position in the ordering selects. */
  lemma EveryMessagePaged(req: Request, rows: map<int, ContactUs>, k: int)
    requires req.actor.Member? && k in rows
    ensures var all := ListDescending(req, rows, (c: ContactUs) => c.createdAt).value;
      exists i :: 0 <= i < |all| && all[i] == (k, rows[k]) &&
        (k, rows[k]) in GetPage(all, InboxPerPage, Some(i / InboxPerPage + 1)).items
  {
    var all := ListDescending(req, rows, (c: ContactUs) => c.createdAt).value;
    assert (k, rows[k]) in all;
    OnItsPage(all, (k, rows[k]));
  }

  /** An element at position `i` is on page `i / 10 + 1`. */
  lemma OnItsPage<T>(all: seq<T>, x: T)
    requires x in all
    ensures exists i :: 0 <= i < |all| && all[i] == x && x in GetPage(all, InboxPerPage, Some(i / InboxPerPage + 1)).items
  {
    var i :| 0 <= i < |all| && all[i] == x;
    PageHolds(all, InboxPerPage, i);
    assert GetPage(all, InboxPerPage, Some(i / InboxPerPage + 1)).items[i % InboxPerPage] == x;
  }
}
