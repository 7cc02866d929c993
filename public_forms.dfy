/** `NewsletterSignupForm.clean_email`: the duplicate-subscription check. */
module PublicForms {
  import opened AdminForms

  const AlreadySubscribed := "This email is already subscribed to our newsletter."

  /** The addresses the subscriber table holds. */
  function Subscribed(rows: map<int, string>): (emails: set<string>)
    ensures forall e :: e in emails <==> exists k :: k in rows && rows[k] == e
  {
    set k | k in rows :: rows[k]
  }

  /**
    An address already subscribed is refused with the form's message; any
    other is returned unchanged. The check only reads the table.
  */
  function CleanEmail(email: string, subscribed: set<string>): (r: Cleaned<string>)
    ensures email in subscribed <==> r == Invalid(AlreadySubscribed)
    ensures email !in subscribed <==> r == Clean(email)
  {
    if email in subscribed then Invalid(AlreadySubscribed) else Clean(email)
  }

  /** Once an address has been saved, signing up with it again is refused. */
  lemma SecondSignupRefused(rows: map<int, string>, pk: int, email: string)
    ensures CleanEmail(email, Subscribed(rows[pk := email])) == Invalid(AlreadySubscribed)
  {
    assert rows[pk := email][pk] == email;
  }

  /** Saving one address adds exactly that address to the subscribed set. */
  lemma SubscribedInsert(rows: map<int, string>, pk: int, email: string)
    requires pk !in rows
    ensures Subscribed(rows[pk := email]) == Subscribed(rows) + {email}
  {
    var after := rows[pk := email];
    forall e | e in Subscribed(rows) ensures e in Subscribed(after) {
      var k :| k in rows && rows[k] == e;
      assert after[k] == e;
    }
    forall e | e in Subscribed(after) ensures e in Subscribed(rows) + {email} {
      var k :| k in after && after[k] == e;
      assert k != pk ==> rows[k] == e;
    }
    assert after[pk] == email;
  }

  /** Saving one address does not make any other address look subscribed. */
  lemma SignupOnlyThatEmail(rows: map<int, string>, pk: int, email: string, other: string)
    requires pk !in rows && other != email
    ensures CleanEmail(other, Subscribed(rows[pk := email])) == CleanEmail(other, Subscribed(rows))
  {
    SubscribedInsert(rows, pk, email);
  }
}
