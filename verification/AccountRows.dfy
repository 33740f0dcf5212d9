/** What the three transactions on the identity table leave in it, row by row, and what the next login under a union key
    then finds. */
module AccountRows {
  import opened Wrappers
  import opened AccountLink

  predicate Known(t: Table, typ: string, subject: string) {
    exists r :: r in t.rows && r.typ == typ && r.subject == subject
  }

  /** From t to n exactly one row is added: the identity on that user, with its union key. */
  ghost predicate AddsRow(t: Table, n: Table, user: UserId, id: Identity) {
    forall r :: r in n.rows <==> r in t.rows || r == Row(user, id.typ, id.subject, id.key)
  }

  // ----- Signing in and attaching -----

  /** A login with a new identity adds its row, with its union key, to the user it returns, and leaves every other row;
      a created user is the next number, so it had no row. A known identity changes nothing. */
  lemma EnsureWrites(t: Table, id: Identity)
    requires Sound(t) && id.Valid()
    ensures var (n, reply) := Ensured(t, id);
            && reply.Done?
            && (Known(t, id.typ, id.subject) ==> n == t && !reply.created)
            && (!Known(t, id.typ, id.subject) ==> AddsRow(t, n, reply.user, id))
            && n.users == (if reply.created then t.users + 1 else t.users)
            && (reply.created ==> reply.user == t.users)
            && (!reply.created ==> exists r :: r in t.rows && r.user == reply.user)
    ensures var (n, reply) := Ensured(t, id);
            forall r :: r in t.rows && reply.created ==> r.user != reply.user
  {
  }

  /** Attaching either adds exactly that row to that user, or refuses and changes nothing. */
  lemma AttachWrites(t: Table, user: UserId, id: Identity)
    requires Sound(t)
    ensures var (n, reply) := Attached(t, user, id);
            && n.users == t.users
            && (reply.Done? <==>
                  && id.Valid() && user < t.users && !Known(t, id.typ, id.subject)
                  && forall r :: r in t.rows && id.key != "" && r.key == id.key ==> r.user == user)
            && (reply.Done? ==> reply == Done(user, false) && AddsRow(t, n, user, id))
            && (!reply.Done? ==> n == t)
  {
  }

  /** A login with any new identity under a union key that is on the table joins that key's user. */
  lemma NextUnderTheKey(t: Table, r: Row, next: Identity)
    requires Sound(t) && r in t.rows && r.key != "" && next.Valid() && next.key == r.key
    requires !Known(t, next.typ, next.subject)
    ensures Ensured(t, next).1 == Done(r.user, false)
  {
  }

  /** So once an identity came in with a union key, by a login or attached, every new identity under that key is the
      same user's. */
  lemma AddedKeyIsFound(t: Table, x: Transaction, next: Identity)
    requires Sound(t) && !x.LinkPhone? && !Known(t, x.id.typ, x.id.subject) && x.id.key != ""
    requires Apply(t, x).1.Done?
    requires next.Valid() && next.key == x.id.key && !Known(Apply(t, x).0, next.typ, next.subject)
    ensures Ensured(Apply(t, x).0, next).1 == Done(Apply(t, x).1.user, false)
  {
    StepKeepsSound(t, x);
    var (n, reply) := Apply(t, x);
    if x.Ensure? { EnsureWrites(t, x.id); } else { AttachWrites(t, x.user, x.id); }
    NextUnderTheKey(n, Row(reply.user, x.id.typ, x.id.subject, x.id.key), next);
  }

  // ----- Linking a phone number -----

  /** Which account: the phone number's; else the identity's; else its union key's; else a new one. */
  lemma LinkChoosesTheAccount(t: Table, phone: string, tp: Identity, r: Row)
    requires Sound(t) && tp.Valid() && phone != ""
    ensures var reply := Linked(t, phone, tp).1;
            && reply.Done?
            && (r in t.rows && r.typ == PHONE && r.subject == phone ==> reply == Done(r.user, false))
            && (!Known(t, PHONE, phone) ==>
                  && (r in t.rows && r.typ == tp.typ && r.subject == tp.subject ==> reply == Done(r.user, false))
                  && (!Known(t, tp.typ, tp.subject) ==>
                        && (r in t.rows && tp.key != "" && r.key == tp.key ==> reply == Done(r.user, false))
                        && ((tp.key == "" || forall q :: q in t.rows ==> q.key != tp.key) ==>
                              reply == Done(t.users, true))))
  {
  }

  /** A row of the returned account goes exactly if it is another identity of the type, or stands under the union key of
      such a one, unless that is the incoming key. */
  ghost predicate Displaced(t: Table, user: UserId, tp: Identity, r: Row) {
    || (r.typ == tp.typ && r.subject != tp.subject)
    || (&& r.key != "" && r.key != tp.key
        && exists o :: o in t.rows && o.user == user && o.typ == tp.typ && o.subject != tp.subject && o.key == r.key)
  }

  lemma LinkKeepsExactly(t: Table, phone: string, tp: Identity, r: Row)
    requires Sound(t) && tp.Valid() && phone != "" && r in t.rows
    ensures var (n, reply) := Linked(t, phone, tp);
            && (r.user == reply.user ==> (r in n.rows <==> !Displaced(t, reply.user, tp, r)))
            && (r.user != reply.user ==>
                  (r in n.rows <==> !(r.typ == tp.typ && r.subject == tp.subject) && (tp.key == "" || r.key != tp.key)))
  {
    if r.user == Target(t, phone, tp) {
      DisplacedExactly(t, phone, tp, r);
    }
  }

  lemma DisplacedExactly(t: Table, phone: string, tp: Identity, r: Row)
    requires Sound(t) && tp.Valid() && phone != "" && r in t.rows && r.user == Target(t, phone, tp)
    ensures var target, rows := Target(t, phone, tp), WithPhone(t, phone, tp);
            r in Left(rows, target, tp, Replaced(rows, target, tp)) <==> !Displaced(t, target, tp, r)
  {
    var target, rows := Target(t, phone, tp), WithPhone(t, phone, tp);
    forall o | o in t.rows && o.user == target && o.typ == tp.typ && o.subject != tp.subject
      ensures o in Replaced(rows, target, tp)
    {
    }
  }

  /** What LinkPhone reports as replaced are exactly those of the account's own rows. */
  lemma ReportedAreDisplaced(t: Table, phone: string, tp: Identity, r: Row)
    requires Sound(t) && tp.Valid() && phone != "" && r in t.rows
    ensures r in ReplacedOf(t, phone, tp) <==>
              r.user == Linked(t, phone, tp).1.user && Displaced(t, r.user, tp, r)
  {
    if r.user == Target(t, phone, tp) {
      DisplacedExactly(t, phone, tp, r);
    }
  }

  /** Nothing is added but the phone row, without a key, and the third-party row with its key, both on the returned
      account. */
  lemma LinkAddsOnly(t: Table, phone: string, tp: Identity, r: Row)
    requires Sound(t) && tp.Valid() && phone != ""
    ensures var (n, reply) := Linked(t, phone, tp);
            r in n.rows && r !in t.rows ==>
              || (r == Row(reply.user, PHONE, phone, "") && !Known(t, PHONE, phone))
              || r == Row(reply.user, tp.typ, tp.subject, tp.key)
  {
  }

  /** A third party not seen before comes in as exactly one row, with its union key, as the account's only identity of
      its type (the phone number itself, should it be named as the third party, has its own row). A known one keeps its
      row on the returned account, unless that row goes with a displaced one or comes from another account: then it is
      written anew. */
  lemma LinkWritesTheIdentity(t: Table, phone: string, tp: Identity, r: Row)
    requires Sound(t) && tp.Valid() && phone != "" && !(tp.typ == PHONE && tp.subject == phone)
    ensures var (n, reply) := Linked(t, phone, tp);
            !Known(t, tp.typ, tp.subject) ==>
              (r in n.rows && (r.typ == tp.typ && (r.user == reply.user || r.subject == tp.subject))
               <==> r == Row(reply.user, tp.typ, tp.subject, tp.key))
    ensures var (n, reply) := Linked(t, phone, tp);
            r in t.rows && r.typ == tp.typ && r.subject == tp.subject ==>
              if r.user == reply.user && !Displaced(t, reply.user, tp, r) then r in n.rows
              else Row(reply.user, tp.typ, tp.subject, tp.key) in n.rows
  {
  }

  /** So the next login with any new identity under the union key of a linked third party is the same account. */
  lemma LinkedKeyIsFound(t: Table, phone: string, tp: Identity, next: Identity)
    requires Sound(t) && tp.Valid() && phone != "" && tp.key != "" && !Known(t, tp.typ, tp.subject)
    requires !(tp.typ == PHONE && tp.subject == phone)
    requires next.Valid() && next.key == tp.key && !Known(Linked(t, phone, tp).0, next.typ, next.subject)
    ensures Ensured(Linked(t, phone, tp).0, next).1 == Done(Linked(t, phone, tp).1.user, false)
  {
    LinkKeepsSound(t, phone, tp);
    var (n, reply) := Linked(t, phone, tp);
    var r := Row(reply.user, tp.typ, tp.subject, tp.key);
    LinkWritesTheIdentity(t, phone, tp, r);
    NextUnderTheKey(n, r, next);
  }
}
