/** The identity table (internal/service/user.go, internal/service/user_link.go) and the three transactions that write
    it, each atomic. Types, subjects and union keys are already normalised; "" stands for no union key. */
module AccountLink {
  import opened Wrappers

  type UserId = nat

  const PHONE := "phone"

  datatype Row = Row(user: UserId, typ: string, subject: string, key: string)

  datatype Identity = Identity(typ: string, subject: string, key: string) {
    predicate Valid() {
      typ != "" && subject != ""
    }
  }

  datatype Reply = Invalid | NoSuchUser | Conflict | Done(user: UserId, created: bool)

  /** Users are numbered from 0 in order of creation. */
  datatype Table = Table(rows: set<Row>, users: nat) {
    function Added(user: UserId, id: Identity): Table {
      this.(rows := rows + {Row(user, id.typ, id.subject, id.key)})
    }
  }

  const EMPTY := Table({}, 0)

  /** What the table promises: (type, subject) is unique, and a union key stands for one user. The second part is what
      makes every "LIMIT 1" owner lookup unambiguous; no SQL constraint expresses it. */
  ghost predicate Sound(t: Table) {
    && (forall r, q :: r in t.rows && q in t.rows && r.typ == q.typ && r.subject == q.subject ==> r == q)
    && (forall r, q :: r in t.rows && q in t.rows && r.key == q.key && r.key != "" ==> r.user == q.user)
    && (forall r :: r in t.rows ==> r.user < t.users && r.typ != "" && r.subject != "")
  }

  ghost function ByIdentity(rows: set<Row>, typ: string, subject: string): (o: Option<Row>)
    ensures o.Some? ==> o.value in rows && o.value.typ == typ && o.value.subject == subject
    ensures o.None? ==> forall r :: r in rows ==> r.typ != typ || r.subject != subject
  {
    if r :| r in rows && r.typ == typ && r.subject == subject then Some(r) else None
  }

  /** SELECT user_id ... WHERE union_key = key LIMIT 1 */
  ghost function OwnerOfKey(rows: set<Row>, key: string): (o: Option<UserId>)
    ensures o.Some? ==> exists r :: r in rows && r.key == key && r.user == o.value
    ensures o.None? ==> forall r :: r in rows ==> r.key != key
  {
    if r :| r in rows && r.key == key then Some(r.user) else None
  }

  // ----- The three transactions -----

  ghost function Ensured(t: Table, id: Identity): (Table, Reply) {
    if !id.Valid() then (t, Invalid)
    else
      match ByIdentity(t.rows, id.typ, id.subject)
      case Some(r) => (t, Done(r.user, false))
      case None =>
        match if id.key == "" then None else OwnerOfKey(t.rows, id.key)
        case Some(u) => (t.Added(u, id), Done(u, false))
        case None => (t.Added(t.users, id).(users := t.users + 1), Done(t.users, true))
  }

  ghost function Attached(t: Table, user: UserId, id: Identity): (Table, Reply) {
    if !id.Valid() then (t, Invalid)
    else if id.key != "" && OwnerOfKey(t.rows, id.key) !in {None, Some(user)} then (t, Conflict)
    else if ByIdentity(t.rows, id.typ, id.subject).Some? then (t, Conflict)
    else if user >= t.users then (t, NoSuchUser)
    else (t.Added(user, id), Done(user, false))
  }

  ghost function ThirdPartyOwner(rows: set<Row>, tp: Identity): Option<UserId> {
    match ByIdentity(rows, tp.typ, tp.subject)
    case Some(r) => Some(r.user)
    case None => if tp.key == "" then None else OwnerOfKey(rows, tp.key)
  }

  /** The account LinkPhone works on: the phone's, else the third-party identity's, else a new one. */
  ghost function Target(t: Table, phone: string, tp: Identity): UserId {
    match ByIdentity(t.rows, PHONE, phone)
    case Some(r) => r.user
    case None => match ThirdPartyOwner(t.rows, tp) case Some(u) => u case None => t.users
  }

  function PhoneIdentity(phone: string): Identity {
    Identity(PHONE, phone, "")
  }

  /** The rows once the phone has an account. */
  ghost function WithPhone(t: Table, phone: string, tp: Identity): set<Row> {
    if ByIdentity(t.rows, PHONE, phone).Some? then t.rows else t.Added(Target(t, phone, tp), PhoneIdentity(phone)).rows
  }

  /** Identities of the same type on the target: they are replaced. */
  predicate IsReplaced(r: Row, target: UserId, tp: Identity) {
    r.user == target && r.typ == tp.typ && r.subject != tp.subject
  }

  /** And so is, on the target, everything under a replaced row's union key. */
  predicate SharesKey(r: Row, target: UserId, tp: Identity, replaced: set<Row>) {
    r.user == target && r.key != "" && r.key != tp.key && exists o :: o in replaced && o.key == r.key
  }

  /** On other accounts the third-party identity is taken off, by subject and by union key. */
  predicate IsTakenOff(r: Row, target: UserId, tp: Identity) {
    r.user != target && ((r.typ == tp.typ && r.subject == tp.subject) || (tp.key != "" && r.key == tp.key))
  }

  function Replaced(rows: set<Row>, target: UserId, tp: Identity): set<Row> {
    set r | r in rows && IsReplaced(r, target, tp)
  }

  /** What is left on the target and elsewhere once the union keys of `replaced` are gone. */
  function Left(rows: set<Row>, target: UserId, tp: Identity, replaced: set<Row>): set<Row> {
    set r | r in rows && !IsReplaced(r, target, tp) && !SharesKey(r, target, tp, replaced)
  }

  function Under(rows: set<Row>, target: UserId, key: string): set<Row> {
    set r | r in rows && r.user == target && r.key == key
  }

  lemma LeftOneMore(rows: set<Row>, target: UserId, tp: Identity, replaced: set<Row>, o: Row)
    ensures Left(rows, target, tp, replaced + {o})
         == Left(rows, target, tp, replaced)
            - if o.key == "" || o.key == tp.key then {} else Under(Left(rows, target, tp, replaced), target, o.key)
  {
    forall r ensures SharesKey(r, target, tp, replaced + {o})
                <==> SharesKey(r, target, tp, replaced) || SharesKey(r, target, tp, {o})
    {
    }
    assert forall r :: SharesKey(r, target, tp, {o}) <==>
        r.user == target && r.key == o.key && r.key != "" && r.key != tp.key;
  }

  function Remaining(rows: set<Row>, target: UserId, tp: Identity): set<Row> {
    set r | r in Left(rows, target, tp, Replaced(rows, target, tp)) && !IsTakenOff(r, target, tp)
  }

  /** What LinkPhone reports as replaced: everything that goes from the target's own rows. */
  ghost function ReplacedOf(t: Table, phone: string, tp: Identity): set<Row> {
    var rows, target := WithPhone(t, phone, tp), Target(t, phone, tp);
    rows - Left(rows, target, tp, Replaced(rows, target, tp))
  }

  ghost function Linked(t: Table, phone: string, tp: Identity): (Table, Reply) {
    if !tp.Valid() || phone == "" then (t, Invalid)
    else
      var target := Target(t, phone, tp);
      var users := if target < t.users then t.users else target + 1;
      var rest := Remaining(WithPhone(t, phone, tp), target, tp);
      var rows := if ByIdentity(rest, tp.typ, tp.subject).Some? then rest
          else Table(rest, users).Added(target, tp).rows;
      (Table(rows, users), Done(target, target == t.users))
  }

  datatype Transaction =
    | Ensure(id: Identity)
    | Attach(user: UserId, id: Identity)
    | LinkPhone(phone: string, id: Identity)

  ghost function Apply(t: Table, x: Transaction): (Table, Reply) {
    match x
    case Ensure(id) => Ensured(t, id)
    case Attach(u, id) => Attached(t, u, id)
    case LinkPhone(p, id) => Linked(t, p, id)
  }

  ghost function Run(t: Table, xs: seq<Transaction>): Table
    decreases |xs|
  {
    if xs == [] then t else Run(Apply(t, xs[0]).0, xs[1..])
  }

  // ----- The service -----

  class UserService {
    var rows: set<Row>
    var users: nat

    constructor ()
      ensures Value() == EMPTY
    {
      rows, users := {}, 0;
    }

    ghost function Value(): Table
      reads this
    {
      Table(rows, users)
    }

    method FindByIdentity(typ: string, subject: string) returns (o: Option<Row>)
      requires Sound(Value())
      ensures o == ByIdentity(rows, typ, subject)
    {
      var rest := rows;
      while rest != {}
        invariant rest <= rows
        invariant forall r :: r in rows - rest ==> r.typ != typ || r.subject != subject
        decreases |rest|
      {
        var r :| r in rest;
        if r.typ == typ && r.subject == subject {
          return Some(r);
        }
        rest := rest - {r};
      }
      return None;
    }

    /** Whatever row of that key comes first. */
    method FindOwnerOfKey(key: string) returns (o: Option<UserId>)
      requires Sound(Value()) && key != ""
      ensures o == OwnerOfKey(rows, key)
    {
      var rest := rows;
      while rest != {}
        invariant rest <= rows
        invariant forall r :: r in rows - rest ==> r.key != key
        decreases |rest|
      {
        var r :| r in rest;
        if r.key == key {
          return Some(r.user);
        }
        rest := rest - {r};
      }
      return None;
    }

    method EnsureUserWithIdentity(id: Identity) returns (reply: Reply)
      requires Sound(Value())
      modifies this
      ensures (Value(), reply) == Ensured(old(Value()), id) && Sound(Value())
    {
      StepKeepsSound(Value(), Ensure(id));
      if id.typ == "" || id.subject == "" {
        return Invalid;
      }
      var known := FindByIdentity(id.typ, id.subject);
      if known.Some? {
        return Done(known.value.user, false);
      }
      var owner: Option<UserId> := None;
      if id.key != "" {
        owner := FindOwnerOfKey(id.key);
      }
      var user, created := 0, false;
      if owner.Some? {
        user := owner.value;
      } else {
        user, created := users, true;
        users := users + 1;
      }
      rows := rows + {Row(user, id.typ, id.subject, id.key)};
      return Done(user, created);
    }

    method AttachIdentity(user: UserId, id: Identity) returns (reply: Reply)
      requires Sound(Value())
      modifies this
      ensures (Value(), reply) == Attached(old(Value()), user, id) && Sound(Value())
    {
      StepKeepsSound(Value(), Attach(user, id));
      if id.typ == "" || id.subject == "" {
        return Invalid;
      }
      if id.key != "" {
        var owner := FindOwnerOfKey(id.key);
        if owner.Some? && owner.value != user {
          return Conflict;
        }
      }
      var known := FindByIdentity(id.typ, id.subject);
      if known.Some? {
        return Conflict;
      }
      if user >= users {
        return NoSuchUser;
      }
      rows := rows + {Row(user, id.typ, id.subject, id.key)};
      return Done(user, false);
    }

    method FindThirdPartyOwner(tp: Identity) returns (o: Option<UserId>)
      requires Sound(Value())
      ensures o == ThirdPartyOwner(rows, tp)
    {
      var known := FindByIdentity(tp.typ, tp.subject);
      if known.Some? {
        return Some(known.value.user);
      }
      if tp.key == "" {
        return None;
      }
      o := FindOwnerOfKey(tp.key);
    }

    /** The account, created if need be, with the phone number on it. */
    method AccountForPhone(phone: string, tp: Identity) returns (target: UserId)
      requires Sound(Value()) && tp.Valid() && phone != ""
      modifies this
      ensures target == Target(old(Value()), phone, tp)
      ensures Value() == Table(WithPhone(old(Value()), phone, tp), if target < old(users) then old(users)
          else target + 1)
      ensures Sound(Value()) && target < users
    {
      TargetKnown(Value(), phone, tp);
      var known := FindByIdentity(PHONE, phone);
      if known.Some? {
        return known.value.user;
      }
      var owner := FindThirdPartyOwner(tp);
      if owner.Some? {
        target := owner.value;
      } else {
        target := users;
        users := users + 1;
      }
      WithPhoneSound(old(Value()), phone, tp, users);
      rows := rows + {Row(target, PHONE, phone, "")};
    }

    /** Deletes the target's other identities of that type, then everything under their union keys, one by one in
        whatever order the first DELETE returned them. */
    method Replace(target: UserId, tp: Identity) returns (gone: set<Row>)
      modifies this`rows
      ensures rows == Left(old(rows), target, tp, Replaced(old(rows), target, tp))
      ensures gone == old(rows) - rows
    {
      gone := set r | r in rows && IsReplaced(r, target, tp);
      ghost var all := gone;
      rows := rows - gone;
      var todo := gone;
      assert all - todo == {};
      assert rows == Left(old(rows), target, tp, all - todo);
      while todo != {}
        invariant todo <= all && gone == old(rows) - rows && rows <= old(rows)
        invariant rows == Left(old(rows), target, tp, all - todo)
        decreases |todo|
      {
        var o :| o in todo;
        LeftOneMore(old(rows), target, tp, all - todo, o);
        assert all - (todo - {o}) == (all - todo) + {o};
        if o.key != "" && o.key != tp.key {
          var more := Under(rows, target, o.key);
          gone, rows := gone + more, rows - more;
        }
        todo := todo - {o};
      }
      assert all - todo == all;
    }

    /** DELETE ... WHERE user_id <> target AND ... */
    method TakeOff(target: UserId, tp: Identity)
      modifies this`rows
      ensures rows == set r | r in old(rows) && !IsTakenOff(r, target, tp)
    {
      rows := rows - set r | r in rows && IsTakenOff(r, target, tp);
    }

    method LinkPhone(phone: string, tp: Identity) returns (reply: Reply, gone: set<Row>)
      requires Sound(Value())
      modifies this
      ensures (Value(), reply) == Linked(old(Value()), phone, tp) && Sound(Value())
      ensures gone == if reply.Done? then ReplacedOf(old(Value()), phone, tp) else {}
    {
      gone := {};
      if tp.typ == "" || tp.subject == "" || phone == "" {
        return Invalid, gone;
      }
      LinkKeepsSound(Value(), phone, tp);
      var before := users;
      var target := AccountForPhone(phone, tp);
      ghost var withPhone := rows;
      gone := Replace(target, tp);
      TakeOff(target, tp);
      FewerIsSound(Table(withPhone, users), rows, users);
      var known := FindByIdentity(tp.typ, tp.subject);
      if known.None? {
        rows := rows + {Row(target, tp.typ, tp.subject, tp.key)};
      }
      return Done(target, target == before), gone;
    }
  }

  // ----- Every sequence of transactions keeps the table sound -----

  lemma TargetKnown(t: Table, phone: string, tp: Identity)
    requires Sound(t)
    ensures Target(t, phone, tp) <= t.users
  {
  }

  /** The two ways a table stays sound: a row of a new identity goes to its key's user, or rows go. */
  lemma AddKeepsSound(t: Table, user: UserId, id: Identity)
    requires Sound(t) && id.Valid() && user < t.users
    requires forall r :: r in t.rows ==> !(r.typ == id.typ && r.subject == id.subject)
    requires forall r :: r in t.rows && id.key != "" && r.key == id.key ==> r.user == user
    ensures Sound(t.Added(user, id))
  {
  }

  lemma FewerIsSound(t: Table, rows: set<Row>, users: nat)
    requires Sound(t) && rows <= t.rows && t.users <= users
    ensures Sound(Table(rows, users))
  {
  }

  lemma WithPhoneSound(t: Table, phone: string, tp: Identity, users: nat)
    requires Sound(t) && phone != "" && Target(t, phone, tp) < users && t.users <= users
    ensures Sound(Table(WithPhone(t, phone, tp), users))
  {
    FewerIsSound(t, t.rows, users);
    if ByIdentity(t.rows, PHONE, phone).None? {
      AddKeepsSound(Table(t.rows, users), Target(t, phone, tp), PhoneIdentity(phone));
    }
  }

  lemma LinkKeepsSound(t: Table, phone: string, tp: Identity)
    requires Sound(t) && tp.Valid() && phone != ""
    ensures Sound(Linked(t, phone, tp).0)
  {
    var target := Target(t, phone, tp);
    TargetKnown(t, phone, tp);
    var users := if target < t.users then t.users else target + 1;
    WithPhoneSound(t, phone, tp, users);
    var rest := Remaining(WithPhone(t, phone, tp), target, tp);
    FewerIsSound(Table(WithPhone(t, phone, tp), users), rest, users);
    if ByIdentity(rest, tp.typ, tp.subject).None? {
      forall r | r in rest && tp.key != "" && r.key == tp.key ensures r.user == target {
        assert !IsTakenOff(r, target, tp);
      }
      AddKeepsSound(Table(rest, users), target, tp);
    }
  }

  lemma EnsureKeepsSound(t: Table, id: Identity)
    requires Sound(t)
    ensures Sound(Ensured(t, id).0)
  {
    if id.Valid() && ByIdentity(t.rows, id.typ, id.subject).None? {
      var owner := if id.key == "" then None else OwnerOfKey(t.rows, id.key);
      FewerIsSound(t, t.rows, t.users + 1);
      match owner
      case Some(u) => AddKeepsSound(t, u, id);
      case None => AddKeepsSound(Table(t.rows, t.users + 1), t.users, id);
    }
  }

  lemma AttachKeepsSound(t: Table, user: UserId, id: Identity)
    requires Sound(t)
    ensures Sound(Attached(t, user, id).0)
  {
    if Attached(t, user, id).1.Done? {
      AddKeepsSound(t, user, id);
    }
  }

  lemma StepKeepsSound(t: Table, x: Transaction)
    requires Sound(t)
    ensures Sound(Apply(t, x).0)
  {
    match x
    case Ensure(id) => EnsureKeepsSound(t, id);
    case Attach(u, id) => AttachKeepsSound(t, u, id);
    case LinkPhone(phone, tp) => if tp.Valid() && phone != "" { LinkKeepsSound(t, phone, tp); }
  }

  lemma {:induction false} RunKeepsSound(t: Table, xs: seq<Transaction>)
    requires Sound(t)
    ensures Sound(Run(t, xs))
    decreases |xs|
  {
    if xs == [] {
    } else {
      StepKeepsSound(t, xs[0]);
      RunKeepsSound(Apply(t, xs[0]).0, xs[1..]);
    }
  }

  /** So every owner lookup has one possible answer, whichever row LIMIT 1 picks. */
  lemma OwnerIsUnambiguous(xs: seq<Transaction>, key: string, r: Row)
    requires key != "" && r in Run(EMPTY, xs).rows && r.key == key
    ensures OwnerOfKey(Run(EMPTY, xs).rows, key) == Some(r.user)
  {
    RunKeepsSound(EMPTY, xs);
  }

  /** An identity never seen before joins the user its union key already stands for; a known one keeps its user. */
  lemma MergesByUnionKey(xs: seq<Transaction>, id: Identity, r: Row)
    requires id.Valid() && r in Run(EMPTY, xs).rows
    ensures r.typ == id.typ && r.subject == id.subject ==>
        Ensured(Run(EMPTY, xs), id) == (Run(EMPTY, xs), Done(r.user, false))
    ensures id.key != "" && r.key == id.key && ByIdentity(Run(EMPTY, xs).rows, id.typ, id.subject).None? ==>
              Ensured(Run(EMPTY, xs), id).1 == Done(r.user, false)
  {
    RunKeepsSound(EMPTY, xs);
  }

  /** A login always ends with the identity on the user it returns, the same one every time; a user is created only when
      neither the identity nor its union key is known. */
  lemma EnsuredIsHeld(xs: seq<Transaction>, id: Identity)
    requires id.Valid()
    ensures var t := Run(EMPTY, xs);
            var (n, reply) := Ensured(t, id);
            reply.Done? && Ensured(n, id) == (n, Done(reply.user, false))
    ensures var t := Run(EMPTY, xs);
            var (n, reply) := Ensured(t, id);
            reply.created <==> forall r :: r in t.rows ==>
                                 !(r.typ == id.typ && r.subject == id.subject) && (id.key == "" || r.key != id.key)
  {
    RunKeepsSound(EMPTY, xs);
    var (n, reply) := Ensured(Run(EMPTY, xs), id);
    EnsureKeepsSound(Run(EMPTY, xs), id);
    var r := ByIdentity(n.rows, id.typ, id.subject).value;
    assert r.user == reply.user;
  }

  /** Attaching conflicts exactly when the identity is taken, by anyone, or the union key stands for another user. */
  lemma AttachConflictsExactly(xs: seq<Transaction>, user: UserId, id: Identity)
    requires id.Valid()
    ensures var t := Run(EMPTY, xs);
            Attached(t, user, id).1.Conflict? <==>
              exists r :: r in t.rows && ((r.typ == id.typ && r.subject == id.subject)
                                          || (id.key != "" && r.key == id.key && r.user != user))
  {
    RunKeepsSound(EMPTY, xs);
  }

  /** What LinkPhone promises: the third-party identity is on the returned account, which has no other identity of that
      type, and no other account holds its subject, its union key or the union key of the row that stands for it. */
  lemma LinkMovesTheIdentity(xs: seq<Transaction>, phone: string, tp: Identity)
    requires tp.Valid() && phone != ""
    ensures var (n, reply) := Linked(Run(EMPTY, xs), phone, tp);
            reply.Done? && exists r :: r in n.rows && r.user == reply.user && r.typ == tp.typ && r.subject == tp.subject
    ensures var (n, reply) := Linked(Run(EMPTY, xs), phone, tp);
            forall r :: r in n.rows && r.user == reply.user && r.typ == tp.typ ==> r.subject == tp.subject
    ensures var (n, reply) := Linked(Run(EMPTY, xs), phone, tp);
            forall r :: r in n.rows && r.user != reply.user ==>
              !(r.typ == tp.typ && r.subject == tp.subject) && (tp.key != "" ==> r.key != tp.key)
    ensures var (n, reply) := Linked(Run(EMPTY, xs), phone, tp);
            forall r, q :: r in n.rows && q in n.rows && r.typ == tp.typ && r.subject == tp.subject ==>
                             q.key != r.key || q.key == "" || q.user == reply.user
  {
    RunKeepsSound(EMPTY, xs);
    var t := Run(EMPTY, xs);
    LinkKeepsSound(t, phone, tp);
    var target := Target(t, phone, tp);
    var rest := Remaining(WithPhone(t, phone, tp), target, tp);
    var n := Linked(t, phone, tp).0;
    match ByIdentity(rest, tp.typ, tp.subject)
    case Some(r) => assert r in n.rows && !IsTakenOff(r, target, tp);
    case None => assert Row(target, tp.typ, tp.subject, tp.key) in n.rows;
  }

  /** Whether the phone number is still on the account afterwards: yes if the third-party identity is that very phone
      number; otherwise exactly if it is no phone number at all and no replaced identity carries the phone row's own
      union key. The transaction itself does not check this. */
  predicate PhoneSafe(rows: set<Row>, target: UserId, phone: string, tp: Identity) {
    if tp.typ == PHONE then tp.subject == phone
    else
      forall r, o :: r in rows && o in rows && r.typ == PHONE && r.subject == phone && IsReplaced(o, target, tp) ==>
                       o.key != r.key || r.key == "" || r.key == tp.key
  }

  lemma PhoneStaysExactlyWhenSafe(xs: seq<Transaction>, phone: string, tp: Identity)
    requires tp.Valid() && phone != ""
    ensures var t := Run(EMPTY, xs);
            var (n, reply) := Linked(t, phone, tp);
            PhoneSafe(t.rows, Target(t, phone, tp), phone, tp) <==>
              exists r :: r in n.rows && r.user == reply.user && r.typ == PHONE && r.subject == phone
  {
    RunKeepsSound(EMPTY, xs);
    var t := Run(EMPTY, xs);
    var target, rest := Target(t, phone, tp), Remaining(WithPhone(t, phone, tp), Target(t, phone, tp), tp);
    var p := PhoneRow(t, phone, tp);
    var n := Linked(t, phone, tp).0;
    if tp.typ == PHONE && tp.subject == phone {
      LinkMovesTheIdentity(xs, phone, tp);
    } else {
      assert p in rest ==> p in n.rows;
    }
  }

  /** The phone row before the deletions, which it survives exactly when PhoneSafe says so. */
  lemma PhoneRow(t: Table, phone: string, tp: Identity) returns (p: Row)
    requires Sound(t) && tp.Valid() && phone != ""
    ensures p in WithPhone(t, phone, tp) && p.user == Target(t, phone, tp) && p.typ == PHONE && p.subject == phone
    ensures forall q :: q in WithPhone(t, phone, tp) && q.typ == PHONE && q.subject == phone ==> q == p
    ensures !(tp.typ == PHONE && tp.subject == phone) ==>
              (PhoneSafe(t.rows, p.user, phone, tp) <==> p in Remaining(WithPhone(t, phone, tp), p.user, tp))
  {
    var target := Target(t, phone, tp);
    TargetKnown(t, phone, tp);
    WithPhoneSound(t, phone, tp, if target < t.users then t.users else target + 1);
    p := ByIdentity(WithPhone(t, phone, tp), PHONE, phone).value;
  }

  /** The other case is a phone number attached under a third-party union key: it goes with the third party it shares
      the key with. */
  lemma PhoneCanBeLost()
    ensures var t := Apply(Apply(EMPTY, Ensure(Identity("wechat_mp", "o1", "k1"))).0, Attach(0, Identity(PHONE,
        "13800000000", "k1"))).0;
            var (n, reply) := Linked(t, "13800000000", Identity("wechat_mp", "o2", "k2"));
            reply == Done(0, false) && forall r :: r in n.rows ==> r.typ != PHONE
  {
    var wechat, phone := Identity("wechat_mp", "o1", "k1"), Identity(PHONE, "13800000000", "k1");
    var one := Apply(EMPTY, Ensure(wechat)).0;
    assert one == Table({Row(0, "wechat_mp", "o1", "k1")}, 1);
    var two := Apply(one, Attach(0, phone)).0;
    assert two == Table({Row(0, "wechat_mp", "o1", "k1"), Row(0, PHONE, "13800000000", "k1")}, 1);
    LosesPhone();
  }

  lemma LosesPhone()
    ensures var t := Table({Row(0, "wechat_mp", "o1", "k1"), Row(0, PHONE, "13800000000", "k1")}, 1);
            var (n, reply) := Linked(t, "13800000000", Identity("wechat_mp", "o2", "k2"));
            reply == Done(0, false) && forall r :: r in n.rows ==> r.typ != PHONE
  {
    var o, p, tp := Row(0, "wechat_mp", "o1", "k1"), Row(0, PHONE, "13800000000", "k1"), Identity("wechat_mp", "o2",
        "k2");
    var t := Table({o, p}, 1);
    assert ByIdentity(t.rows, PHONE, "13800000000") == Some(p);
    assert IsReplaced(o, 0, tp) && o in Replaced(t.rows, 0, tp);
    assert SharesKey(p, 0, tp, Replaced(t.rows, 0, tp));
    assert Remaining(t.rows, 0, tp) == {};
  }

  /** Phone numbers are local identities and have no union key. */
  predicate KeylessPhone(x: Transaction) {
    x.id.typ == PHONE ==> x.id.key == ""
  }

  lemma {:induction false} PhonesStayKeyless(t: Table, xs: seq<Transaction>)
    requires forall x :: x in xs ==> KeylessPhone(x)
    requires forall r :: r in t.rows && r.typ == PHONE ==> r.key == ""
    ensures forall r :: r in Run(t, xs).rows && r.typ == PHONE ==> r.key == ""
    decreases |xs|
  {
    if xs == [] {
    } else {
      assert KeylessPhone(xs[0]);
      PhonesStayKeyless(Apply(t, xs[0]).0, xs[1..]);
    }
  }

  /** As long as no phone number is ever given a union key, which no caller does, LinkPhone always leaves the phone
      number it was called for on the account it returns. */
  lemma LinkedPhoneStays(xs: seq<Transaction>, phone: string, tp: Identity)
    requires tp.Valid() && tp.typ != PHONE && phone != ""
    requires forall x :: x in xs ==> KeylessPhone(x)
    ensures var (n, reply) := Linked(Run(EMPTY, xs), phone, tp);
            reply.Done? && exists r :: r in n.rows && r.user == reply.user && r.typ == PHONE && r.subject == phone
  {
    PhonesStayKeyless(EMPTY, xs);
    PhoneStaysExactlyWhenSafe(xs, phone, tp);
  }

  /** No account but the returned one loses an identity other than the one being moved. */
  lemma OthersKeepTheRest(t: Table, phone: string, tp: Identity, r: Row)
    requires Sound(t) && tp.Valid() && phone != "" && r in t.rows
    ensures var (n, reply) := Linked(t, phone, tp);
            r.user != reply.user ==> (r in n.rows <==> !IsTakenOff(r, reply.user, tp))
  {
  }
}
