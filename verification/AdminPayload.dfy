/** The console session payload id|username|epoch and how Authenticate takes it apart (internal/service/admin.go,
    issueToken and Authenticate). A username may contain the separator. */
module AdminPayload {
  import opened Wrappers

  const INT64_MAX: int := 0x7FFF_FFFF_FFFF_FFFF

  predicate IsDigit(c: char) {
    '0' <= c <= '9'
  }

  function Digit(d: nat): char
    requires d < 10
  {
    '0' + d as char
  }

  /** strconv.FormatInt for a counter, which is never negative. */
  function Format(n: nat): (s: string)
    ensures s != [] && forall c :: c in s ==> IsDigit(c)
  {
    if n < 10 then [Digit(n)] else Format(n / 10) + [Digit(n % 10)]
  }

  function Digits(s: string): Option<nat> {
    if s == [] then Some(0)
    else
      var front :- Digits(s[..|s| - 1]);
      var c := s[|s| - 1];
      if IsDigit(c) then Some(front * 10 + (c - '0') as nat) else None
  }

  /** strconv.ParseInt in base 10 to 64 bits: an optional sign, at least one digit, within range. */
  function Parse(s: string): Option<int> {
    var body := if s != [] && (s[0] == '+' || s[0] == '-') then s[1..] else s;
    if body == [] then None
    else
      var n :- Digits(body);
      var value := if s[0] == '-' then -(n as int) else n as int;
      if -INT64_MAX - 1 <= value <= INT64_MAX then Some(value) else None
  }

  /** The position of the first separator, |s| if there is none. */
  function FirstBar(s: string): (i: nat)
    ensures i <= |s| && (i < |s| ==> s[i] == '|') && forall j :: 0 <= j < i ==> s[j] != '|'
  {
    if s == [] || s[0] == '|' then 0 else 1 + FirstBar(s[1..])
  }

  /** One past the position of the last separator, 0 if there is none. */
  function AfterLastBar(s: string): (i: nat)
    ensures i <= |s| && (i > 0 ==> s[i - 1] == '|') && forall j :: i <= j < |s| ==> s[j] != '|'
  {
    if s == [] then 0
    else if s[|s| - 1] == '|' then |s|
    else AfterLastBar(s[..|s| - 1])
  }

  datatype Payload = Payload(id: string, username: string, epoch: int)

  function Written(id: string, username: string, epoch: nat): string {
    id + "|" + username + "|" + Format(epoch)
  }

  /** strings.Cut at the first separator, strings.LastIndex for the epoch; the id must still parse as a UUID. */
  function Taken(s: string): Option<Payload> {
    var cut := FirstBar(s);
    if cut == |s| then None
    else
      var rest := s[cut + 1..];
      var i := AfterLastBar(rest);
      if i == 0 then None
      else
        var epoch :- Parse(rest[i..]);
        Some(Payload(s[..cut], rest[..i - 1], epoch))
  }

  lemma {:induction false} DigitsFormat(n: nat)
    ensures Digits(Format(n)) == Some(n)
  {
    if n < 10 {
      assert Format(n)[..0] == [] && Digits([]) == Some(0);
      assert (Digit(n) - '0') as nat == n;
    } else {
      DigitsFormat(n / 10);
      var s := Format(n);
      assert s[..|s| - 1] == Format(n / 10);
      assert (Digit(n % 10) - '0') as nat == n % 10;
    }
  }

  lemma ParseFormat(n: nat)
    requires n <= INT64_MAX
    ensures Parse(Format(n)) == Some(n)
  {
    DigitsFormat(n);
    assert Format(n)[0] in Format(n);
  }

  lemma FirstBarIs(s: string, i: nat)
    requires i < |s| && s[i] == '|' && forall j :: 0 <= j < i ==> s[j] != '|'
    ensures FirstBar(s) == i
  {
  }

  lemma AfterLastBarIs(s: string, i: nat)
    requires 0 < i <= |s| && s[i - 1] == '|' && forall j :: i <= j < |s| ==> s[j] != '|'
    ensures AfterLastBar(s) == i
  {
  }

  /** Whatever the username, bars included, id, name and epoch come back. */
  lemma TakenWritten(id: string, username: string, epoch: nat)
    requires '|' !in id && epoch <= INT64_MAX
    ensures Taken(Written(id, username, epoch)) == Some(Payload(id, username, epoch))
  {
    var s := Written(id, username, epoch);
    var rest := username + "|" + Format(epoch);
    assert s == id + ("|" + rest);
    FirstBarIs(s, |id|);
    assert s[..|id|] == id && s[|id| + 1..] == rest;
    assert rest == username + ("|" + Format(epoch));
    forall j | |username| + 1 <= j < |rest| ensures rest[j] != '|' {
      assert rest[j] in Format(epoch);
    }
    AfterLastBarIs(rest, |username| + 1);
    assert rest[|username| + 1..] == Format(epoch) && rest[..|username|] == username;
    ParseFormat(epoch);
  }

  /** A payload of the old form id|username is refused, unless the name itself ends like an epoch. */
  lemma OldFormRefused(id: string, username: string)
    requires '|' !in id
    ensures Taken(id + "|" + username).Some? <==>
            AfterLastBar(username) > 0 && Parse(username[AfterLastBar(username)..]).Some?
  {
    var s := id + "|" + username;
    assert s == id + ("|" + username);
    FirstBarIs(s, |id|);
    assert s[|id| + 1..] == username;
  }
}
