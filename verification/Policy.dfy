/** From role grants to a decision: inheritance flattened (internal/service/policy.go), compiled into sets and decided
    by deny-override (sdk/authzcore/authzcore.go). */
module Policy {
  import opened Wrappers
  import opened RoleGraph

  type Perm = string

  const DENY := "deny"       // every other effect counts as allow

  /** Direct grants within one application: role -> permission key -> effect. */
  type Grants = map<RoleId, map<Perm, string>>

  datatype RolePolicy = RolePolicy(roleKey: string, allow: seq<Perm>, deny: seq<Perm>)

  datatype RoleSets = RoleSets(allow: set<Perm>, deny: set<Perm>)

  type Snapshot = map<string, RoleSets>

  const NO_SETS := RoleSets({}, {})

  // ----- What the roles mean -----

  function Direct(grants: Grants, r: RoleId): map<Perm, string> {
    if r in grants then grants[r] else map[]
  }

  function DirectOf(g: Graph, grants: Grants, r: RoleId, i: nat): map<Perm, string> {
    match Ancestor(g, r, i) case None => map[] case Some(a) => Direct(grants, a)
  }

  /** The i-th role up from r is the nearest one that says something about perm. */
  predicate NearestAt(g: Graph, grants: Grants, r: RoleId, perm: Perm, i: nat) {
    perm in DirectOf(g, grants, r, i) && forall j :: 0 <= j < i ==> perm !in DirectOf(g, grants, r, j)
  }

  ghost predicate Denies(g: Graph, grants: Grants, r: RoleId, perm: Perm) {
    exists i: nat :: NearestAt(g, grants, r, perm, i) && DirectOf(g, grants, r, i)[perm] == DENY
  }

  ghost predicate Allows(g: Graph, grants: Grants, r: RoleId, perm: Perm) {
    exists i: nat :: NearestAt(g, grants, r, perm, i) && DirectOf(g, grants, r, i)[perm] != DENY
  }

  predicate Held(held: seq<string>, extra: string, code: string) {
    code in held || (extra != "" && code == extra)
  }

  /** The specification: ADMIN passes; otherwise no held role's nearest word on perm is a deny, and some held role's is
      an allow. */
  ghost predicate Permitted(g: Graph, grants: Grants, held: seq<string>, extra: string, perm: Perm) {
    || ADMIN in held
    || (&& (forall r :: r in g && Held(held, extra, g[r].code) ==> !Denies(g, grants, r, perm))
        && (exists r :: r in g && Held(held, extra, g[r].code) && Allows(g, grants, r, perm)))
  }

  // ----- effectiveFor -----

  /** The first n roles of the chain flattened; whoever is nearer to r wins. */
  function EffectiveUpTo(g: Graph, grants: Grants, r: RoleId, n: nat): map<Perm, string> {
    if n == 0 then map[] else DirectOf(g, grants, r, n - 1) + EffectiveUpTo(g, grants, r, n - 1)
  }

  function Effective(g: Graph, grants: Grants, r: RoleId): map<Perm, string> {
    EffectiveUpTo(g, grants, r, MAX_DEPTH)
  }

  /** Adds to `near` what `far` says about other permissions, one entry after the other. */
  method Inherit(near: map<Perm, string>, far: map<Perm, string>) returns (both: map<Perm, string>)
    ensures both == far + near
  {
    both := near;
    var rest := far.Keys;
    while rest != {}
      invariant rest <= far.Keys
      invariant both.Keys == near.Keys + (far.Keys - rest)
      invariant forall k :: k in both ==> both[k] == if k in near then near[k] else far[k]
      decreases |rest|
    {
      var k :| k in rest;
      if k !in both {
        both := both[k := far[k]];
      }
      rest := rest - {k};
    }
  }

  method EffectiveFor(g: Graph, grants: Grants, r: RoleId) returns (effective: map<Perm, string>)
    ensures effective == Effective(g, grants, r)
  {
    effective := map[];
    var cur, depth := Some(r), 0;
    while depth < MAX_DEPTH && cur.Some?
      invariant 0 <= depth <= MAX_DEPTH && cur == Ancestor(g, r, depth)
      invariant effective == EffectiveUpTo(g, grants, r, depth)
    {
      if cur.value in grants {
        effective := Inherit(effective, grants[cur.value]);
      }
      cur, depth := Parent(g, cur.value), depth + 1;
    }
    if cur.None? {
      NothingBeyond(g, grants, r, depth, MAX_DEPTH);
    }
  }

  lemma {:induction false} NothingBeyond(g: Graph, grants: Grants, r: RoleId, n: nat, m: nat)
    requires n <= m && ChainWithin(g, r, n)
    ensures EffectiveUpTo(g, grants, r, m) == EffectiveUpTo(g, grants, r, n)
  {
    if n < m {
      NothingBeyond(g, grants, r, n, m - 1);
      EndsAt(g, r, n);
    }
  }

  /** Flattening finds exactly the nearest word among the first n roles. */
  lemma {:induction false} EffectiveIsNearest(g: Graph, grants: Grants, r: RoleId, n: nat, perm: Perm)
    ensures perm in EffectiveUpTo(g, grants, r, n) <==> exists i :: 0 <= i < n && NearestAt(g, grants, r, perm, i)
    ensures forall i: nat :: i < n && NearestAt(g, grants, r, perm, i) ==>
              perm in EffectiveUpTo(g, grants, r, n)
                  && EffectiveUpTo(g, grants, r, n)[perm] == DirectOf(g, grants, r, i)[perm]
  {
    if n > 0 {
      EffectiveIsNearest(g, grants, r, n - 1, perm);
      if perm !in EffectiveUpTo(g, grants, r, n - 1) && perm in DirectOf(g, grants, r, n - 1) {
        NoneNearer(g, grants, r, n - 1, perm);
        assert NearestAt(g, grants, r, perm, n - 1);
      }
    }
  }

  lemma {:induction false} NoneNearer(g: Graph, grants: Grants, r: RoleId, n: nat, perm: Perm)
    requires perm !in EffectiveUpTo(g, grants, r, n)
    ensures forall j :: 0 <= j < n ==> perm !in DirectOf(g, grants, r, j)
  {
    if n > 0 {
      NoneNearer(g, grants, r, n - 1, perm);
    }
  }

  /** On chains of at most 64 roles nothing is cut off. */
  lemma EffectiveMeansNearest(g: Graph, grants: Grants, r: RoleId, perm: Perm)
    requires ChainWithin(g, r, MAX_DEPTH)
    ensures perm in Effective(g, grants, r) && Effective(g, grants, r)[perm] == DENY <==> Denies(g, grants, r, perm)
    ensures perm in Effective(g, grants, r) && Effective(g, grants, r)[perm] != DENY <==> Allows(g, grants, r, perm)
  {
    EffectiveIsNearest(g, grants, r, MAX_DEPTH, perm);
    EndsAt(g, r, MAX_DEPTH);
    forall i: nat | NearestAt(g, grants, r, perm, i) ensures i < MAX_DEPTH {
    }
  }

  // ----- CompilePolicy -----

  /** p carries one role's effective permissions. */
  ghost predicate Carries(p: RolePolicy, code: string, effective: map<Perm, string>) {
    && p.roleKey == code
    && (forall k :: k in p.deny <==> k in effective && effective[k] == DENY)
    && (forall k :: k in p.allow <==> k in effective && effective[k] != DENY)
  }

  /** One entry for every role that has anything to say, and no other entries. */
  ghost predicate IsPolicy(ps: seq<RolePolicy>, g: Graph, grants: Grants, roles: set<RoleId>) {
    && (forall p :: p in ps ==> exists r :: r in roles && r in g && Carries(p, g[r].code, Effective(g, grants, r)))
    && (forall r :: r in roles && r in g && Effective(g, grants, r) != map[] ==>
          exists p :: p in ps && Carries(p, g[r].code, Effective(g, grants, r)))
  }

  method Split(code: string, effective: map<Perm, string>) returns (p: RolePolicy)
    ensures Carries(p, code, effective)
  {
    var allow: seq<Perm>, deny: seq<Perm> := [], [];
    var rest := effective.Keys;
    while rest != {}
      invariant rest <= effective.Keys
      invariant forall k :: k in deny <==> k in effective && k !in rest && effective[k] == DENY
      invariant forall k :: k in allow <==> k in effective && k !in rest && effective[k] != DENY
      decreases |rest|
    {
      var k :| k in rest;
      if effective[k] == DENY {
        deny := deny + [k];
      } else {
        allow := allow + [k];
      }
      rest := rest - {k};
    }
    p := RolePolicy(code, allow, deny);
  }

  /** One turn of the loop over the roles. */
  method AddRole(g: Graph, grants: Grants, ps: seq<RolePolicy>, r: RoleId, ghost done: set<RoleId>)
      returns (more: seq<RolePolicy>)
    requires r in g && IsPolicy(ps, g, grants, done)
    ensures IsPolicy(more, g, grants, done + {r})
  {
    var effective := EffectiveFor(g, grants, r);
    if effective == map[] {
      PolicyGrows(ps, ps, g, grants, done, r);
      return ps;
    }
    var p := Split(g[r].code, effective);
    more := ps + [p];
    PolicyGrows(ps, more, g, grants, done, r);
  }

  method CompilePolicy(g: Graph, grants: Grants) returns (ps: seq<RolePolicy>)
    ensures IsPolicy(ps, g, grants, g.Keys)
  {
    ps := [];
    var rest := g.Keys;
    ghost var done: set<RoleId> := {};
    while rest != {}
      invariant rest <= g.Keys && done == g.Keys - rest
      invariant IsPolicy(ps, g, grants, done)
      decreases |rest|
    {
      var r :| r in rest;
      ps := AddRole(g, grants, ps, r, done);
      rest, done := rest - {r}, done + {r};
    }
    assert done == g.Keys;
  }

  lemma PolicyGrows(before: seq<RolePolicy>, after: seq<RolePolicy>, g: Graph, grants: Grants, roles: set<RoleId>,
      r: RoleId)
    requires r in g && IsPolicy(before, g, grants, roles)
    requires after == before ==> Effective(g, grants, r) == map[]
    requires after != before ==> exists p :: after == before + [p] && Carries(p, g[r].code, Effective(g, grants, r))
    ensures IsPolicy(after, g, grants, roles + {r})
  {
    if after != before {
      var p :| after == before + [p] && Carries(p, g[r].code, Effective(g, grants, r));
      assert forall q :: q in after <==> q in before || q == p;
    }
  }

  // ----- Compile -----

  function SetsOf(s: Snapshot, key: string): RoleSets {
    if key in s then s[key] else NO_SETS
  }

  /** Entries with the same key are merged, so a deny is never lost. */
  function Merged(s: Snapshot, p: RolePolicy): Snapshot {
    var sets := SetsOf(s, p.roleKey);
    s[p.roleKey := RoleSets(sets.allow + (set a | a in p.allow), sets.deny + (set d | d in p.deny))]
  }

  function Compiled(ps: seq<RolePolicy>): Snapshot {
    if ps == [] then map[] else Merged(Compiled(ps[..|ps| - 1]), ps[|ps| - 1])
  }

  method AddAll(s: set<Perm>, items: seq<Perm>) returns (all: set<Perm>)
    ensures all == s + (set x | x in items)
  {
    all := s;
    for i := 0 to |items|
      invariant all == s + (set x | x in items[..i])
    {
      assert items[..i + 1] == items[..i] + [items[i]];
      all := all + {items[i]};
    }
    assert items[..|items|] == items;
  }

  method Compile(ps: seq<RolePolicy>) returns (s: Snapshot)
    ensures s == Compiled(ps)
  {
    s := map[];
    for i := 0 to |ps|
      invariant s == Compiled(ps[..i])
    {
      var sets := if ps[i].roleKey in s then s[ps[i].roleKey] else NO_SETS;
      var allow := AddAll(sets.allow, ps[i].allow);
      var deny := AddAll(sets.deny, ps[i].deny);
      assert ps[..i + 1][..i] == ps[..i];
      s := s[ps[i].roleKey := RoleSets(allow, deny)];
    }
    assert ps[..|ps|] == ps;
  }

  lemma {:induction false} CompiledUnites(ps: seq<RolePolicy>, key: string, perm: Perm)
    ensures perm in SetsOf(Compiled(ps), key).deny <==> exists p :: p in ps && p.roleKey == key && perm in p.deny
    ensures perm in SetsOf(Compiled(ps), key).allow <==> exists p :: p in ps && p.roleKey == key && perm in p.allow
    decreases |ps|
  {
    if ps == [] {
    } else {
      var front, last := ps[..|ps| - 1], ps[|ps| - 1];
      CompiledUnites(front, key, perm);
      assert ps == front + [last];
      assert forall p :: p in ps <==> p in front || p == last;
    }
  }

  // ----- AllowWith -----

  /** Deny-override over the held roles of a snapshot; no snapshot admits nobody but ADMIN. */
  ghost predicate Decides(s: Option<Snapshot>, held: seq<string>, extra: string, perm: Perm) {
    || ADMIN in held
    || (&& s.Some?
        && (forall c :: Held(held, extra, c) ==> perm !in SetsOf(s.value, c).deny)
        && (exists c :: Held(held, extra, c) && perm in SetsOf(s.value, c).allow))
  }

  method HasAdmin(held: seq<string>) returns (b: bool)
    ensures b <==> ADMIN in held
  {
    for i := 0 to |held|
      invariant ADMIN !in held[..i]
    {
      if held[i] == ADMIN {
        return true;
      }
    }
    return false;
  }

  method AllowWith(s: Option<Snapshot>, held: seq<string>, extra: string, perm: Perm) returns (b: bool)
    ensures b <==> Decides(s, held, extra, perm)
  {
    var admin := HasAdmin(held);
    if admin {
      return true;
    }
    if s.None? {
      return false;
    }
    var allowed := false;
    for i := 0 to |held|
      invariant forall j :: 0 <= j < i ==> perm !in SetsOf(s.value, held[j]).deny
      invariant allowed <==> exists j :: 0 <= j < i && perm in SetsOf(s.value, held[j]).allow
    {
      var sets := SetsOf(s.value, held[i]);
      if perm in sets.deny {
        assert Held(held, extra, held[i]);
        return false;
      }
      if perm in sets.allow {
        allowed := true;
      }
    }
    if extra != "" {
      var sets := SetsOf(s.value, extra);
      if perm in sets.deny {
        assert Held(held, extra, extra);
        return false;
      }
      if perm in sets.allow {
        assert Held(held, extra, extra);
        allowed := true;
      }
    }
    return allowed;
  }

  // ----- The whole pipeline -----

  /** On inheritance chains of at most 64 roles, flattening, compiling and deciding come to the specification. */
  lemma PipelineIsTheSpec(g: Graph, grants: Grants, ps: seq<RolePolicy>, held: seq<string>, extra: string, perm: Perm)
    requires IsPolicy(ps, g, grants, g.Keys)
    requires forall r :: r in g ==> ChainWithin(g, r, MAX_DEPTH)
    ensures Decides(Some(Compiled(ps)), held, extra, perm) <==> Permitted(g, grants, held, extra, perm)
  {
    forall c
      ensures perm in SetsOf(Compiled(ps), c).deny <==>
          exists r :: r in g && g[r].code == c && Denies(g, grants, r, perm)
      ensures perm in SetsOf(Compiled(ps), c).allow <==>
          exists r :: r in g && g[r].code == c && Allows(g, grants, r, perm)
    {
      SnapshotMeansNearest(g, grants, ps, c, perm);
    }
  }

  lemma SnapshotMeansNearest(g: Graph, grants: Grants, ps: seq<RolePolicy>, c: string, perm: Perm)
    requires IsPolicy(ps, g, grants, g.Keys)
    requires forall r :: r in g ==> ChainWithin(g, r, MAX_DEPTH)
    ensures perm in SetsOf(Compiled(ps), c).deny <==> exists r :: r in g && g[r].code == c && Denies(g, grants, r, perm)
    ensures perm in SetsOf(Compiled(ps), c).allow <==>
        exists r :: r in g && g[r].code == c && Allows(g, grants, r, perm)
  {
    CompiledUnites(ps, c, perm);
    forall r | r in g
      ensures perm in Effective(g, grants, r) && Effective(g, grants, r)[perm] == DENY <==> Denies(g, grants, r, perm)
      ensures perm in Effective(g, grants, r) && Effective(g, grants, r)[perm] != DENY <==> Allows(g, grants, r, perm)
    {
      EffectiveMeansNearest(g, grants, r, perm);
    }
  }

  // ----- Exactly when, on chains of any length -----

  /** The nearest word of r on perm is out of reach, 64 or more steps up. */
  ghost predicate Far(g: Graph, grants: Grants, r: RoleId, perm: Perm) {
    exists i: nat :: MAX_DEPTH <= i && NearestAt(g, grants, r, perm, i)
  }

  /** Flattening says what the role means about perm. */
  ghost predicate FlattenedRight(g: Graph, grants: Grants, r: RoleId, perm: Perm) {
    var e := Effective(g, grants, r);
    && (perm in e && e[perm] == DENY <==> Denies(g, grants, r, perm))
    && (perm in e && e[perm] != DENY <==> Allows(g, grants, r, perm))
  }

  lemma NearestIsOne(g: Graph, grants: Grants, r: RoleId, perm: Perm, i: nat, j: nat)
    requires NearestAt(g, grants, r, perm, i) && NearestAt(g, grants, r, perm, j)
    ensures i == j
  {
  }

  /** Flattening is right about a role and a permission exactly when the role's nearest word on it is not 64 or more
      steps up. */
  lemma FlatteningExact(g: Graph, grants: Grants, r: RoleId, perm: Perm)
    ensures FlattenedRight(g, grants, r, perm) <==> !Far(g, grants, r, perm)
    ensures Far(g, grants, r, perm) ==> perm !in Effective(g, grants, r)
  {
    EffectiveIsNearest(g, grants, r, MAX_DEPTH, perm);
    if perm in Effective(g, grants, r) {
      var j :| 0 <= j < MAX_DEPTH && NearestAt(g, grants, r, perm, j);
      forall i: nat | NearestAt(g, grants, r, perm, i) ensures i == j {
        NearestIsOne(g, grants, r, perm, i, j);
      }
    } else if Far(g, grants, r, perm) {
      var i: nat :| MAX_DEPTH <= i && NearestAt(g, grants, r, perm, i);
      assert Denies(g, grants, r, perm) || Allows(g, grants, r, perm);
    }
  }

  /** Some held role's nearest word is within reach and denies (or allows), or is out of reach and does. */
  ghost predicate SomeDeny(g: Graph, grants: Grants, held: seq<string>, extra: string, perm: Perm, far: bool) {
    exists r :: r in g && Held(held, extra, g[r].code) && Far(g, grants, r, perm) == far && Denies(g, grants, r, perm)
  }

  ghost predicate SomeAllow(g: Graph, grants: Grants, held: seq<string>, extra: string, perm: Perm, far: bool) {
    exists r :: r in g && Held(held, extra, g[r].code) && Far(g, grants, r, perm) == far && Allows(g, grants, r, perm)
  }

  /** What the code decides, on chains of any length: deny-override over the words within reach. */
  lemma DecisionIsNear(g: Graph, grants: Grants, ps: seq<RolePolicy>, held: seq<string>, extra: string, perm: Perm)
    requires IsPolicy(ps, g, grants, g.Keys)
    ensures Decides(Some(Compiled(ps)), held, extra, perm) <==>
              ADMIN in held || (!SomeDeny(g, grants, held, extra, perm, false)
                  && SomeAllow(g, grants, held, extra, perm, false))
  {
    forall c
      ensures perm in SetsOf(Compiled(ps), c).deny <==>
                exists r :: r in g && g[r].code == c && !Far(g, grants, r, perm) && Denies(g, grants, r, perm)
      ensures perm in SetsOf(Compiled(ps), c).allow <==>
                exists r :: r in g && g[r].code == c && !Far(g, grants, r, perm) && Allows(g, grants, r, perm)
    {
      SnapshotIsNear(g, grants, ps, c, perm);
    }
  }

  lemma SnapshotIsNear(g: Graph, grants: Grants, ps: seq<RolePolicy>, c: string, perm: Perm)
    requires IsPolicy(ps, g, grants, g.Keys)
    ensures perm in SetsOf(Compiled(ps), c).deny <==>
              exists r :: r in g && g[r].code == c && !Far(g, grants, r, perm) && Denies(g, grants, r, perm)
    ensures perm in SetsOf(Compiled(ps), c).allow <==>
              exists r :: r in g && g[r].code == c && !Far(g, grants, r, perm) && Allows(g, grants, r, perm)
  {
    CompiledUnites(ps, c, perm);
    forall r | r in g
      ensures perm in Effective(g, grants, r) && Effective(g, grants, r)[perm] == DENY
              <==> !Far(g, grants, r, perm) && Denies(g, grants, r, perm)
      ensures perm in Effective(g, grants, r) && Effective(g, grants, r)[perm] != DENY
              <==> !Far(g, grants, r, perm) && Allows(g, grants, r, perm)
    {
      FlatteningExact(g, grants, r, perm);
    }
  }

  /** The decision meets the specification exactly when the words out of reach do not matter: ADMIN or a deny within
      reach settles it; otherwise, if something within reach allows, nothing out of reach denies, and if not, what is
      out of reach does not come to an allow. */
  lemma DecisionExact(g: Graph, grants: Grants, ps: seq<RolePolicy>, held: seq<string>, extra: string, perm: Perm)
    requires IsPolicy(ps, g, grants, g.Keys)
    ensures (Decides(Some(Compiled(ps)), held, extra, perm) <==> Permitted(g, grants, held, extra, perm)) <==>
              || ADMIN in held
              || SomeDeny(g, grants, held, extra, perm, false)
              || (if SomeAllow(g, grants, held, extra, perm, false) then !SomeDeny(g, grants, held, extra, perm, true)
                  else SomeDeny(g, grants, held, extra, perm, true) || !SomeAllow(g, grants, held, extra, perm, true))
  {
    DecisionIsNear(g, grants, ps, held, extra, perm);
    PermittedParts(g, grants, held, extra, perm);
  }

  lemma PermittedParts(g: Graph, grants: Grants, held: seq<string>, extra: string, perm: Perm)
    ensures Permitted(g, grants, held, extra, perm) <==>
              || ADMIN in held
              || (&& !SomeDeny(g, grants, held, extra, perm, false) && !SomeDeny(g, grants, held, extra, perm, true)
                  && (SomeAllow(g, grants, held, extra, perm, false) || SomeAllow(g, grants, held, extra, perm, true)))
  {
  }

  /** The same for the code: a decision taken on a freshly compiled and pushed policy. */
  method Decide(g: Graph, grants: Grants, held: seq<string>, extra: string, perm: Perm) returns (b: bool)
    requires forall r :: r in g ==> ChainWithin(g, r, MAX_DEPTH)
    ensures b <==> Permitted(g, grants, held, extra, perm)
  {
    var ps := CompilePolicy(g, grants);
    var s := Compile(ps);
    b := AllowWith(Some(s), held, extra, perm);
    PipelineIsTheSpec(g, grants, ps, held, extra, perm);
  }

  /** A deeper chain loses its far end: 65 roles in a line, of which only the topmost denies. */
  lemma FarDenyIsLost(perm: Perm)
    ensures Denies(Line(MAX_DEPTH + 1), map[0 := map[perm := DENY]], MAX_DEPTH, perm)
    ensures perm !in Effective(Line(MAX_DEPTH + 1), map[0 := map[perm := DENY]], MAX_DEPTH)
  {
    var g, grants := Line(MAX_DEPTH + 1), map[0 := map[perm := DENY]];
    forall i: nat ensures DirectOf(g, grants, MAX_DEPTH, i) == if i == MAX_DEPTH then map[perm := DENY] else map[] {
      LineWalk(MAX_DEPTH + 1, MAX_DEPTH, i);
    }
    assert NearestAt(g, grants, MAX_DEPTH, perm, MAX_DEPTH);
    EffectiveIsNearest(g, grants, MAX_DEPTH, MAX_DEPTH, perm);
  }
}
