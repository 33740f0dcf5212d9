/** Role inheritance and the check that keeps it free of cycles (internal/service/authz.go). */
module RoleGraph {
  import opened Wrappers

  type RoleId = nat

  const MAX_DEPTH: nat := 64
  const ADMIN := "ADMIN"
  const GUEST := "GUEST"

  datatype Role = Role(code: string, name: string, parent: Option<RoleId>)

  type Graph = map<RoleId, Role>

  function Parent(g: Graph, r: RoleId): Option<RoleId> {
    if r in g then g[r].parent else None
  }

  /** The role i steps up the inheritance chain of r; r itself for 0. */
  function Ancestor(g: Graph, r: RoleId, i: nat): Option<RoleId> {
    if i == 0 then Some(r)
    else
      match Ancestor(g, r, i - 1)
      case None => None
      case Some(a) => Parent(g, a)
  }

  ghost predicate Acyclic(g: Graph) {
    forall r: RoleId, i: nat :: 0 < i ==> Ancestor(g, r, i) != Some(r)
  }

  /** The chain of r has at most n roles. */
  predicate ChainWithin(g: Graph, r: RoleId, n: nat) {
    Ancestor(g, r, n).None?
  }

  /** a is r itself or an ancestor of r. */
  ghost predicate Above(g: Graph, r: RoleId, a: RoleId) {
    exists i: nat :: Ancestor(g, r, i) == Some(a)
  }

  /** id is parent itself or at most 63 steps above it: as far as the cycle check looks. */
  predicate SeenWithinDepth(g: Graph, id: RoleId, parent: RoleId) {
    exists i :: 0 <= i < MAX_DEPTH && Ancestor(g, parent, i) == Some(id)
  }

  function SetParent(g: Graph, id: RoleId, name: string, parent: Option<RoleId>): Graph {
    if id in g then g[id := Role(g[id].code, name, parent)] else g
  }

  /** A role keeps its code and gets exactly the new name and parent; no other role changes. */
  lemma SetParentWrites(g: Graph, id: RoleId, name: string, parent: Option<RoleId>, r: RoleId)
    requires id in g
    ensures var h := SetParent(g, id, name, parent);
            && (r in h <==> r in g)
            && (r in g ==> h[r].code == g[r].code)
            && (r in g && r != id ==> h[r].name == g[r].name && h[r].parent == g[r].parent)
            && h[id].name == name && h[id].parent == parent
  {
  }

  // ----- The service -----

  datatype Answer = InvalidName | SelfParent | NotFound | Builtin | UnderAdmin | Cycle | NoSuchParent | CodeTaken | Ok

  predicate IsBuiltin(code: string) {
    code == GUEST || code == ADMIN
  }

  class AuthzService {
    var roles: Graph

    constructor ()
      ensures roles == map[]
    {
      roles := map[];
    }

    /** One query per step of the loop. */
    method WouldCycle(id: RoleId, parent: RoleId) returns (cyclic: bool)
      ensures cyclic <==> SeenWithinDepth(roles, id, parent)
    {
      var cur, i := Some(parent), 0;
      while i < MAX_DEPTH && cur.Some?
        invariant 0 <= i <= MAX_DEPTH && cur == Ancestor(roles, parent, i)
        invariant forall j :: 0 <= j < i ==> Ancestor(roles, parent, j) != Some(id)
      {
        if cur.value == id {
          return true;
        }
        if cur.value !in roles {
          EndsAt(roles, parent, i + 1);
          return false;
        }
        cur, i := roles[cur.value].parent, i + 1;
      }
      if cur.None? {
        EndsAt(roles, parent, i);
      }
      return false;
    }

    /** Refused in the source's order of checks; accepted updates set the name and the parent and nothing else. */
    method UpdateRole(id: RoleId, name: string, parent: Option<RoleId>) returns (a: Answer)
      modifies this
      ensures roles == if a.Ok? then SetParent(old(roles), id, name, parent) else old(roles)
      ensures a.Ok? ==>
                && id in old(roles) && roles.Keys == old(roles).Keys
                && roles[id].code == old(roles)[id].code && roles[id].name == name && roles[id].parent == parent
                && forall r :: r in roles && r != id ==> roles[r] == old(roles)[r]
      ensures name == "" ==> a.InvalidName?
      ensures name != "" && parent == Some(id) ==> a.SelfParent?
      ensures name != "" && parent != Some(id) && id !in old(roles) ==> a.NotFound?
      ensures a.Builtin? <==>
                && name != "" && parent.Some? && parent != Some(id)
                && id in old(roles) && IsBuiltin(old(roles)[id].code)
      ensures a.Cycle? ==> parent.Some? && SeenWithinDepth(old(roles), id, parent.value)
      ensures a.NoSuchParent? ==> parent.Some? && parent.value !in old(roles)
      ensures Acyclic(old(roles)) && (parent.Some? ==> ChainWithin(old(roles), parent.value, MAX_DEPTH)) ==>
          Acyclic(roles)
      ensures a.Ok? <==>
                && name != "" && id in old(roles)
                && (parent.Some? ==>
                      && parent.value != id && parent.value in old(roles)
                      && !IsBuiltin(old(roles)[id].code) && old(roles)[parent.value].code != ADMIN
                      && !SeenWithinDepth(old(roles), id, parent.value))
    {
      if name == "" {
        return InvalidName;
      }
      if parent == Some(id) {
        return SelfParent;
      }
      if parent.Some? {
        if id !in roles {
          return NotFound;
        }
        if IsBuiltin(roles[id].code) {
          return Builtin;
        }
        if parent.value in roles && roles[parent.value].code == ADMIN {
          return UnderAdmin;
        }
        var cyclic := WouldCycle(id, parent.value);
        if cyclic {
          return Cycle;
        }
        if parent.value !in roles {
          return NoSuchParent;
        }
      }
      if id !in roles {
        return NotFound;
      }
      UpdateKeepsAcyclic(roles, id, name, parent);
      roles := roles[id := roles[id].(name := name, parent := parent)];
      return Ok;
    }

    method CreateRole(id: RoleId, code: string, name: string, parent: Option<RoleId>) returns (a: Answer)
      requires id !in roles
      modifies this
      ensures roles == if a.Ok? then old(roles)[id := Role(code, name, parent)] else old(roles)
      ensures a.Ok? <==>
                && code != "" && name != "" && (forall r :: r in old(roles) ==> old(roles)[r].code != code)
                && (parent.Some? ==> parent.value in old(roles) && old(roles)[parent.value].code != ADMIN)
    {
      if code == "" || name == "" {
        return InvalidName;
      }
      if parent.Some? && parent.value in roles && roles[parent.value].code == ADMIN {
        return UnderAdmin;
      }
      if exists r :: r in roles && roles[r].code == code {
        return CodeTaken;
      }
      if parent.Some? && parent.value !in roles {
        return NoSuchParent;
      }
      roles := roles[id := Role(code, name, parent)];
      return Ok;
    }
  }

  // ----- Walking up -----

  lemma {:induction false} EndsAt(g: Graph, r: RoleId, n: nat)
    requires Ancestor(g, r, n).None?
    ensures forall m: nat :: n <= m ==> Ancestor(g, r, m).None?
  {
    forall m: nat | n <= m ensures Ancestor(g, r, m).None? {
      EndsAtOne(g, r, n, m);
    }
  }

  lemma {:induction false} EndsAtOne(g: Graph, r: RoleId, n: nat, m: nat)
    requires Ancestor(g, r, n).None? && n <= m
    ensures Ancestor(g, r, m).None?
    decreases m
  {
    if n < m {
      EndsAtOne(g, r, n, m - 1);
    }
  }

  lemma {:induction false} WalksCompose(g: Graph, r: RoleId, i: nat, j: nat)
    requires Ancestor(g, r, i).Some?
    ensures Ancestor(g, r, i + j) == Ancestor(g, Ancestor(g, r, i).value, j)
    decreases j
  {
    if j > 0 {
      WalksCompose(g, r, i, j - 1);
    }
  }

  ghost predicate AgreeBut(g: Graph, h: Graph, id: RoleId) {
    forall r :: r != id ==> Parent(g, r) == Parent(h, r)
  }

  /** Two graphs that differ at id only agree on a walk up to its first visit of id. */
  lemma {:induction false} SameWalk(g: Graph, h: Graph, id: RoleId, r: RoleId, n: nat)
    requires AgreeBut(g, h, id)
    requires forall j :: 0 <= j < n ==> Ancestor(g, r, j) != Some(id)
    ensures Ancestor(g, r, n) == Ancestor(h, r, n)
  {
    if n > 0 {
      SameWalk(g, h, id, r, n - 1);
    }
  }

  lemma {:induction false} FirstVisit(g: Graph, r: RoleId, id: RoleId, n: nat) returns (m: nat)
    requires Ancestor(g, r, n) == Some(id)
    ensures m <= n && Ancestor(g, r, m) == Some(id)
    ensures forall j :: 0 <= j < m ==> Ancestor(g, r, j) != Some(id)
  {
    m := 0;
    while Ancestor(g, r, m) != Some(id)
      invariant m <= n && forall j :: 0 <= j < m ==> Ancestor(g, r, j) != Some(id)
      decreases n - m
    {
      m := m + 1;
    }
  }

  // ----- When the check is exact -----

  lemma ReachedMeansCycle(g: Graph, id: RoleId, name: string, parent: RoleId, i: nat)
    requires id in g && Ancestor(g, parent, i) == Some(id)
    ensures !Acyclic(SetParent(g, id, name, Some(parent)))
  {
    var h := SetParent(g, id, name, Some(parent));
    var m := FirstVisit(g, parent, id, i);
    SameWalk(g, h, id, parent, m);
    assert Ancestor(h, id, 1) == Some(parent) by { assert Ancestor(h, id, 0) == Some(id); }
    WalksCompose(h, id, 1, m);
    assert Ancestor(h, id, 1 + m) == Some(id);
  }

  lemma CycleMeansReached(g: Graph, id: RoleId, name: string, parent: RoleId, r: RoleId, i: nat)
    requires id in g && Acyclic(g)
    requires 0 < i && Ancestor(SetParent(g, id, name, Some(parent)), r, i) == Some(r)
    ensures exists m: nat :: Ancestor(g, parent, m) == Some(id)
  {
    var h := SetParent(g, id, name, Some(parent));
    if forall j :: 0 <= j < i ==> Ancestor(h, r, j) != Some(id) {
      SameWalk(h, g, id, r, i);
      assert false;
    } else {
      var j :| 0 <= j < i && Ancestor(h, r, j) == Some(id);
      WalksCompose(h, r, i, j);
      WalksCompose(h, r, j, i);
      assert Ancestor(h, id, i) == Some(id);
      assert Ancestor(h, id, 1) == Some(parent) by { assert Ancestor(h, id, 0) == Some(id); }
      WalksCompose(h, id, 1, i - 1);
      var m := FirstVisit(h, parent, id, i - 1);
      SameWalk(h, g, id, parent, m);
    }
  }

  /** Giving id a new parent keeps the inheritance acyclic exactly when id is nowhere up the parent's chain. */
  lemma CycleIffReached(g: Graph, id: RoleId, name: string, parent: RoleId)
    requires id in g && Acyclic(g)
    ensures Acyclic(SetParent(g, id, name, Some(parent))) <==> !Above(g, parent, id)
  {
    var h := SetParent(g, id, name, Some(parent));
    if Above(g, parent, id) {
      var i: nat :| Ancestor(g, parent, i) == Some(id);
      ReachedMeansCycle(g, id, name, parent, i);
    } else if !Acyclic(h) {
      var r: RoleId, i: nat :| 0 < i && Ancestor(h, r, i) == Some(r);
      CycleMeansReached(g, id, name, parent, r, i);
    }
  }

  /** In general the check never cries wolf, and it misses a cycle exactly when id is 64 or more steps up the parent's
      chain. */
  lemma MissedExactlyBeyondDepth(g: Graph, id: RoleId, name: string, parent: RoleId)
    requires id in g && Acyclic(g)
    ensures SeenWithinDepth(g, id, parent) ==> !Acyclic(SetParent(g, id, name, Some(parent)))
    ensures !SeenWithinDepth(g, id, parent) ==>
              (!Acyclic(SetParent(g, id, name, Some(parent))) <==>
                exists i: nat :: MAX_DEPTH <= i && Ancestor(g, parent, i) == Some(id))
  {
    CycleIffReached(g, id, name, parent);
    if SeenWithinDepth(g, id, parent) {
      var i :| 0 <= i < MAX_DEPTH && Ancestor(g, parent, i) == Some(id);
      ReachedMeansCycle(g, id, name, parent, i);
    } else if i: nat :| Ancestor(g, parent, i) == Some(id) {
      assert MAX_DEPTH <= i;
      ReachedMeansCycle(g, id, name, parent, i);
    }
  }

  /** On a parent chain of at most 64 roles the check is exact: it says yes exactly when a cycle would form. */
  lemma CheckIsExact(g: Graph, id: RoleId, name: string, parent: RoleId)
    requires id in g && Acyclic(g) && ChainWithin(g, parent, MAX_DEPTH)
    ensures SeenWithinDepth(g, id, parent) <==> !Acyclic(SetParent(g, id, name, Some(parent)))
  {
    MissedExactlyBeyondDepth(g, id, name, parent);
    EndsAt(g, parent, MAX_DEPTH);
  }

  /** An update that passed the check, on a parent chain of at most 64 roles. */
  lemma UpdateKeepsAcyclic(g: Graph, id: RoleId, name: string, parent: Option<RoleId>)
    requires id in g && (parent.Some? ==> !SeenWithinDepth(g, id, parent.value))
    ensures Acyclic(g) && (parent.Some? ==> ChainWithin(g, parent.value, MAX_DEPTH)) ==>
        Acyclic(SetParent(g, id, name, parent))
  {
    if Acyclic(g) {
      match parent
      case None => DroppedParentIsAcyclic(g, id, name);
      case Some(p) =>
        if ChainWithin(g, p, MAX_DEPTH) { CheckIsExact(g, id, name, p); }
    }
  }

  /** A role without a parent starts no new walk. */
  lemma DroppedParentIsAcyclic(g: Graph, id: RoleId, name: string)
    requires Acyclic(g)
    ensures Acyclic(SetParent(g, id, name, None))
  {
    var h := SetParent(g, id, name, None);
    if !Acyclic(h) {
      var r: RoleId, i: nat :| 0 < i && Ancestor(h, r, i) == Some(r);
      if j :| 0 <= j < i && Ancestor(h, r, j) == Some(id) {
        assert Ancestor(h, r, j + 1).None?;
        EndsAt(h, r, j + 1);
        assert false;
      } else {
        SameWalk(h, g, id, r, i);
        assert false;
      }
    }
  }

  /** The foreign key: every parent is a role. */
  ghost predicate Closed(g: Graph) {
    forall r :: r in g && g[r].parent.Some? ==> g[r].parent.value in g
  }

  lemma CreateKeepsAcyclic(g: Graph, id: RoleId, role: Role)
    requires Acyclic(g) && Closed(g) && id !in g && (role.parent.Some? ==> role.parent.value in g)
    ensures Acyclic(g[id := role]) && Closed(g[id := role])
  {
    var h := g[id := role];
    if !Acyclic(h) {
      var r: RoleId, i: nat :| 0 < i && Ancestor(h, r, i) == Some(r);
      if j :| 0 <= j < i && Ancestor(h, r, j) == Some(id) {
        WalksCompose(h, r, i, j);
        WalksCompose(h, r, j, i);
        assert Ancestor(h, id, i) == Some(id);
        NeverEnters(h, id, i);
        assert false;
      } else {
        SameWalk(h, g, id, r, i);
        assert false;
      }
    }
  }

  /** No walk enters a role that is nobody's parent. */
  lemma NeverEnters(g: Graph, id: RoleId, i: nat)
    requires i > 0 && forall r :: Parent(g, r) != Some(id)
    ensures Ancestor(g, id, i) != Some(id)
  {
  }

  lemma {:induction false} SameWalkThroughout(g: Graph, h: Graph, id: RoleId, r: RoleId)
    requires AgreeBut(g, h, id) && !Above(g, r, id)
    ensures forall n: nat :: Ancestor(g, r, n) == Ancestor(h, r, n)
  {
    forall n: nat ensures Ancestor(g, r, n) == Ancestor(h, r, n) {
      SameWalk(g, h, id, r, n);
    }
  }

  /** Up from q once a is under p, if p's own chain does not lead to a: as before, and everything above p if a is met.
      */
  lemma AboveAfterMove(g: Graph, a: RoleId, p: RoleId, name: string, q: RoleId, b: RoleId)
    requires a in g && a != b && !Above(g, p, a) && !Above(g, q, b)
    ensures Above(SetParent(g, a, name, Some(p)), q, b) <==> Above(g, q, a) && Above(g, p, b)
  {
    var h := SetParent(g, a, name, Some(p));
    SameWalkThroughout(g, h, a, p);
    if !Above(g, q, a) {
      SameWalkThroughout(g, h, a, q);
    } else {
      var n: nat :| Ancestor(g, q, n) == Some(a);
      var m := FirstVisit(g, q, a, n);
      SameWalk(g, h, a, q, m);
      assert Ancestor(h, q, m + 1) == Some(p);
      if Above(g, p, b) {
        var j: nat :| Ancestor(g, p, j) == Some(b);
        WalksCompose(h, q, m + 1, j);
        assert Ancestor(h, q, m + 1 + j) == Some(b);
      }
      if Above(h, q, b) {
        var k: nat :| Ancestor(h, q, k) == Some(b);
        if k <= m {
          SameWalk(g, h, a, q, k);
          assert false;
        } else {
          WalksCompose(h, q, m + 1, k - (m + 1));
          assert Ancestor(g, p, k - (m + 1)) == Some(b);
        }
      }
    }
  }

  /** The check and the write are two statements, so two updates may both check before either writes. Of two that are
      harmless each on its own, both together close a cycle exactly when each of the two roles is somewhere above the
      other's new parent. (Of two updates of the same role only the later remains.) */
  lemma OverlappingUpdatesCycle(g: Graph, a: RoleId, p: RoleId, b: RoleId, q: RoleId, name: string, other: string)
    requires Acyclic(g) && a in g && b in g && a != b
    requires Acyclic(SetParent(g, a, name, Some(p))) && Acyclic(SetParent(g, b, other, Some(q)))
    ensures !Acyclic(SetParent(SetParent(g, a, name, Some(p)), b, other, Some(q))) <==> Above(g, p, b) && Above(g, q, a)
  {
    CycleIffReached(g, a, name, p);
    CycleIffReached(g, b, other, q);
    CycleIffReached(SetParent(g, a, name, Some(p)), b, other, q);
    AboveAfterMove(g, a, p, name, q, b);
  }

  /** And it does happen: move each of two parentless roles under the other at the same time. Both checks pass, each
      move alone is harmless, both together are a cycle. */
  lemma OverlappingUpdatesOccur(g: Graph, a: RoleId, b: RoleId, name: string, other: string)
    requires Acyclic(g) && a in g && b in g && a != b && g[a].parent.None? && g[b].parent.None?
    ensures !SeenWithinDepth(g, a, b) && !SeenWithinDepth(g, b, a)
    ensures Acyclic(SetParent(g, a, name, Some(b))) && Acyclic(SetParent(g, b, other, Some(a)))
    ensures !Acyclic(SetParent(SetParent(g, a, name, Some(b)), b, other, Some(a)))
  {
    OnlyItself(g, a, b);
    OnlyItself(g, b, a);
    CycleIffReached(g, a, name, b);
    CycleIffReached(g, b, other, a);
    OverlappingUpdatesCycle(g, a, b, b, a, name, other);
    assert Ancestor(g, a, 0) == Some(a) && Ancestor(g, b, 0) == Some(b);
  }

  /** Nothing but the role itself is above a role without a parent. */
  lemma OnlyItself(g: Graph, r: RoleId, a: RoleId)
    requires Parent(g, r).None? && r != a
    ensures !Above(g, r, a)
  {
    assert Ancestor(g, r, 1).None? by { assert Ancestor(g, r, 0) == Some(r); }
    EndsAt(g, r, 1);
  }

  /** n roles in one line, each under the one before: what n calls of CreateRole can build. */
  function Line(n: nat): Graph {
    if n == 0 then map[]
    else Line(n - 1)[n - 1 := Role(seq(n, _ => 'r'), "role", if n == 1 then None else Some(n - 2))]
  }

  lemma {:induction false} LineRoles(n: nat, r: RoleId)
    ensures r in Line(n) <==> r < n
    ensures r < n ==> Line(n)[r] == Role(seq(r + 1, _ => 'r'), "role", if r == 0 then None else Some(r - 1))
  {
    if n > 0 {
      LineRoles(n - 1, r);
    }
  }

  lemma {:induction false} LineWalk(n: nat, r: RoleId, i: nat)
    requires r < n
    ensures Ancestor(Line(n), r, i) == if i <= r then Some(r - i) else None
  {
    if i > 0 {
      LineWalk(n, r, i - 1);
      if i <= r + 1 { LineRoles(n, r - (i - 1)); }
    }
  }

  lemma LineIsAcyclic(n: nat)
    ensures Acyclic(Line(n))
  {
    forall r: RoleId, i: nat | 0 < i ensures Ancestor(Line(n), r, i) != Some(r) {
      if r < n {
        LineWalk(n, r, i);
      } else {
        LineRoles(n, r);
        assert Ancestor(Line(n), r, 1).None? by { assert Ancestor(Line(n), r, 0) == Some(r); }
        EndsAt(Line(n), r, 1);
      }
    }
  }

  /** CreateRole does not limit the depth, so 65 roles in a line can be built, and then moving the first one under the
      last one passes the check and closes a cycle. */
  lemma DeepLineHidesACycle(n: nat)
    requires n > MAX_DEPTH
    ensures Acyclic(Line(n)) && !SeenWithinDepth(Line(n), 0, n - 1)
    ensures !Acyclic(SetParent(Line(n), 0, "role", Some(n - 1)))
  {
    LineIsAcyclic(n);
    if SeenWithinDepth(Line(n), 0, n - 1) {
      var i :| 0 <= i < MAX_DEPTH && Ancestor(Line(n), n - 1, i) == Some(0);
      LineWalk(n, n - 1, i);
      assert false;
    }
    LineWalk(n, n - 1, n - 1);
    LineRoles(n, 0);
    ReachedMeansCycle(Line(n), 0, "role", n - 1, n - 1);
  }
}
