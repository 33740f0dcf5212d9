/** Forwarding a client message or connection event to a server stream (internal/im/hub/deliver.go): each node tries
    its own streams, otherwise walks the candidate list with a uint16 cursor, one codec pass per hop. */
module Deliver {
  import opened Wrappers
  import opened Varint
  import opened Envelope

  type Node = Bytes

  /** The outcome of one Publish: an error (nothing was delivered) or the number of subscribers that received it. */
  datatype Reply = Failed | Count(receivers: nat)

  /** What a server stream is sent; an event carries the fields parsed from its payload. */
  datatype Response =
    | Inbound(subject: Bytes, connId: Bytes, payload: Bytes)
    | Event(subject: Bytes, connId: Bytes, body: Bytes)

  datatype Send = Send(node: Node, stream: int, response: Response)

  datatype Hop = Hop(target: Node, env: Envelope)

  /** The fixed environment of one message: each node's server streams for the app, how each node answers a publish,
      the subject's hash, the streams whose Send fails, and whether the payload parses as an event body. */
  datatype World = World(
    streams: map<Node, seq<int>>, replies: map<Node, Reply>, hash: nat, broken: set<int>, parses: bool)
  {
    predicate Serves(n: Node) {
      n in streams && streams[n] != []
    }

    function Answer(n: Node): Reply {
      if n in replies then replies[n] else Count(0)
    }

    predicate Subscribed(n: Node) {
      Answer(n).Count? && Answer(n).receivers > 0
    }

    /** localStream: the same subject always picks the same stream. */
    function Pick(n: Node): int
      requires Serves(n)
    {
      streams[n][hash % |streams[n]|]
    }

    /** toResponse: nothing for an event whose payload does not parse. */
    function ToResponse(env: Envelope): Option<Response> {
      if env.typ == TYPE_EVT then
        if parses then Some(Event(env.subject, env.connId, env.payload)) else None
      else
        Some(Inbound(env.subject, env.connId, env.payload))
    }
  }

  // ----- One node: specification of Deliver -----

  /** What one call does: its result, the stream writes, the publishes in order, the one that was received, and the
      nodes dropped from the local snapshot. */
  datatype Outcome = Outcome(
    ok: bool, sends: seq<Send>, published: seq<Hop>, forward: Option<Hop>, dropped: set<Node>)

  /** The cursor written before publishing to position `i`: a uint16. */
  function NextCursor(i: nat): nat {
    (i + 1) % UINT16_LIMIT
  }

  function Walk(w: World, env: Envelope, i: nat): Outcome
    requires env.route.Nodes?
    decreases |env.route.names| - i
  {
    if i >= |env.route.names| then Outcome(false, [], [], None, {})
    else
      var hop := Hop(env.route.names[i], env.(hop := NextCursor(i)));
      match w.Answer(hop.target)
      case Failed =>
        var o := Walk(w, env, i + 1);
        o.(published := [hop] + o.published)
      case Count(0) =>
        var o := Walk(w, env, i + 1);
        o.(published := [hop] + o.published, dropped := {hop.target} + o.dropped)
      case Count(_) =>
        Outcome(true, [], [hop], Some(hop), {})
  }

  function Routed(env: Envelope, ranked: seq<Node>): (e: Envelope)
    ensures e.route.Nodes?
  {
    if env.route.Unset? then env.(route := Nodes(ranked), hop := 0) else env
  }

  function Delivered(w: World, node: Node, env: Envelope, ranked: seq<Node>): Outcome {
    if w.Serves(node) then
      match w.ToResponse(env)
      case None => Outcome(false, [], [], None, {})
      case Some(r) => Outcome(w.Pick(node) !in w.broken, [Send(node, w.Pick(node), r)], [], None, {})
    else
      Walk(w, Routed(env, ranked), Routed(env, ranked).hop)
  }

  // ----- One node: the code -----

  /** Everything a node's Deliver reaches outside itself. */
  class Outside {
    const world: World
    var sends: seq<Send>
    var published: seq<Hop>

    constructor (w: World)
      ensures world == w && sends == [] && published == []
    {
      world := w;
      sends, published := [], [];
    }

    method Publish(target: Node, env: Envelope) returns (r: Reply)
      modifies this`published
      ensures r == world.Answer(target)
      ensures published == old(published) + [Hop(target, env)]
    {
      published := published + [Hop(target, env)];
      r := world.Answer(target);
    }

    method SendTo(node: Node, stream: int, response: Response) returns (failed: bool)
      modifies this`sends
      ensures failed <==> stream in world.broken
      ensures sends == old(sends) + [Send(node, stream, response)]
    {
      sends := sends + [Send(node, stream, response)];
      failed := stream in world.broken;
    }
  }

  function Without(nodes: seq<Node>, n: Node): seq<Node> {
    if nodes == [] then []
    else if nodes[0] == n then Without(nodes[1..], n)
    else [nodes[0]] + Without(nodes[1..], n)
  }

  class Hub {
    const nodeId: Node
    const outside: Outside
    /** Rendezvous order of a candidate list for this subject. */
    const rank: seq<Node> -> seq<Node>
    /** The local liveness snapshot: nodes believed to serve the app. */
    var serverNodes: seq<Node>

    constructor (id: Node, o: Outside, r: seq<Node> -> seq<Node>, nodes: seq<Node>)
      ensures nodeId == id && outside == o && rank == r && serverNodes == nodes
    {
      nodeId, outside, rank, serverNodes := id, o, r, nodes;
    }

    method Deliver(message: Envelope) returns (ok: bool)
      modifies this, outside
      ensures var o := Delivered(outside.world, nodeId, message, rank(Without(old(serverNodes), nodeId)));
              && ok == o.ok
              && outside.sends == old(outside.sends) + o.sends
              && outside.published == old(outside.published) + o.published
              && (forall n :: n in serverNodes <==> n in old(serverNodes) && n !in o.dropped)
    {
      var w := outside.world;
      if w.Serves(nodeId) {
        var response := w.ToResponse(message);
        if response.None? {
          return false;
        }
        var failed := outside.SendTo(nodeId, w.Pick(nodeId), response.value);
        return !failed;
      }
      var env := message;
      if env.route.Unset? {
        var candidates := Candidates();
        env := env.(route := Nodes(rank(candidates)), hop := 0);
      }
      ok := TryCandidates(env);
      assert outside.sends == old(outside.sends) + [];
    }

    /** The cursor loop. */
    method TryCandidates(message: Envelope) returns (ok: bool)
      requires message.route.Nodes?
      modifies this`serverNodes, outside`published
      ensures var o := Walk(outside.world, message, message.hop);
              && ok == o.ok
              && o.sends == []
              && outside.published == old(outside.published) + o.published
              && (forall n :: n in serverNodes <==> n in old(serverNodes) && n !in o.dropped)
    {
      var w := outside.world;
      var env, names := message, message.route.names;
      ghost var done: seq<Hop>, dropped: set<Node> := [], {};
      var i := env.hop;
      AfterNothing(Walk(w, env, i));
      while i < |names|
        invariant env == message.(hop := env.hop)
        invariant outside.published == old(outside.published) + done
        invariant forall n :: n in serverNodes <==> n in old(serverNodes) && n !in dropped
        invariant After(done, dropped, Walk(w, message, i)) == Walk(w, message, message.hop)
        decreases |names| - i
      {
        var target := names[i];
        env := env.(hop := (i + 1) % 0x1_0000);
        AfterStep(w, message, i, done, dropped);
        var r := outside.Publish(target, env);
        done := done + [Hop(target, env)];
        if r.Count? && r.receivers > 0 {
          return true;
        }
        if r == Count(0) {
          DropLocal(target);
          dropped := dropped + {target};
        }
        i := i + 1;
      }
      assert done + [] == done && dropped + {} == dropped;
      return false;
    }

    method Candidates() returns (candidates: seq<Node>)
      ensures candidates == Without(serverNodes, nodeId)
    {
      candidates := [];
      for i := 0 to |serverNodes|
        invariant candidates + Without(serverNodes[i..], nodeId) == Without(serverNodes, nodeId)
      {
        assert serverNodes[i..][0] == serverNodes[i] && serverNodes[i..][1..] == serverNodes[i + 1..];
        if serverNodes[i] != nodeId {
          assert candidates + ([serverNodes[i]] + Without(serverNodes[i + 1..], nodeId))
              == candidates + [serverNodes[i]] + Without(serverNodes[i + 1..], nodeId);
          candidates := candidates + [serverNodes[i]];
        }
      }
    }

    method DropLocal(n: Node)
      modifies this`serverNodes
      ensures forall x :: x in serverNodes <==> x in old(serverNodes) && x != n
    {
      var kept := [];
      for i := 0 to |serverNodes|
        invariant serverNodes == old(serverNodes)
        invariant forall x :: x in kept <==> x in serverNodes[..i] && x != n
      {
        if serverNodes[i] != n {
          kept := kept + [serverNodes[i]];
        }
      }
      assert serverNodes[..|serverNodes|] == serverNodes;
      serverNodes := kept;
    }
  }

  /** What the walk amounts to once it has already published `done` and dropped `dropped`. */
  ghost function After(done: seq<Hop>, dropped: set<Node>, rest: Outcome): Outcome {
    rest.(published := done + rest.published, dropped := dropped + rest.dropped)
  }

  lemma AfterNothing(rest: Outcome)
    ensures After([], {}, rest) == rest
  {
    assert [] + rest.published == rest.published && {} + rest.dropped == rest.dropped;
  }

  lemma AfterStep(w: World, env: Envelope, i: nat, done: seq<Hop>, dropped: set<Node>)
    requires env.route.Nodes? && i < |env.route.names|
    ensures var hop := Hop(env.route.names[i], env.(hop := NextCursor(i)));
            var rest := Walk(w, env, i + 1);
            After(done, dropped, Walk(w, env, i)) ==
              match w.Answer(hop.target)
              case Failed => After(done + [hop], dropped, rest)
              case Count(0) => After(done + [hop], dropped + {hop.target}, rest)
              case Count(_) => Outcome(true, [], done + [hop], Some(hop), dropped)
  {
    var hop := Hop(env.route.names[i], env.(hop := NextCursor(i)));
    var rest := Walk(w, env, i + 1);
    assert done + ([hop] + rest.published) == (done + [hop]) + rest.published;
    assert dropped + ({hop.target} + rest.dropped) == (dropped + {hop.target}) + rest.dropped;
    assert dropped + {} == dropped;
  }

  // ----- The whole chain of hops -----

  /** Stream writes and publishes of a whole chain, and how many nodes computed a route. */
  datatype Trace = Trace(sends: seq<Send>, published: seq<Hop>, ranked: nat)

  lemma {:induction false} WalkForwards(w: World, env: Envelope, i: nat)
    requires env.route.Nodes? && |env.route.names| < UINT16_LIMIT
    ensures var o := Walk(w, env, i);
            o.forward.Some? ==>
              && env.route.names != []
              && o.forward.value.env == env.(hop := o.forward.value.env.hop)
              && i < o.forward.value.env.hop <= |env.route.names|
    decreases |env.route.names| - i
  {
    if i < |env.route.names| {
      WalkForwards(w, env, i + 1);
    }
  }

  /** An envelope that may travel: its cursor is in range and its encoding fits a slice. */
  predicate Travels(env: Envelope) {
    && env.route.Nodes? && env.hop <= |env.route.names| < UINT16_LIMIT
    && |Encoded(env)| <= MAX_LEN
  }

  lemma HopKeepsTravelling(env: Envelope, hop: nat)
    requires Travels(env) && hop <= |env.route.names|
    ensures Travels(env.(hop := hop))
  {
    var other := env.(hop := hop);
    assert Texts(other) == Texts(env) && other.Names() == env.Names();
  }

  /** What follows when `node` receives these bytes: decode, dispatch on the type, deliver, and so on at the next
      node. */
  function Arrives(w: World, node: Node, b: Bytes, env: Envelope): Trace
    requires Travels(env) && Decoded(b) == Some(env)
    decreases |env.route.names| - env.hop, 1
  {
    if env.typ == TYPE_UP || env.typ == TYPE_EVT then Chain(w, node, env, []) else Trace([], [], 0)
  }

  function Chain(w: World, node: Node, env: Envelope, ranked: seq<Node>): Trace
    requires Travels(Routed(env, ranked))
    decreases |Routed(env, ranked).route.names| - Routed(env, ranked).hop, 0
  {
    var o := Delivered(w, node, env, ranked);
    var computed := if env.route.Unset? && !w.Serves(node) then 1 else 0;
    if o.forward.None? then Trace(o.sends, o.published, computed)
    else
      var next := o.forward.value;
      ForwardedTravels(w, node, env, ranked);
      RoundTripExact(next.env);
      var t := Arrives(w, next.target, Encoded(next.env), next.env);
      Trace(o.sends + t.sends, o.published + t.published, computed + t.ranked)
  }

  lemma ForwardedTravels(w: World, node: Node, env: Envelope, ranked: seq<Node>)
    requires Travels(Routed(env, ranked)) && Delivered(w, node, env, ranked).forward.Some?
    ensures var e, next := Routed(env, ranked), Delivered(w, node, env, ranked).forward.value.env;
            && Travels(next) && next.Normal() == next
            && next.route == e.route && e.hop < next.hop
  {
    var e := Routed(env, ranked);
    WalkForwards(w, e, e.hop);
    HopKeepsTravelling(e, Walk(w, e, e.hop).forward.value.env.hop);
  }

  // ----- Refinement: the chain is "first match in the route" -----

  /** The first position from `i` on whose node is subscribed and has a stream; |names| if there is none. */
  function FirstMatch(w: World, names: seq<Node>, i: nat): (m: nat)
    requires i <= |names|
    ensures i <= m <= |names|
    ensures m < |names| ==> w.Subscribed(names[m]) && w.Serves(names[m])
    ensures forall j :: i <= j < m ==> !(w.Subscribed(names[j]) && w.Serves(names[j]))
    decreases |names| - i
  {
    if i == |names| || (w.Subscribed(names[i]) && w.Serves(names[i])) then i
    else FirstMatch(w, names, i + 1)
  }

  /** The publishes that reach positions `i` up to `j`, each carrying the cursor of the position after it. */
  function Hops(env: Envelope, i: nat, j: nat): (h: seq<Hop>)
    requires env.route.Nodes? && i <= j <= |env.route.names|
    ensures |h| == j - i
  {
    seq(j - i, k requires 0 <= k < j - i => Hop(env.route.names[i + k], env.(hop := i + k + 1)))
  }

  function StreamWrites(w: World, node: Node, env: Envelope): seq<Send>
    requires w.Serves(node)
  {
    match w.ToResponse(env)
    case None => []
    case Some(r) => [Send(node, w.Pick(node), r)]
  }

  function Expected(w: World, env: Envelope): Trace
    requires env.route.Nodes? && env.hop <= |env.route.names|
  {
    var names, m := env.route.names, FirstMatch(w, env.route.names, env.hop);
    if m < |names| then Trace(StreamWrites(w, names[m], env), Hops(env, env.hop, m + 1), 0)
    else Trace([], Hops(env, env.hop, |names|), 0)
  }

  lemma HopsStep(env: Envelope, i: nat, j: nat)
    requires env.route.Nodes? && i < j <= |env.route.names| < UINT16_LIMIT
    ensures [Hop(env.route.names[i], env.(hop := i + 1))] + Hops(env, i + 1, j) == Hops(env, i, j)
  {
  }

  /** A single walk publishes to every position up to the first subscribed one, and forwards there. */
  lemma {:induction false} WalkIsPrefix(w: World, env: Envelope, i: nat)
    requires env.route.Nodes? && i <= |env.route.names| < UINT16_LIMIT
    ensures var o := Walk(w, env, i); var names := env.route.names;
            && o.sends == [] && o.ok == o.forward.Some?
            && (o.forward.None? ==> o.published == Hops(env, i, |names|)
                                    && forall j :: i <= j < |names| ==> !w.Subscribed(names[j]))
            && (o.forward.Some? ==> var k := o.forward.value.env.hop;
                  && i < k <= |names| && w.Subscribed(names[k - 1])
                  && o.forward.value == Hop(names[k - 1], env.(hop := k))
                  && (forall j :: i <= j < k - 1 ==> !w.Subscribed(names[j]))
                  && o.published == Hops(env, i, k))
    decreases |env.route.names| - i
  {
    if i < |env.route.names| {
      WalkIsPrefix(w, env, i + 1);
      var o := Walk(w, env, i + 1);
      HopsStep(env, i, if o.forward.Some? then o.forward.value.env.hop else |env.route.names|);
    }
  }

  lemma FirstMatchSkips(w: World, names: seq<Node>, i: nat, k: nat)
    requires i <= k <= |names|
    requires forall j :: i <= j < k ==> !(w.Subscribed(names[j]) && w.Serves(names[j]))
    ensures FirstMatch(w, names, i) == FirstMatch(w, names, k)
    decreases k - i
  {
    if i < k { FirstMatchSkips(w, names, i + 1, k); }
  }

  lemma HopsJoin(a: Envelope, b: Envelope, i: nat, k: nat, j: nat)
    requires a.route.Nodes? && a.(hop := 0) == b.(hop := 0) && i <= k <= j <= |a.route.names|
    ensures Hops(a, i, k) + Hops(b, k, j) == Hops(a, i, j)
  {
  }

  /** Splitting the expected trace at the first subscribed position after the cursor. */
  lemma ExpectedSplits(w: World, env: Envelope, k: nat)
    requires Travels(env) && env.hop < k <= |env.route.names|
    requires forall j :: env.hop <= j < k - 1 ==> !w.Subscribed(env.route.names[j])
    requires w.Subscribed(env.route.names[k - 1])
    ensures Travels(env.(hop := k))
    ensures var last, rest := env.route.names[k - 1], Expected(w, env.(hop := k));
            Expected(w, env) ==
              if w.Serves(last) then Trace(StreamWrites(w, last, env), Hops(env, env.hop, k), 0)
              else Trace(rest.sends, Hops(env, env.hop, k) + rest.published, 0)
  {
    var names := env.route.names;
    HopKeepsTravelling(env, k);
    FirstMatchSkips(w, names, env.hop, k - 1);
    if !w.Serves(names[k - 1]) {
      FirstMatchSkips(w, names, k - 1, k);
      var m := FirstMatch(w, names, k);
      HopsJoin(env, env.(hop := k), env.hop, k, if m < |names| then m + 1 else |names|);
    }
  }

  lemma ChainUnfolds(w: World, node: Node, env: Envelope)
    requires Travels(env) && !w.Serves(node) && (env.typ == TYPE_UP || env.typ == TYPE_EVT)
    requires Walk(w, env, env.hop).forward.Some?
    ensures var o := Walk(w, env, env.hop); var next := o.forward.value;
            && Travels(next.env) && next.env.hop > env.hop && next.env.route == env.route && next.env.typ == env.typ
            && var t := Chain(w, next.target, next.env, []);
               Chain(w, node, env, []) == Trace(o.sends + t.sends, o.published + t.published, t.ranked)
  {
    var next := Walk(w, env, env.hop).forward.value;
    WalkForwards(w, env, env.hop);
    ForwardedTravels(w, node, env, []);
    RoundTripExact(next.env);
  }

  /** A node without streams that holds the envelope starts a chain that ends at the first match of the rest of the
      route: every position up to it is published to exactly once, in order. */
  lemma {:induction false} ChainIsFirstMatch(w: World, node: Node, env: Envelope)
    requires Travels(env) && !w.Serves(node) && (env.typ == TYPE_UP || env.typ == TYPE_EVT)
    ensures Chain(w, node, env, []) == Expected(w, env)
    decreases |env.route.names| - env.hop
  {
    var names := env.route.names;
    var o := Walk(w, env, env.hop);
    WalkIsPrefix(w, env, env.hop);
    if o.forward.None? {
      FirstMatchSkips(w, names, env.hop, |names|);
    } else {
      var next := o.forward.value;
      ChainUnfolds(w, node, env);
      ExpectedSplits(w, env, next.env.hop);
      if w.Serves(next.target) {
        assert o.published + [] == o.published;
      } else {
        ChainIsFirstMatch(w, next.target, next.env);
      }
    }
  }

  predicate Distinct(names: seq<Node>) {
    forall i, j :: 0 <= i < j < |names| ==> names[i] != names[j]
  }

  /** Publishes along distinct names never reach a node twice, their cursors rise, and all carry the same route. */
  lemma HopsDistinct(env: Envelope, n: nat, origin: Node)
    requires env.route.Nodes? && n <= |env.route.names| && Distinct(env.route.names) && origin !in env.route.names
    ensures forall i, j :: 0 <= i < j < n ==> Hops(env, 0, n)[i].target != Hops(env, 0, n)[j].target
    ensures forall i, j :: 0 <= i < j < n ==> Hops(env, 0, n)[i].env.hop < Hops(env, 0, n)[j].env.hop
    ensures forall h :: h in Hops(env, 0, n) ==> h.target != origin && h.env.route == env.route
  {
  }

  /** The whole journey of a fresh message (Route nil): the origin's own stream if it has one, otherwise the first
      subscribed node of the ranked list that has one, otherwise nowhere. At most one stream write is attempted, the
      publishes are the ranked list up to that node in order (so no node twice, and never the origin), their cursors
      rise by one, and only the origin ranks. */
  lemma DeliveredAtMostOnce(w: World, origin: Node, env: Envelope, ranked: seq<Node>)
    requires env.route.Unset? && (env.typ == TYPE_UP || env.typ == TYPE_EVT)
    requires Travels(Routed(env, ranked)) && Distinct(ranked) && origin !in ranked
    ensures var t := Chain(w, origin, env, ranked);
            && |t.sends| <= 1
            && t == (if w.Serves(origin) then Trace(StreamWrites(w, origin, env), [], 0)
                     else Expected(w, Routed(env, ranked)).(ranked := 1))
    ensures var p := Chain(w, origin, env, ranked).published;
            && (forall i, j :: 0 <= i < j < |p| ==> p[i].target != p[j].target)
            && (forall i, j :: 0 <= i < j < |p| ==> p[i].env.hop < p[j].env.hop)
            && (forall h :: h in p ==> h.target != origin && h.env.route == Nodes(ranked))
  {
    if w.Serves(origin) {
      OwnStream(w, origin, env, ranked);
    } else {
      RoutedChain(w, origin, env, ranked);
      var m := FirstMatch(w, ranked, 0);
      HopsDistinct(Routed(env, ranked), if m < |ranked| then m + 1 else m, origin);
    }
  }

  lemma OwnStream(w: World, origin: Node, env: Envelope, ranked: seq<Node>)
    requires Travels(Routed(env, ranked)) && w.Serves(origin)
    ensures Chain(w, origin, env, ranked) == Trace(StreamWrites(w, origin, env), [], 0)
  {
  }

  lemma RoutedChain(w: World, origin: Node, env: Envelope, ranked: seq<Node>)
    requires env.route.Unset? && (env.typ == TYPE_UP || env.typ == TYPE_EVT)
    requires Travels(Routed(env, ranked)) && !w.Serves(origin)
    ensures Chain(w, origin, env, ranked) == Expected(w, Routed(env, ranked)).(ranked := 1)
  {
    var e := Routed(env, ranked);
    ChainIsFirstMatch(w, origin, e);
    assert Delivered(w, origin, env, ranked) == Delivered(w, origin, e, []);
  }

  lemma {:induction false} DistinctCounts(s: seq<Node>)
    requires Distinct(s)
    ensures forall n :: multiset(s)[n] <= 1
  {
    if s == [] {
    } else {
      DistinctCounts(s[1..]);
      assert s == [s[0]] + s[1..];
    }
  }

  lemma {:induction false} WithoutKeeps(nodes: seq<Node>, n: Node)
    requires Distinct(nodes)
    ensures n !in Without(nodes, n) && forall x :: x in Without(nodes, n) ==> x in nodes
    ensures Distinct(Without(nodes, n))
  {
    if nodes == [] {
    } else {
      WithoutKeeps(nodes[1..], n);
      var rest := Without(nodes[1..], n);
      assert nodes[0] !in nodes[1..];
      assert nodes[0] !in rest;
    }
  }

  /** Any ranking of a snapshot of distinct nodes, minus the node itself, is a route as DeliveredAtMostOnce wants it. */
  lemma RankedCandidates(nodes: seq<Node>, self: Node, ranked: seq<Node>)
    requires Distinct(nodes) && multiset(ranked) == multiset(Without(nodes, self))
    ensures Distinct(ranked) && self !in ranked
  {
    var kept := Without(nodes, self);
    WithoutKeeps(nodes, self);
    DistinctCounts(kept);
    assert self !in multiset(kept);
    forall i, j | 0 <= i < j < |ranked| ensures ranked[i] != ranked[j] {
      var before, after := ranked[..j], ranked[j..];
      assert ranked == before + after && before[i] == ranked[i] && after[0] == ranked[j];
      assert multiset(ranked) == multiset(before) + multiset(after);
      assert multiset(kept)[ranked[i]] <= 1;
    }
  }

  /** The origin reports success exactly when its own stream took the message, or some candidate was subscribed. */
  lemma ReportedSuccess(w: World, origin: Node, env: Envelope, ranked: seq<Node>)
    requires env.route.Unset? && |ranked| < UINT16_LIMIT
    ensures Delivered(w, origin, env, ranked).ok <==>
            if w.Serves(origin) then w.ToResponse(env).Some? && w.Pick(origin) !in w.broken
            else exists i :: 0 <= i < |ranked| && w.Subscribed(ranked[i])
  {
    WalkIsPrefix(w, Routed(env, ranked), 0);
  }

  // ----- The bound on the route is real -----

  /** The cursor names the next position for every candidate exactly when there are at most 65535 of them. */
  lemma CursorExact(n: nat)
    ensures (forall i :: 0 <= i < n ==> NextCursor(i) == i + 1) <==> n < UINT16_LIMIT
  {
    if n >= UINT16_LIMIT {
      assert NextCursor(UINT16_LIMIT - 1) == 0;
    }
  }

  /** With 65536 candidates or more, of which among the first 65536 only the last is subscribed, and that one has no
      stream, the cursor wraps to 0: that node publishes to itself the very envelope it received, after publishing to
      all the others again. */
  lemma WrappedCursorLoops(w: World, env: Envelope)
    requires env.route.Nodes? && |env.route.names| >= UINT16_LIMIT && env.hop == 0
    requires w.Subscribed(env.route.names[UINT16_LIMIT - 1]) && !w.Serves(env.route.names[UINT16_LIMIT - 1])
    requires forall i :: 0 <= i < UINT16_LIMIT - 1 ==> !w.Subscribed(env.route.names[i])
    ensures var last := env.route.names[UINT16_LIMIT - 1];
            var o := Delivered(w, last, env, []);
            o.forward == Some(Hop(last, env)) && |o.published| == UINT16_LIMIT
  {
    WalkToTheEnd(w, env, 0);
  }

  lemma {:induction false} WalkToTheEnd(w: World, env: Envelope, i: nat)
    requires env.route.Nodes? && |env.route.names| >= UINT16_LIMIT && i < UINT16_LIMIT
    requires w.Subscribed(env.route.names[UINT16_LIMIT - 1])
    requires forall j :: i <= j < UINT16_LIMIT - 1 ==> !w.Subscribed(env.route.names[j])
    ensures var o := Walk(w, env, i);
            && o.forward == Some(Hop(env.route.names[UINT16_LIMIT - 1], env.(hop := 0)))
            && |o.published| == UINT16_LIMIT - i
    decreases UINT16_LIMIT - i
  {
    if i < UINT16_LIMIT - 1 {
      WalkToTheEnd(w, env, i + 1);
    }
  }

  /** An envelope with a route of any length that the codec can carry. */
  predicate Fits(env: Envelope) {
    env.route.Nodes? && env.Representable() && |Encoded(env)| <= MAX_LEN
  }

  lemma {:induction false} WalkHandsOn(w: World, env: Envelope, i: nat)
    requires env.route.Nodes?
    ensures var o := Walk(w, env, i);
            o.forward.Some? ==>
              && env.route.names != [] && o.forward.value.env.hop < UINT16_LIMIT
              && o.forward.value.env == env.(hop := o.forward.value.env.hop)
    decreases |env.route.names| - i
  {
    if i < |env.route.names| {
      WalkHandsOn(w, env, i + 1);
    }
  }

  /** What a node hands on comes out of the codec as it went in, whatever the length of the route. */
  lemma HandedOnFits(w: World, node: Node, env: Envelope)
    requires Fits(env) && Delivered(w, node, env, []).forward.Some?
    ensures var next := Delivered(w, node, env, []).forward.value.env;
            Fits(next) && Decoded(Encoded(next)) == Some(next) && next.typ == env.typ && next.route == env.route
  {
    WalkHandsOn(w, env, env.hop);
    var next := Delivered(w, node, env, []).forward.value.env;
    assert Texts(next) == Texts(env) && next.Names() == env.Names();
    RoundTripExact(next);
  }

  /** The chain of hops over any route, cut off after `fuel` nodes: None if it is not over by then. By HandedOnFits the
      next node decodes exactly the envelope handed on. */
  function Followed(w: World, node: Node, env: Envelope, fuel: nat): Option<Trace>
    requires Fits(env) && (env.typ == TYPE_UP || env.typ == TYPE_EVT)
    decreases fuel
  {
    if fuel == 0 then None
    else
      var o := Delivered(w, node, env, []);
      if o.forward.None? then Some(Trace(o.sends, o.published, 0))
      else
        HandedOnFits(w, node, env);
        var rest := Followed(w, o.forward.value.target, o.forward.value.env, fuel - 1);
        if rest.None? then None
        else Some(Trace(o.sends + rest.value.sends, o.published + rest.value.published, rest.value.ranked))
  }

  lemma FollowedUnfolds(w: World, node: Node, env: Envelope, fuel: nat)
    requires Fits(env) && (env.typ == TYPE_UP || env.typ == TYPE_EVT) && fuel > 0
    requires Delivered(w, node, env, []).forward.Some?
    ensures var o := Delivered(w, node, env, []);
            var next := o.forward.value;
            && Fits(next.env) && next.env.typ == env.typ
            && var rest := Followed(w, next.target, next.env, fuel - 1);
               Followed(w, node, env, fuel) ==
                 if rest.None? then None
                 else Some(Trace(o.sends + rest.value.sends, o.published + rest.value.published, rest.value.ranked))
  {
    HandedOnFits(w, node, env);
  }

  lemma {:induction false} FollowedIsChain(w: World, node: Node, env: Envelope, fuel: nat)
    requires Travels(env) && !w.Serves(node) && (env.typ == TYPE_UP || env.typ == TYPE_EVT)
    requires fuel > |env.route.names| - env.hop + 1
    ensures Followed(w, node, env, fuel) == Some(Chain(w, node, env, []))
    decreases fuel
  {
    var o := Delivered(w, node, env, []);
    if o.forward.Some? {
      var next := o.forward.value;
      FollowedUnfolds(w, node, env, fuel);
      ChainUnfolds(w, node, env);
      if w.Serves(next.target) {
        OwnStream(w, next.target, next.env, []);
        FollowedEnds(w, next.target, next.env, fuel - 1);
      } else {
        FollowedIsChain(w, next.target, next.env, fuel - 1);
      }
    } else {
      FollowedEnds(w, node, env, fuel);
      ChainEnds(w, node, env);
    }
  }

  lemma FollowedEnds(w: World, node: Node, env: Envelope, fuel: nat)
    requires Fits(env) && (env.typ == TYPE_UP || env.typ == TYPE_EVT) && fuel > 0
    requires Delivered(w, node, env, []).forward.None?
    ensures var o := Delivered(w, node, env, []);
            Followed(w, node, env, fuel) == Some(Trace(o.sends, o.published, 0))
  {
  }

  lemma ChainEnds(w: World, node: Node, env: Envelope)
    requires Travels(env) && Delivered(w, node, env, []).forward.None?
    ensures var o := Delivered(w, node, env, []);
            Chain(w, node, env, []) == Trace(o.sends, o.published, 0)
  {
  }

  /** Only the 65536th name is subscribed, and no node has a stream. */
  function Stuck(names: seq<Node>): World
    requires |names| >= UINT16_LIMIT
  {
    World(map[], map[names[UINT16_LIMIT - 1] := Count(1)], 0, {}, true)
  }

  lemma {:induction false} StuckForever(node: Node, env: Envelope, fuel: nat)
    requires Fits(env) && (env.typ == TYPE_UP || env.typ == TYPE_EVT) && env.hop == 0
    requires |env.route.names| >= UINT16_LIMIT && Distinct(env.route.names)
    ensures Followed(Stuck(env.route.names), node, env, fuel) == None
    decreases fuel
  {
    if fuel > 0 {
      var w, names := Stuck(env.route.names), env.route.names;
      forall i | 0 <= i < UINT16_LIMIT - 1 ensures !w.Subscribed(names[i]) {
        assert names[i] != names[UINT16_LIMIT - 1];
      }
      WalkToTheEnd(w, env, 0);
      FollowedUnfolds(w, node, env, fuel);
      StuckForever(names[UINT16_LIMIT - 1], env, fuel - 1);
    }
  }

  /** The chain ends and is "first match in the route" in every environment. */
  ghost predicate AlwaysFirstMatch(node: Node, env: Envelope)
    requires Fits(env) && (env.typ == TYPE_UP || env.typ == TYPE_EVT) && env.hop == 0
  {
    forall w: World :: !w.Serves(node) ==> exists fuel: nat :: Followed(w, node, env, fuel) == Some(Expected(w, env))
  }

  /** That is so exactly when there are at most 65535 candidates. */
  lemma FirstMatchIffCursorFits(node: Node, env: Envelope)
    requires Fits(env) && (env.typ == TYPE_UP || env.typ == TYPE_EVT) && env.hop == 0 && Distinct(env.route.names)
    ensures AlwaysFirstMatch(node, env) <==> |env.route.names| < UINT16_LIMIT
  {
    if |env.route.names| < UINT16_LIMIT {
      forall w: World | !w.Serves(node)
          ensures exists fuel: nat :: Followed(w, node, env, fuel) == Some(Expected(w, env)) {
        FollowedIsChain(w, node, env, |env.route.names| + 2);
        ChainIsFirstMatch(w, node, env);
      }
    } else {
      var w := Stuck(env.route.names);
      assert !w.Serves(node);
      forall fuel: nat ensures Followed(w, node, env, fuel) == None {
        StuckForever(node, env, fuel);
      }
    }
  }
}
