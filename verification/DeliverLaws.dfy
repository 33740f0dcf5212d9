/** What forwarding does, told from the message, the streams and the publish answers alone. */
module DeliverLaws {
  import opened Wrappers
  import opened Varint
  import opened Envelope
  import opened Deliver

  /** One write of r to a stream of `node`. */
  predicate OneWrite(w: World, node: Node, sends: seq<Send>, r: Response) {
    && |sends| == 1 && sends[0].node == node && sends[0].response == r
    && node in w.streams && sends[0].stream in w.streams[node]
  }

  /** A client message is written as it is, an event if its payload parses. */
  predicate Written(w: World, node: Node, env: Envelope, sends: seq<Send>) {
    && (env.typ == TYPE_UP ==> OneWrite(w, node, sends, Inbound(env.subject, env.connId, env.payload)))
    && (env.typ == TYPE_EVT && w.parses ==> OneWrite(w, node, sends, Event(env.subject, env.connId, env.payload)))
    && (env.typ == TYPE_EVT && !w.parses ==> sends == [])
  }

  /** A node with a stream of its own writes the message there once, publishes nothing, and succeeds exactly if that
      stream takes it. */
  lemma OwnStreamTakesIt(w: World, node: Node, env: Envelope, ranked: seq<Node>)
    requires node in w.streams && w.streams[node] != [] && (env.typ == TYPE_UP || env.typ == TYPE_EVT)
    ensures var o := Delivered(w, node, env, ranked);
            && Written(w, node, env, o.sends)
            && (o.ok <==> o.sends != [] && o.sends[0].stream !in w.broken)
            && o.published == [] && o.forward == None && o.dropped == {}
  {
  }

  lemma Multiples(a: int, b: int, n: nat)
    requires a < b
    ensures a * n + n <= b * n
  {
    assert (b - a - 1) * n >= 0;
    assert b * n == a * n + n + (b - a - 1) * n;
  }

  lemma IndexModulo(i: nat, k: nat, n: nat)
    requires i < n
    ensures (i + k * n) % n == i
  {
    var x := i + k * n;
    assert x == x / n * n + x % n;
    if k < x / n {
      Multiples(k, x / n, n);
    } else if x / n < k {
      Multiples(x / n, k, n);
    }
  }

  /** Which stream: the hash alone decides it, and hash by hash every stream has its turn, in order. */
  lemma StreamsTakeTurns(w: World, node: Node, env: Envelope, ranked: seq<Node>, i: nat, k: nat)
    requires node in w.streams && i < |w.streams[node]| && env.typ == TYPE_UP
    ensures var o := Delivered(w.(hash := i + k * |w.streams[node]|), node, env, ranked);
            |o.sends| == 1 && o.sends[0].stream == w.streams[node][i]
  {
    IndexModulo(i, k, |w.streams[node]|);
  }

  /** Two messages under one hash go to one stream, whatever else differs. */
  lemma SameHashSameStream(w: World, v: World, node: Node, a: Envelope, b: Envelope, ranked: seq<Node>,
                           other: seq<Node>)
    requires node in w.streams && w.streams[node] != [] && node in v.streams && v.streams[node] == w.streams[node]
    requires w.hash == v.hash && a.typ == TYPE_UP && b.typ == TYPE_UP
    ensures var o, p := Delivered(w, node, a, ranked).sends, Delivered(v, node, b, other).sends;
            |o| == 1 && |p| == 1 && o[0].stream == p[0].stream
  {
  }

  // ----- Along the route -----

  /** Some subscriber received the publish. */
  predicate Received(w: World, n: Node) {
    n in w.replies && w.replies[n].Count? && w.replies[n].receivers > 0
  }

  /** The publish went through and nobody received it. */
  predicate Silent(w: World, n: Node) {
    n !in w.replies || w.replies[n] == Count(0)
  }

  /** The cursor loop reaches position j from position i: nobody before it received the publish. */
  ghost predicate Reaches(w: World, names: seq<Node>, i: nat, j: nat) {
    i <= j < |names| && forall k :: i <= k < j ==> !Received(w, names[k])
  }

  /** Dropped from the snapshot are the silent nodes the loop reached; one whose publish failed stays. */
  lemma {:induction false} DroppedExactly(w: World, env: Envelope, i: nat, n: Node)
    requires env.route.Nodes?
    ensures n in Walk(w, env, i).dropped <==>
              exists j: nat :: Reaches(w, env.route.names, i, j) && env.route.names[j] == n && Silent(w, n)
    decreases |env.route.names| - i
  {
    var names := env.route.names;
    if i < |names| {
      DroppedExactly(w, env, i + 1, n);
      if n == names[i] && Silent(w, n) {
        assert Reaches(w, names, i, i);
      }
      if !Received(w, names[i]) {
        forall j | i < j < |names|
          ensures Reaches(w, names, i, j) <==> Reaches(w, names, i + 1, j)
        {
        }
      }
    }
  }

  /** The first position from i on that receives the publish and has a stream is m; |names| if there is none. */
  ghost predicate FirstTaker(w: World, names: seq<Node>, i: nat, m: nat) {
    && i <= m <= |names|
    && (m < |names| ==> Takes(w, names[m]))
    && (forall j :: i <= j < m ==> !Takes(w, names[j]))
  }

  predicate Takes(w: World, n: Node) {
    Received(w, n) && n in w.streams && w.streams[n] != []
  }

  /** The whole journey of a fresh message that the origin cannot write itself, as the program's promise: the first node
      of the ranking that receives and has a stream writes it, in the origin's words, and no other node does; the nodes
      up to it are published to once each, in order, and what they get is the message with the ranking and a cursor to
      the next position. Without such a node every node is published to and nothing is written. */
  lemma JourneyOfAMessage(w: World, origin: Node, env: Envelope, ranked: seq<Node>, m: nat)
    requires env.route.Unset? && (env.typ == TYPE_UP || env.typ == TYPE_EVT)
    requires Travels(Routed(env, ranked)) && (origin in w.streams ==> w.streams[origin] == [])
    requires FirstTaker(w, ranked, 0, m)
    ensures var t := Chain(w, origin, env, ranked);
            && (m < |ranked| ==> Written(w, ranked[m], env, t.sends))
            && (m == |ranked| ==> t.sends == [])
    ensures var t := Chain(w, origin, env, ranked);
            && |t.published| == (if m < |ranked| then m + 1 else m)
            && forall j :: 0 <= j < |t.published| ==>
                 t.published[j] == Hop(ranked[j], env.(route := Nodes(ranked), hop := j + 1))
  {
    var e := Routed(env, ranked);
    RoutedChain(w, origin, env, ranked);
    var f := FirstMatch(w, ranked, 0);
    assert f == m;
  }

  /** The same from any node in the middle of the route, from its cursor on. */
  lemma RestOfTheJourney(w: World, node: Node, env: Envelope, m: nat)
    requires Travels(env) && (env.typ == TYPE_UP || env.typ == TYPE_EVT)
    requires (node in w.streams ==> w.streams[node] == []) && FirstTaker(w, env.route.names, env.hop, m)
    ensures var t, names := Chain(w, node, env, []), env.route.names;
            && (m < |names| ==> Written(w, names[m], env, t.sends))
            && (m == |names| ==> t.sends == [])
  {
    ChainIsFirstMatch(w, node, env);
    var f := FirstMatch(w, env.route.names, env.hop);
    assert f == m;
  }

  /** What the origin's answer is worth: its own stream took the message, or some candidate received it. */
  lemma WhatOkMeans(w: World, origin: Node, env: Envelope, ranked: seq<Node>)
    requires env.route.Unset? && |ranked| < UINT16_LIMIT
    ensures (origin in w.streams ==> w.streams[origin] == []) ==>
              (Delivered(w, origin, env, ranked).ok <==> exists j :: 0 <= j < |ranked| && Received(w, ranked[j]))
  {
    ReportedSuccess(w, origin, env, ranked);
    if j :| 0 <= j < |ranked| && Received(w, ranked[j]) {
      assert w.Subscribed(ranked[j]);
    }
    if i :| 0 <= i < |ranked| && w.Subscribed(ranked[i]) {
      assert Received(w, ranked[i]);
    }
  }

  /** The candidates, piece by piece: the snapshot in order, without the node itself. */
  lemma {:induction false} CandidatesPieceByPiece(a: seq<Node>, b: seq<Node>, self: Node, n: Node)
    ensures Without(a + b, self) == Without(a, self) + Without(b, self)
    ensures Without([n], self) == if n == self then [] else [n]
  {
    if a == [] {
      assert a + b == b;
    } else {
      assert (a + b)[0] == a[0] && (a + b)[1..] == a[1..] + b;
      CandidatesPieceByPiece(a[1..], b, self, n);
    }
  }
}
