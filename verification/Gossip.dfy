/**
 The push flood of signed bundles: a node that stores a bundle posted to it for the first time posts it
 to every peer it knows, except peers whose key is the bundle's author. A bundle that a node pulls from
 a peer is stored, and not passed on.

 No messages are lost: every post is eventually a delivery.
 */
module Gossip {
  import opened Wrappers
  import opened Bundles

  type NodeId = nat

  datatype Msg = Msg(from: NodeId, to: NodeId, e: Envelope)

  /** Who knows whom (banned and unreachable peers left out), and each node's key. */
  datatype Net = Net(nodes: set<NodeId>, peers: map<NodeId, set<NodeId>>, keyOf: NodeId -> string, policy: Policy) {
    ghost predicate Valid() {
      && policy.Valid()
      && peers.Keys == nodes
      && forall u :: u in nodes ==> peers[u] <= nodes
    }
  }

  /** `sent` remembers every post ever made; `injected` every bundle handed in from outside; `pulled` who
      got which bundle by a pull. */
  datatype State = State(
    stores: map<NodeId, Rows>, flight: multiset<Msg>, sent: multiset<Msg>, injected: set<Envelope>,
    pulled: set<(NodeId, Envelope)>)

  /** Who posts what to whom: every known peer is posted to, except those whose key is the author's. */
  predicate Posts(net: Net, m: Msg) {
    m.from in net.peers && m.to in net.peers[m.from] && net.keyOf(m.to) != m.e.body.author
  }

  /** `propagate_bundle`: one post per known peer whose key is not the author's. */
  function Fanout(net: Net, u: NodeId, e: Envelope): (out: set<Msg>)
    requires u in net.peers
    ensures forall m :: m in out <==> m.from == u && m.e == e && Posts(net, m)
  {
    set v | v in net.peers[u] && net.keyOf(v) != e.body.author :: Msg(u, v, e)
  }

  /** The receive step: verify, insert, and propagate only what was new. */
  function Receive(s: State, net: Net, v: NodeId, e: Envelope): State
    requires v in s.stores && v in net.peers
  {
    var rows := Accept(s.stores[v], e, net.policy);
    if rows == s.stores[v] then s
    else
      var out := multiset(Fanout(net, v, e));
      s.(stores := s.stores[v := rows], flight := s.flight + out, sent := s.sent + out)
  }

  /** The puller: verify and insert, and leave passing on to those who are posted to. */
  function Taken(s: State, net: Net, v: NodeId, e: Envelope): State
    requires v in s.stores
  {
    var rows := Accept(s.stores[v], e, net.policy);
    if rows == s.stores[v] then s else s.(stores := s.stores[v := rows], pulled := s.pulled + {(v, e)})
  }

  datatype Step =
    | Inject(v: NodeId, e: Envelope)
    | Deliver(m: Msg)
    | Pull(puller: NodeId, source: NodeId, found: Envelope)

  ghost predicate Enabled(s: State, step: Step, net: Net) {
    match step
    case Inject(v, _) => v in net.nodes
    case Deliver(m) => m in s.flight
    case Pull(v, u, e) => v in net.nodes && u in net.nodes && u in s.stores && e in s.stores[u]
  }

  ghost function Next(s: State, step: Step, net: Net): State
    requires Inv(s, net) && Enabled(s, step, net)
  {
    match step
    case Inject(v, e) => Receive(s.(injected := s.injected + {e}), net, v, e)
    case Deliver(m) => Receive(s.(flight := s.flight - multiset{m}), net, m.to, m.e)
    case Pull(v, _, e) => Taken(s, net, v, e)
  }

  // ---------- Invariants ----------

  ghost predicate WellFormed(s: State, net: Net) {
    && net.Valid() && s.stores.Keys == net.nodes
    && (forall u :: u in net.nodes ==> Vetted(s.stores[u], net.policy))
    && (forall u, e :: u in net.nodes && e in s.stores[u] ==> e in s.injected)
    && (forall u, e :: (u, e) in s.pulled ==> u in net.nodes && e in s.stores[u])
  }

  /** Messages in flight were sent, once each, by a node that stores their bundle. */
  ghost predicate SentOnce(s: State, net: Net) {
    && s.flight <= s.sent
    && forall m :: m in s.sent ==>
         && s.sent[m] == 1
         && Posts(net, m) && m.from in s.stores && m.e in s.stores[m.from]
  }

  /** Across every edge: the receiver is at least as new, or the post is on its way, or the sender got the
      bundle by a pull. */
  ghost predicate EdgesCovered(s: State, net: Net) {
    forall m :: Posts(net, m) && m.from in s.stores && m.to in s.stores && m.e in s.stores[m.from]
      && (m.from, m.e) !in s.pulled
      ==> Height(s.stores[m.to], KeyOf(m.e)) >= m.e.body.version || m in s.flight
  }

  ghost predicate Inv(s: State, net: Net) {
    WellFormed(s, net) && SentOnce(s, net) && EdgesCovered(s, net)
  }

  lemma ReceiveWellFormed(s: State, net: Net, v: NodeId, e: Envelope)
    requires WellFormed(s, net) && v in net.nodes && e in s.injected
    ensures WellFormed(Receive(s, net, v, e), net)
  {
    hide Vetted, Verify;
    AcceptKeepsVetted(s.stores[v], e, net.policy);
  }

  /** What a receive step adds is new to the node, so nothing it now sends was ever sent before. */
  lemma ReceiveSentOnce(s: State, net: Net, v: NodeId, e: Envelope)
    requires WellFormed(s, net) && SentOnce(s, net) && v in net.nodes
    ensures SentOnce(Receive(s, net, v, e), net)
  {
    var after := Receive(s, net, v, e);
    var rows := Accept(s.stores[v], e, net.policy);
    if rows != s.stores[v] {
      var out := Fanout(net, v, e);
      InsertKeepsVetted(s.stores[v], e, net.policy, None);
      assert e !in s.stores[v];
      hide Verify, Vetted, HasCid;
      forall m | m in after.sent
        ensures after.sent[m] == 1 && m.from in after.stores && m.e in after.stores[m.from] && Posts(net, m)
      {
        if m in out {
          assert m.from == v && m.e == e;
          assert m !in s.sent;
        }
      }
    }
  }

  /** As `EdgesCovered`, leaving out the one post of `e` being received at `w`. */
  ghost predicate EdgesCoveredExcept(s: State, net: Net, w: NodeId, d: Envelope) {
    forall m :: Posts(net, m) && m.from in s.stores && m.to in s.stores && m.e in s.stores[m.from]
                && (m.from, m.e) !in s.pulled && !(m.to == w && m.e == d)
      ==> Height(s.stores[m.to], KeyOf(m.e)) >= m.e.body.version || m in s.flight
  }

  lemma ReceiveCoversEdges(s: State, net: Net, v: NodeId, e: Envelope)
    requires WellFormed(s, net) && v in net.nodes
    requires EdgesCoveredExcept(s, net, v, e) && (Fits(e, net.policy) || EdgesCovered(s, net))
    ensures EdgesCovered(Receive(s, net, v, e), net)
  {
    var after := Receive(s, net, v, e);
    AcceptRaises(s.stores[v], e, net.policy);
    hide Height, Verify, Fits, Fanout;
  }

  /** Posts in flight can always be delivered, and what they carry passes the receiver's fixed checks. */
  lemma FlightDeliverable(s: State, net: Net, m: Msg)
    requires WellFormed(s, net) && SentOnce(s, net) && m in s.flight
    ensures m.from in net.nodes && m.to in net.peers[m.from] && m.to in net.nodes && s.flight[m] == 1
    ensures Fits(m.e, net.policy) && m.e in s.injected && net.keyOf(m.to) != m.e.body.author
  {
    hide Fits, Ordered;
    assert m in s.sent;
  }

  lemma HandedIn(s: State, net: Net, e: Envelope)
    requires Inv(s, net)
    ensures Inv(s.(injected := s.injected + {e}), net)
  {
    hide Fits, Vetted, Fanout, Height;
  }

  /** The state while a post is being received: nothing else has changed. */
  lemma TakenUp(s: State, m: Msg, net: Net)
    requires Inv(s, net) && m in s.flight
    ensures var before := s.(flight := s.flight - multiset{m});
            WellFormed(before, net) && SentOnce(before, net) && EdgesCoveredExcept(before, net, m.to, m.e)
  {
    FlightDeliverable(s, net, m);
    hide Fits, Vetted, Fanout, Height;
  }

  lemma PullKeepsInv(s: State, net: Net, v: NodeId, u: NodeId, e: Envelope)
    requires Inv(s, net) && v in net.nodes && u in net.nodes && e in s.stores[u]
    ensures Inv(Taken(s, net, v, e), net)
  {
    AcceptKeepsVetted(s.stores[v], e, net.policy);
    AcceptRaises(s.stores[v], e, net.policy);
    hide Vetted, Verify, Height, Fits;
  }

  lemma StepKeepsInv(s: State, step: Step, net: Net)
    requires Inv(s, net) && Enabled(s, step, net)
    ensures Inv(Next(s, step, net), net)
  {
    hide Receive, Fits, Vetted, Fanout, Height, EdgesCovered, EdgesCoveredExcept, SentOnce;
    match step {
      case Inject(v, e) =>
        HandedIn(s, net, e);
        var before := s.(injected := s.injected + {e});
        assert EdgesCovered(before, net);
        EdgesCoveredAll(before, net, v, e);
        ReceiveWellFormed(before, net, v, e);
        ReceiveSentOnce(before, net, v, e);
        ReceiveCoversEdges(before, net, v, e);
      case Deliver(m) =>
        FlightDeliverable(s, net, m);
        TakenUp(s, m, net);
        var before := s.(flight := s.flight - multiset{m});
        ReceiveWellFormed(before, net, m.to, m.e);
        ReceiveSentOnce(before, net, m.to, m.e);
        ReceiveCoversEdges(before, net, m.to, m.e);
      case Pull(v, u, e) =>
        PullKeepsInv(s, net, v, u, e);
    }
  }

  lemma EdgesCoveredAll(s: State, net: Net, w: NodeId, d: Envelope)
    requires EdgesCovered(s, net)
    ensures EdgesCoveredExcept(s, net, w, d)
  {
  }

  // ---------- Runs ----------

  ghost predicate Legal(s: State, steps: seq<Step>, net: Net)
    requires Inv(s, net)
    decreases |steps|
  {
    || steps == []
    || (Enabled(s, steps[0], net) && (StepKeepsInv(s, steps[0], net); Legal(Next(s, steps[0], net), steps[1..], net)))
  }

  ghost function After(s: State, steps: seq<Step>, net: Net): State
    requires Inv(s, net) && Legal(s, steps, net)
    decreases |steps|
  {
    if steps == [] then s
    else
      StepKeepsInv(s, steps[0], net);
      After(Next(s, steps[0], net), steps[1..], net)
  }

  ghost function Start(net: Net): State {
    State.State(map u | u in net.nodes :: [], multiset{}, multiset{}, {}, {})
  }

  lemma StartInv(net: Net)
    requires net.Valid()
    ensures Inv(Start(net), net)
  {
  }

  /** At any point of any run: no node has posted the same bundle to the same peer twice, everything
      posted is stored at its sender, and along every edge the receiver is as new or a post is under way. */
  lemma {:induction false} RunKeepsInv(s: State, steps: seq<Step>, net: Net)
    requires Inv(s, net) && Legal(s, steps, net)
    ensures Inv(After(s, steps, net), net) && s.sent <= After(s, steps, net).sent
    decreases |steps|
  {
    if steps != [] {
      SentGrows(s, steps[0], net);
      hide Inv, Next;
      StepKeepsInv(s, steps[0], net);
      RunKeepsInv(Next(s, steps[0], net), steps[1..], net);
    }
  }

  lemma SentGrows(s: State, step: Step, net: Net)
    requires Inv(s, net) && Enabled(s, step, net)
    ensures s.sent <= Next(s, step, net).sent
  {
    hide Fanout, Accept, Height, Vetted;
  }

  /** A run of a network whose stores are all empty at first. */
  ghost predicate FromStart(steps: seq<Step>, net: Net) {
    net.Valid() && (StartInv(net); Legal(Start(net), steps, net))
  }

  ghost function Outcome(steps: seq<Step>, net: Net): State
    requires FromStart(steps, net)
  {
    StartInv(net);
    After(Start(net), steps, net)
  }

  lemma OutcomeInv(steps: seq<Step>, net: Net)
    requires FromStart(steps, net)
    ensures Inv(Outcome(steps, net), net)
  {
    StartInv(net);
    hide Inv, Legal, After;
    RunKeepsInv(Start(net), steps, net);
  }

  /** Over a whole run from empty stores, each bundle is posted along each edge at most once, whatever
      other paths it takes. */
  lemma PostedOnce(steps: seq<Step>, net: Net, m: Msg)
    requires FromStart(steps, net)
    ensures Outcome(steps, net).sent[m] <= 1
    ensures m in Outcome(steps, net).sent ==> Posts(net, m)
  {
    OutcomeInv(steps, net);
    hide FromStart, Outcome, EdgesCovered, WellFormed;
  }

  // ---------- Quiescence ----------

  /** Nodes whose own key is the author's, to whom nobody posts, have the author's bundles of this record. */
  ghost predicate AuthorsServed(s: State, net: Net, key: Key) {
    forall u, w, e :: u in s.stores && w in s.stores && e in s.stores[u] && KeyOf(e) == key
      && net.keyOf(w) == e.body.author
      ==> Height(s.stores[w], key) >= e.body.version
  }

  /** What a node got by a pull, and so never posted, its peers have all the same. */
  ghost predicate PullsPassedOn(s: State, net: Net, key: Key) {
    forall u, w, e :: (u, e) in s.pulled && u in net.peers && w in net.peers[u] && w in s.stores && KeyOf(e) == key
      ==> Height(s.stores[w], key) >= e.body.version
  }

  ghost predicate Agreed(s: State, key: Key) {
    forall u, v :: u in s.stores && v in s.stores ==> Height(s.stores[u], key) == Height(s.stores[v], key)
  }

  /** `hops` leads from `u` to `v` along edges posts travel. */
  ghost predicate Leads(net: Net, u: NodeId, hops: seq<NodeId>, v: NodeId)
    decreases |hops|
  {
    && u in net.nodes && u in net.peers
    && if hops == [] then u == v else hops[0] in net.peers[u] && Leads(net, hops[0], hops[1..], v)
  }

  ghost predicate Connected(net: Net) {
    forall u, v :: u in net.nodes && v in net.nodes ==> exists hops :: Leads(net, u, hops, v)
  }

  lemma HeightOfStored(rows: Rows, e: Envelope)
    requires e in rows
    ensures Height(rows, KeyOf(e)) >= e.body.version
  {
    LatestIsMax(rows, KeyOf(e));
  }

  /** The version at `v` is not below the version at a node that posts to it. */
  lemma QuietEdge(s: State, net: Net, u: NodeId, v: NodeId, key: Key)
    requires Inv(s, net) && s.flight == multiset{} && AuthorsServed(s, net, key) && PullsPassedOn(s, net, key)
    requires u in net.nodes && v in net.peers[u]
    ensures Height(s.stores[v], key) >= Height(s.stores[u], key)
  {
    var rows := s.stores[u];
    LatestIsMax(rows, key);
    hide Fits, Vetted, Latest;
    if Latest(rows, key).Some? {
      var e := Latest(rows, key).value;
      assert e in rows && KeyOf(e) == key;
      if net.keyOf(v) != e.body.author && (u, e) !in s.pulled {
        assert Posts(net, Msg(u, v, e));
      }
    } else {
      HeightFloor(s.stores[v], key, net.policy);
    }
  }

  lemma HeightFloor(rows: Rows, key: Key, policy: Policy)
    requires policy.Valid() && Vetted(rows, policy)
    ensures Height(rows, key) >= -1
  {
    LatestIsMax(rows, key);
  }

  lemma {:induction false} QuietPath(s: State, net: Net, u: NodeId, hops: seq<NodeId>, v: NodeId, key: Key)
    requires Inv(s, net) && s.flight == multiset{} && AuthorsServed(s, net, key) && PullsPassedOn(s, net, key)
               && Leads(net, u, hops, v)
    ensures v in net.nodes && Height(s.stores[v], key) >= Height(s.stores[u], key)
    decreases |hops|
  {
    hide EdgesCovered, AuthorsServed, PullsPassedOn, SentOnce, Height, Vetted;
    if hops != [] {
      QuietEdge(s, net, u, hops[0], key);
      QuietPath(s, net, hops[0], hops[1..], v, key);
    }
  }

  /** Once a flood has died down in a strongly connected network, all nodes agree on the newest version of a
      record exactly when the author's own nodes have what the author published, and the peers of every
      node that pulled a bundle have that. */
  lemma QuietAgreesIff(s: State, net: Net, key: Key)
    requires Inv(s, net) && s.flight == multiset{} && Connected(net)
    ensures Agreed(s, key) <==> AuthorsServed(s, net, key) && PullsPassedOn(s, net, key)
  {
    hide Height, EdgesCovered, SentOnce, Vetted, Fits, Leads;
    if AuthorsServed(s, net, key) && PullsPassedOn(s, net, key) {
      forall u, v | u in s.stores && v in s.stores ensures Height(s.stores[u], key) <= Height(s.stores[v], key) {
        var hops :| Leads(net, u, hops, v);
        QuietPath(s, net, u, hops, v, key);
      }
    }
    if Agreed(s, key) {
      forall u, w, e | u in s.stores && w in s.stores && e in s.stores[u] && KeyOf(e) == key
        && net.keyOf(w) == e.body.author
        ensures Height(s.stores[w], key) >= e.body.version
      {
        HeightOfStored(s.stores[u], e);
      }
      forall u, w, e | (u, e) in s.pulled && u in net.peers && w in net.peers[u] && w in s.stores && KeyOf(e) == key
        ensures Height(s.stores[w], key) >= e.body.version
      {
        HeightOfStored(s.stores[u], e);
      }
    }
  }

  /** Nobody signed two different envelopes for one version of a record. */
  ghost predicate NoEquivocation(s: State, key: Key) {
    forall d, e :: d in s.injected && e in s.injected && KeyOf(d) == KeyOf(e) == key ==>
      d.body.version != e.body.version || d == e
  }

  /** Agreement on versions is agreement on content. */
  lemma AgreedContent(s: State, net: Net, u: NodeId, v: NodeId, key: Key)
    requires Inv(s, net) && Agreed(s, key) && NoEquivocation(s, key) && u in net.nodes && v in net.nodes
    ensures Latest(s.stores[u], key) == Latest(s.stores[v], key)
  {
    LatestIsMax(s.stores[u], key);
    LatestIsMax(s.stores[v], key);
    LatestNotNegative(s.stores[u], key, net.policy);
    LatestNotNegative(s.stores[v], key, net.policy);
    hide Latest, Fits, Vetted, EdgesCovered, SentOnce;
  }

  lemma LatestNotNegative(rows: Rows, key: Key, policy: Policy)
    requires policy.Valid() && Vetted(rows, policy)
    ensures Latest(rows, key).Some? ==> Latest(rows, key).value.body.version >= 0
  {
    LatestIsMax(rows, key);
  }

  // ---------- Where bundles enter ----------

  /** A bundle is first handed to its author's node, if the network has one. */
  ghost predicate EntersAtAuthor(net: Net, step: Step) {
    step.Inject? ==> forall w :: w in net.nodes && net.keyOf(w) == step.e.body.author ==> w == step.v
  }

  ghost predicate AllServed(s: State, net: Net) {
    forall u, w, e :: u in s.stores && w in s.stores && e in s.stores[u] && net.keyOf(w) == e.body.author
      ==> Height(s.stores[w], KeyOf(e)) >= e.body.version
  }

  lemma AcceptAdds(rows: Rows, e: Envelope, policy: Policy)
    ensures Accept(rows, e, policy) == rows || Accept(rows, e, policy) == rows + [e]
  {
  }

  lemma ReceiveKeepsServed(s: State, net: Net, v: NodeId, e: Envelope)
    requires WellFormed(s, net) && v in net.nodes && AllServed(s, net)
    requires (forall w :: w in net.nodes && net.keyOf(w) == e.body.author ==> w == v)
          || (exists u :: u in net.nodes && e in s.stores[u])
    ensures AllServed(Receive(s, net, v, e), net)
  {
    var after := Receive(s, net, v, e);
    AcceptRaises(s.stores[v], e, net.policy);
    hide Height, Vetted, Fits, Accept, Fanout;
    AcceptAdds(s.stores[v], e, net.policy);
    if e in after.stores[v] {
      HeightOfStored(after.stores[v], e);
    }
  }

  lemma SameStoresServed(s: State, t: State, net: Net)
    requires s.stores == t.stores && AllServed(s, net)
    ensures AllServed(t, net)
  {
  }

  lemma StepKeepsServed(s: State, step: Step, net: Net)
    requires Inv(s, net) && Enabled(s, step, net) && AllServed(s, net) && EntersAtAuthor(net, step)
    ensures AllServed(Next(s, step, net), net)
  {
    hide Receive, Fits, Vetted, Fanout, Height, AllServed, EdgesCovered;
    match step {
      case Inject(v, e) =>
        var before := s.(injected := s.injected + {e});
        assert AllServed(before, net) by { hide *; SameStoresServed(s, before, net); }
        ReceiveKeepsServed(before, net, v, e);
      case Deliver(m) =>
        FlightDeliverable(s, net, m);
        assert m in s.sent;
        var before := s.(flight := s.flight - multiset{m});
        assert AllServed(before, net) by { hide *; SameStoresServed(s, before, net); }
        ReceiveKeepsServed(before, net, m.to, m.e);
      case Pull(v, u, e) =>
        TakenStores(s, net, v, e);
        ReceiveKeepsServed(s, net, v, e);
        assert AllServed(Taken(s, net, v, e), net) by {
          hide *;
          SameStoresServed(Receive(s, net, v, e), Taken(s, net, v, e), net);
        }
    }
  }

  lemma TakenStores(s: State, net: Net, v: NodeId, e: Envelope)
    requires v in s.stores && v in net.peers
    ensures Taken(s, net, v, e).stores == Receive(s, net, v, e).stores
  {
  }

  lemma {:induction false} RunKeepsServed(s: State, steps: seq<Step>, net: Net)
    requires Inv(s, net) && Legal(s, steps, net) && AllServed(s, net)
    requires forall step :: step in steps ==> EntersAtAuthor(net, step)
    ensures AllServed(After(s, steps, net), net)
    decreases |steps|
  {
    hide Inv, Next, AllServed, EntersAtAuthor;
    if steps != [] {
      StepKeepsInv(s, steps[0], net);
      assert steps[0] in steps;
      StepKeepsServed(s, steps[0], net);
      RunKeepsServed(Next(s, steps[0], net), steps[1..], net);
    }
  }

  /** Convergence: start empty, hand each bundle to its author's node (or to any node when no node
      carries the author's key), let the posts drain, and every node holds the same newest version
      of every record, unless a pull has kept a bundle from being posted on. */
  lemma FloodConverges(steps: seq<Step>, net: Net, key: Key)
    requires FromStart(steps, net) && Connected(net)
    requires forall step :: step in steps ==> EntersAtAuthor(net, step)
    ensures Outcome(steps, net).flight == multiset{} ==>
              (Agreed(Outcome(steps, net), key) <==> PullsPassedOn(Outcome(steps, net), net, key))
  {
    StartInv(net);
    hide Inv, Legal, After, EntersAtAuthor, Connected;
    RunKeepsInv(Start(net), steps, net);
    RunKeepsServed(Start(net), steps, net);
    var s := After(Start(net), steps, net);
    assert Outcome(steps, net) == s;
    if s.flight == multiset{} {
      assert AuthorsServed(s, net, key);
      QuietAgreesIff(s, net, key);
    }
  }

  // ---------- Keys as the two sides write them ----------

  const AUTHOR_PREFIX := "ed25519:"

  predicate IsLowerHex(c: char) {
    '0' <= c <= '9' || 'a' <= c <= 'f'
  }

  /** `^ed25519:[0-9a-f]{64}$`: what an envelope's shape check demands of its author. */
  predicate IsAuthorKey(s: string) {
    |s| == 72 && s[..8] == AUTHOR_PREFIX && forall i :: 8 <= i < 72 ==> IsLowerHex(s[i])
  }

  predicate IsUrlSafe(c: char) {
    'A' <= c <= 'Z' || 'a' <= c <= 'z' || '0' <= c <= '9' || c == '-' || c == '_'
  }

  /** 32 bytes in base64url without padding: how nodes write their own keys. */
  predicate IsNodeKey(s: string) {
    |s| == 43 && forall i :: 0 <= i < |s| ==> IsUrlSafe(s[i])
  }

  /** Nodes and authors write their keys as this code base does. */
  ghost predicate KeyFormats(net: Net) {
    && (forall v :: v in net.nodes ==> IsNodeKey(net.keyOf(v)))
    && forall e: Envelope :: net.policy.shape(e).None? ==> IsAuthorKey(e.body.author)
  }

  /** No string is both. */
  lemma FormatsDisjoint(s: string)
    ensures !(IsAuthorKey(s) && IsNodeKey(s))
  {
    if IsAuthorKey(s) {
      assert s[..8][7] == ':';
      assert s[7] == ':' && !IsUrlSafe(s[7]);
    }
  }

  /** So leaving the author out never leaves anybody out: a bundle that passes the fixed checks is
      posted to every known peer. */
  lemma SkipNeverFires(net: Net, m: Msg)
    requires net.Valid() && KeyFormats(net) && Fits(m.e, net.policy)
    ensures Posts(net, m) <==> m.from in net.peers && m.to in net.peers[m.from]
  {
    FormatsDisjoint(m.e.body.author);
    hide IsAuthorKey, IsNodeKey;
  }

  lemma NobodyLeftOut(s: State, net: Net, key: Key)
    requires WellFormed(s, net) && KeyFormats(net)
    ensures AuthorsServed(s, net, key)
  {
    hide IsAuthorKey, IsNodeKey, Ordered;
    forall u, e | u in s.stores && e in s.stores[u]
      ensures forall w :: w in s.stores ==> net.keyOf(w) != e.body.author
    {
      assert Vetted(s.stores[u], net.policy);
      FormatsDisjoint(e.body.author);
    }
  }

  /** Convergence of the code as it is: wherever bundles enter, and whoever pulls what from whom, once the
      posts have drained the nodes of a strongly connected network hold the same newest version of every
      record exactly when the peers of every node that pulled a bundle have it too. */
  lemma FloodAlwaysConverges(steps: seq<Step>, net: Net, key: Key)
    requires FromStart(steps, net) && Connected(net) && KeyFormats(net)
    ensures Outcome(steps, net).flight == multiset{} ==>
              (Agreed(Outcome(steps, net), key) <==> PullsPassedOn(Outcome(steps, net), net, key))
  {
    OutcomeInv(steps, net);
    var s := Outcome(steps, net);
    hide Outcome, FromStart, Connected, KeyFormats, EdgesCovered, SentOnce;
    NobodyLeftOut(s, net, key);
    if s.flight == multiset{} {
      QuietAgreesIff(s, net, key);
    }
  }

  lemma {:induction false} NoPullsNoMarks(s: State, steps: seq<Step>, net: Net)
    requires Inv(s, net) && Legal(s, steps, net) && forall step :: step in steps ==> !step.Pull?
    ensures After(s, steps, net).pulled == s.pulled
    decreases |steps|
  {
    if steps != [] {
      hide Inv, Accept, Fanout;
      StepKeepsInv(s, steps[0], net);
      assert steps[0] in steps;
      NoPullsNoMarks(Next(s, steps[0], net), steps[1..], net);
    }
  }

  /** So a flood in which nobody pulls always ends in agreement. */
  lemma PushAlwaysConverges(steps: seq<Step>, net: Net, key: Key)
    requires FromStart(steps, net) && Connected(net) && KeyFormats(net) && forall step :: step in steps ==> !step.Pull?
    ensures Outcome(steps, net).flight == multiset{} ==> Agreed(Outcome(steps, net), key)
  {
    FloodAlwaysConverges(steps, net, key);
    StartInv(net);
    hide Inv, Legal, After, Connected, KeyFormats, Agreed;
    NoPullsNoMarks(Start(net), steps, net);
  }

  /** Three nodes in a row, the middle one knowing both others. */
  function Row(keyOf: NodeId -> string, policy: Policy): Net {
    Net({0, 1, 2}, map[0 := {1}, 1 := {0, 2}, 2 := {1}], keyOf, policy)
  }

  /** The three states of a bundle that node 0 is handed, node 1 pulls, and then gets posted. */
  function Handed(e: Envelope): State {
    State.State(map[0 := [e], 1 := [], 2 := []], multiset{Msg(0, 1, e)}, multiset{Msg(0, 1, e)}, {e}, {})
  }

  function PulledAhead(e: Envelope): State {
    Handed(e).(stores := Handed(e).stores[1 := [e]], pulled := {} + {(1, e)})
  }

  function Arrived(e: Envelope): State {
    PulledAhead(e).(flight := multiset{})
  }

  lemma HandingIn(e: Envelope, net: Net)
    requires net.Valid() && net.nodes == {0, 1, 2} && net.peers[0] == {1} && net.keyOf(1) != e.body.author
    requires Fits(e, net.policy) && e.body.version >= 0
    ensures Inv(Start(net), net) && Enabled(Start(net), Inject(0, e), net)
              && Next(Start(net), Inject(0, e), net) == Handed(e)
  {
    StartInv(net);
    FirstAccepted(e, net.policy);
    var s := Start(net).(injected := {e});
    assert s.stores[0] == [] && {} + {e} == {e};
    assert Fanout(net, 0, e) == {Msg(0, 1, e)};
    hide Accept, Fits, Fanout, Inv;
    assert s.stores[0 := [e]] == map[0 := [e], 1 := [], 2 := []];
  }

  lemma Overtaking(e: Envelope, net: Net)
    requires Inv(Handed(e), net) && net.nodes == {0, 1, 2} && Fits(e, net.policy) && e.body.version >= 0
    ensures Enabled(Handed(e), Pull(1, 0, e), net) && Next(Handed(e), Pull(1, 0, e), net) == PulledAhead(e)
  {
    FirstAccepted(e, net.policy);
    hide Accept, Fits, Inv, Height, Vetted;
    assert e in Handed(e).stores[0] && Handed(e).stores[1] == [];
  }

  lemma Arriving(e: Envelope, net: Net)
    requires Inv(PulledAhead(e), net)
    ensures Enabled(PulledAhead(e), Deliver(Msg(0, 1, e)), net)
    ensures Next(PulledAhead(e), Deliver(Msg(0, 1, e)), net) == Arrived(e)
  {
    StoredNotAccepted([e], e, net.policy);
    assert net.nodes == {0, 1, 2} && net.peers.Keys == net.nodes;
    hide Accept, Fits, Inv, Height, Vetted;
    var m := Msg(0, 1, e);
    assert multiset{m} - multiset{m} == multiset{};
  }

  lemma NotAgreed(e: Envelope)
    requires e.body.version >= 0
    ensures !Agreed(Arrived(e), KeyOf(e))
  {
    NewestOfOne(e);
    hide Height;
    assert Arrived(e).stores[0] == [e] && Arrived(e).stores[2] == [];
  }

  /** A pull that beats the post ends the flood: the middle node has the bundle when the post arrives, so
      it does not post it on, and the last node never hears of it from the flood. */
  lemma PullBeatsPost(e: Envelope, keyOf: NodeId -> string, policy: Policy)
    requires policy.Valid() && Fits(e, policy) && e.body.version >= 0 && keyOf(1) != e.body.author
    ensures var net := Row(keyOf, policy);
            var steps := [Inject(0, e), Pull(1, 0, e), Deliver(Msg(0, 1, e))];
            && FromStart(steps, net)
            && Outcome(steps, net).flight == multiset{} && !Agreed(Outcome(steps, net), KeyOf(e))
  {
    var net := Row(keyOf, policy);
    HandingIn(e, net);
    hide Inv, Enabled, Next, Agreed, Fits, Start, Handed, PulledAhead;
    StepKeepsInv(Start(net), Inject(0, e), net);
    Overtaking(e, net);
    StepKeepsInv(Handed(e), Pull(1, 0, e), net);
    Arriving(e, net);
    StepKeepsInv(PulledAhead(e), Deliver(Msg(0, 1, e)), net);
    ThreeSteps(Start(net), Inject(0, e), Pull(1, 0, e), Deliver(Msg(0, 1, e)), net);
    NotAgreed(e);
  }

  lemma FirstAccepted(e: Envelope, policy: Policy)
    requires policy.Valid() && Fits(e, policy) && e.body.version >= 0
    ensures Accept([], e, policy) == [e]
  {
    AcceptedIffNewer(e, [], policy);
  }

  lemma NewestOfOne(e: Envelope)
    ensures Height([e], KeyOf(e)) == e.body.version && Height([], KeyOf(e)) == -1
  {
    HeightOfStored([e], e);
    LatestIsMax([e], KeyOf(e));
  }

  lemma ThreeSteps(s: State, a: Step, b: Step, c: Step, net: Net)
    requires Inv(s, net) && Enabled(s, a, net) && Inv(Next(s, a, net), net)
    requires Enabled(Next(s, a, net), b, net) && Inv(Next(Next(s, a, net), b, net), net)
    requires Enabled(Next(Next(s, a, net), b, net), c, net) && Inv(Next(Next(Next(s, a, net), b, net), c, net), net)
    ensures Legal(s, [a, b, c], net) && After(s, [a, b, c], net) == Next(Next(Next(s, a, net), b, net), c, net)
  {
    hide Inv, Enabled, Next;
    var s1 := Next(s, a, net);
    var s2 := Next(s1, b, net);
    var s3 := Next(s2, c, net);
    assert [a, b, c][1..] == [b, c] && [b, c][1..] == [c] && [c][1..] == [];
    assert Legal(s3, [], net) && After(s3, [], net) == s3;
    assert Legal(s2, [c], net) && After(s2, [c], net) == s3;
    assert Legal(s1, [b, c], net) && After(s1, [b, c], net) == s3;
  }

  // ---------- The author's own nodes ----------

  /** A node carrying the author's key never gets the bundle from anybody else. */
  ghost predicate OnlyFromOutside(s: State, net: Net, given: set<(NodeId, Envelope)>) {
    forall v, e :: v in s.stores && e in s.stores[v] && net.keyOf(v) == e.body.author ==> (v, e) in given
  }

  ghost function Given(steps: seq<Step>): set<(NodeId, Envelope)> {
    (set step | step in steps && step.Inject? :: (step.v, step.e))
    + (set step | step in steps && step.Pull? :: (step.puller, step.found))
  }

  lemma StepOnlyFromOutside(s: State, step: Step, net: Net, given: set<(NodeId, Envelope)>)
    requires Inv(s, net) && Enabled(s, step, net) && OnlyFromOutside(s, net, given)
    requires step.Inject? ==> (step.v, step.e) in given
    requires step.Pull? ==> (step.puller, step.found) in given
    ensures OnlyFromOutside(Next(s, step, net), net, given)
  {
    hide Verify, Fits, Vetted, Height, Fanout;
    if step.Deliver? {
      FlightDeliverable(s, net, step.m);
    }
  }

  /** Were node keys ever written as authors are, then however long the run and whatever the paths, a
      node whose key is the author's would get a bundle only if the bundle was handed to that very node,
      or it pulled it. */
  lemma {:induction false} AuthorsNodeOnlyFromOutside(s: State, steps: seq<Step>, net: Net,
                                                      given: set<(NodeId, Envelope)>)
    requires Inv(s, net) && Legal(s, steps, net) && OnlyFromOutside(s, net, given) && Given(steps) <= given
    ensures OnlyFromOutside(After(s, steps, net), net, given)
    decreases |steps|
  {
    hide Inv, Next, OnlyFromOutside;
    if steps != [] {
      StepKeepsInv(s, steps[0], net);
      if steps[0].Inject? {
        assert steps[0] in steps && (steps[0].v, steps[0].e) in Given(steps);
      }
      if steps[0].Pull? {
        assert steps[0] in steps && (steps[0].puller, steps[0].found) in Given(steps);
      }
      StepOnlyFromOutside(s, steps[0], net, given);
      forall x | x in Given(steps[1..]) ensures x in Given(steps) {
        var step :| step in steps[1..]
                    && ((step.Inject? && (step.v, step.e) == x) || (step.Pull? && (step.puller, step.found) == x));
        assert step in steps;
      }
      AuthorsNodeOnlyFromOutside(Next(s, steps[0], net), steps[1..], net, given);
    }
  }

  // ---------- Floods end ----------

  ghost function Missing(s: State, net: Net): set<(NodeId, Envelope)>
    requires s.stores.Keys == net.nodes
  {
    set v, e | v in net.nodes && e in s.injected && e !in s.stores[v] :: (v, e)
  }

  /** Posts under way, and a full fan-out for every node that still lacks a bundle. */
  ghost function Work(s: State, net: Net): nat
    requires s.stores.Keys == net.nodes
  {
    |s.flight| + |net.nodes| * |Missing(s, net)|
  }

  lemma {:induction false} SubsetSize<T>(a: set<T>, b: set<T>)
    requires a <= b
    ensures |a| <= |b| && (a != b ==> |a| < |b|)
    decreases a
  {
    if a != {} {
      var x :| x in a;
      SubsetSize(a - {x}, b - {x});
    }
  }

  lemma {:induction false} PostsSize(targets: set<NodeId>, u: NodeId, e: Envelope)
    ensures |set v | v in targets :: Msg(u, v, e)| <= |targets|
    decreases targets
  {
    var posts := set v | v in targets :: Msg(u, v, e);
    if targets != {} {
      var x :| x in targets;
      PostsSize(targets - {x}, u, e);
      var fewer := set v | v in targets - {x} :: Msg(u, v, e);
      assert posts == fewer + {Msg(u, x, e)};
    }
  }

  lemma FanoutSize(net: Net, u: NodeId, e: Envelope)
    requires net.Valid() && u in net.nodes
    ensures |Fanout(net, u, e)| <= |net.nodes|
  {
    var targets := set v | v in net.peers[u] && net.keyOf(v) != e.body.author;
    PostsSize(targets, u, e);
    assert Fanout(net, u, e) == set v | v in targets :: Msg(u, v, e);
    SubsetSize(targets, net.nodes);
  }

  lemma MissingShrinks(s: State, net: Net, v: NodeId, e: Envelope)
    requires WellFormed(s, net) && v in net.nodes && e in s.injected
    ensures var after := Receive(s, net, v, e);
            && WellFormed(after, net)
            && |Missing(after, net)| <= |Missing(s, net)|
            && (after != s ==> |Missing(after, net)| < |Missing(s, net)|)
  {
    ReceiveWellFormed(s, net, v, e);
    var after := Receive(s, net, v, e);
    hide Fits, Vetted, Height, Fanout, Verify;
    SubsetSize(Missing(after, net), Missing(s, net));
    if after != s {
      if e in s.stores[v] {
        StoredNotAccepted(s.stores[v], e, net.policy);
      }
      assert (v, e) in Missing(s, net) && (v, e) !in Missing(after, net);
    }
  }

  lemma ReceiveFlight(s: State, net: Net, v: NodeId, e: Envelope)
    requires net.Valid() && v in s.stores && v in net.nodes
    ensures |Receive(s, net, v, e).flight| <= |s.flight| + |net.nodes|
  {
    FanoutSize(net, v, e);
    hide Fanout, Accept;
  }

  lemma TakenUpWork(s: State, m: Msg, net: Net)
    requires WellFormed(s, net) && m in s.flight
    ensures var before := s.(flight := s.flight - multiset{m});
            WellFormed(before, net) && Missing(before, net) == Missing(s, net) && |before.flight| == |s.flight| - 1
  {
    hide Vetted;
  }

  /** Every delivery leaves less work, whatever it triggers. */
  lemma DeliveryShrinksWork(s: State, m: Msg, net: Net)
    requires Inv(s, net) && m in s.flight
    ensures Inv(Next(s, Deliver(m), net), net) && Work(Next(s, Deliver(m), net), net) < Work(s, net)
  {
    StepKeepsInv(s, Deliver(m), net);
    FlightDeliverable(s, net, m);
    var before := s.(flight := s.flight - multiset{m});
    var after := Next(s, Deliver(m), net);
    assert after == Receive(before, net, m.to, m.e);
    hide Fits, Vetted, EdgesCovered, Fanout, SentOnce, Missing, Receive;
    TakenUpWork(s, m, net);
    MissingShrinks(before, net, m.to, m.e);
    ReceiveFlight(before, net, m.to, m.e);
    if after != before {
      Scaled(|net.nodes|, |Missing(after, net)|, |Missing(s, net)|);
    }
  }

  lemma {:induction false} Scaled(k: nat, a: nat, b: nat)
    requires a < b
    ensures k * a + k <= k * b
    decreases k
  {
    if k > 0 {
      Scaled(k - 1, a, b);
      assert (k - 1) * a + a == k * a && (k - 1) * b + b == k * b;
    }
  }

  lemma StoredNotAccepted(rows: Rows, e: Envelope, policy: Policy)
    requires e in rows
    ensures Accept(rows, e, policy) == rows
  {
    HeightOfStored(rows, e);
    LatestIsMax(rows, KeyOf(e));
  }

  /** A flood ends: without new bundles from outside, no run is longer than the work at its start. */
  lemma {:induction false} FloodEnds(s: State, steps: seq<Step>, net: Net)
    requires Inv(s, net) && Legal(s, steps, net) && forall step :: step in steps ==> step.Deliver?
    ensures Inv(After(s, steps, net), net) && |steps| + Work(After(s, steps, net), net) <= Work(s, net)
    decreases |steps|
  {
    hide Next, Work, SentOnce, EdgesCovered;
    if steps != [] {
      assert steps[0] in steps;
      DeliveryShrinksWork(s, steps[0].m, net);
      FloodEnds(Next(s, steps[0], net), steps[1..], net);
    }
  }
}
