/**
 The sender's side of the flood: the loop over the peers table and the single post.
 */
module Propagation {
  import opened Wrappers
  import opened Seqs
  import opened Strings
  import opened Bundles
  import opened Gossip

  // ---------- One post ----------

  /** What the wire does with a request. */
  datatype Wire = Answered(code: int) | TimedOut | Refused | BrokenPipe | Crashed

  /** The entry of one peer in the summary. */
  datatype Status =
    | Excluded | Banned | NoUrl | SchemeInvalid | BodyTooLarge
    | Code(code: int) | Timeout | ConnectFailed | IoError | UnknownError

  /** The scheme of a URL, or `None` where parsing it raises. */
  type Scheme = string -> Option<string>

  const MAX_BUNDLE_BYTES := 4 * 1024 * 1024

  function Target(url: string): string {
    RStripSlash(url) + "/bundles"
  }

  /** Where a post goes: slashes at the end of the URL make no difference. */
  lemma TargetIs(base: string, slashes: string)
    requires (base == "" || base[|base| - 1] != '/') && forall i :: 0 <= i < |slashes| ==> slashes[i] == '/'
    ensures Target(base + slashes) == base + "/bundles"
  {
    var url := base + slashes;
    forall i | |base| <= i < |url| ensures url[i] == '/' {
      assert url[i] == slashes[i - |base|];
    }
    assert base != "" ==> url[|base| - 1] == base[|base| - 1];
    var n := RStripSlashIs(url);
    assert url[..|base|] == base;
  }

  function Tag(w: Wire): Status {
    match w
    case Answered(code) => Code(code)
    case TimedOut => Timeout
    case Refused => ConnectFailed
    case BrokenPipe => IoError
    case Crashed => UnknownError
  }

  /** No request was made. */
  predicate NothingSent(status: Status) {
    status.Excluded? || status.Banned? || status.NoUrl? || status.SchemeInvalid? || status.BodyTooLarge?
  }

  /** How a post ends: a missing URL, a URL that is not http and a body beyond 4 MiB are refused before
      anything is sent, in that order; else what the wire did is reported. */
  ghost predicate Posted(url: string, size: nat, scheme: Scheme, wire: string -> Wire, status: Status) {
    if url == "" then status == NoUrl
    else if scheme(url) != Some("http") && scheme(url) != Some("https") then status == SchemeInvalid
    else if size > 4_194_304 then status == BodyTooLarge
    else match wire(Target(url))
      case Answered(code) => status == Code(code)
      case TimedOut => status == Timeout
      case Refused => status == ConnectFailed
      case BrokenPipe => status == IoError
      case Crashed => status == UnknownError
  }

  /** A request leaves only for an http URL, and only with a body the other side would take. */
  predicate Sendable(url: string, size: nat, scheme: Scheme) {
    url != "" && (scheme(url) == Some("http") || scheme(url) == Some("https")) && size <= MAX_BUNDLE_BYTES
  }

  /** `_post_bundle_to_peer`: the status, and where a request went if one was made. */
  method PostBundle(url: string, size: nat, scheme: Scheme, wire: string -> Wire)
    returns (status: Status, requested: Option<string>)
    ensures requested == if Sendable(url, size, scheme) then Some(Target(url)) else None
    ensures Posted(url, size, scheme, wire, status)
    ensures requested.None? <==> NothingSent(status)
  {
    requested := None;
    if url == "" {
      return NoUrl, requested;
    }
    if scheme(url) != Some("http") && scheme(url) != Some("https") {
      return SchemeInvalid, requested;
    }
    if size > MAX_BUNDLE_BYTES {
      return BodyTooLarge, requested;
    }
    requested := Some(Target(url));
    status := Tag(wire(Target(url)));
  }

  // ---------- One node's fan-out ----------

  /** A row of the peers table, with what discovery resolved for it. */
  datatype PeerRow = PeerRow(pubkey: string, trust: Option<string>, discovered: string, baseUrl: string)

  function UrlOf(p: PeerRow): string {
    if p.discovered != "" then p.discovered else p.baseUrl
  }

  /** The peers a request is made to. */
  function Reached(excluded: set<string>, size: nat, scheme: Scheme): PeerRow -> bool {
    (p: PeerRow) => p.pubkey != "" && p.pubkey !in excluded && p.trust != Some("banned")
      && Sendable(UrlOf(p), size, scheme)
  }

  /** What the loop owes one peer: the excluded and the banned are passed over, the others posted to
      under the URL discovery found, or else under the stored one. */
  ghost predicate Served(p: PeerRow, excluded: set<string>, size: nat, scheme: Scheme, wire: string -> Wire,
                         status: Status)
  {
    if p.pubkey in excluded then status == Excluded
    else if p.trust == Some("banned") then status == Banned
    else Posted(if p.discovered != "" then p.discovered else p.baseUrl, size, scheme, wire, status)
  }

  ghost predicate Reported(p: PeerRow, excluded: set<string>, size: nat, scheme: Scheme, wire: string -> Wire,
                           summary: map<string, Status>)
  {
    p.pubkey in summary && Served(p, excluded, size, scheme, wire, summary[p.pubkey])
  }

  lemma ReachedSnoc(peers: seq<PeerRow>, p: PeerRow, excluded: set<string>, size: nat, scheme: Scheme)
    ensures var reached := Reached(excluded, size, scheme);
            Filter(peers + [p], reached) == Filter(peers, reached) + if reached(p) then [p] else []
  {
    FilterConcat(peers, [p], Reached(excluded, size, scheme));
  }

  /** What the loop does for one peer with a key. */
  method Visit(p: PeerRow, excluded: set<string>, size: nat, scheme: Scheme, wire: string -> Wire)
    returns (status: Status, reached: bool)
    requires p.pubkey != ""
    ensures reached == Reached(excluded, size, scheme)(p) == !NothingSent(status)
    ensures Served(p, excluded, size, scheme, wire, status)
  {
    if p.pubkey in excluded {
      return Excluded, false;
    }
    if p.trust == Some("banned") {
      return Banned, false;
    }
    var url := UrlOf(p);
    if url == "" {
      return NoUrl, false;
    }
    var requested;
    status, requested := PostBundle(url, size, scheme, wire);
    reached := requested.Some?;
  }

  /** `propagate_bundle`: one request to every peer that may get one, in table order, whatever the
      others answer, and one status for every peer; keys are unique in the table. */
  method Propagate(peers: seq<PeerRow>, excluded: set<string>, size: nat, scheme: Scheme, wire: string -> Wire)
    returns (summary: map<string, Status>, posted: seq<PeerRow>)
    requires forall i, j :: 0 <= i < j < |peers| ==> peers[i].pubkey != peers[j].pubkey
    ensures posted == Filter(peers, Reached(excluded, size, scheme))
    ensures forall k :: 0 <= k < |peers| && peers[k].pubkey != "" ==>
              && Reported(peers[k], excluded, size, scheme, wire, summary)
              && (peers[k] in posted <==> !NothingSent(summary[peers[k].pubkey]))
    ensures forall key :: key in summary ==> exists k :: 0 <= k < |peers| && peers[k].pubkey == key != ""
  {
    hide Filter, Served, Sendable, NothingSent;
    summary, posted := map[], [];
    for i := 0 to |peers|
      invariant posted == Filter(peers[..i], Reached(excluded, size, scheme))
      invariant forall k :: 0 <= k < i && peers[k].pubkey != "" ==>
                  && Reported(peers[k], excluded, size, scheme, wire, summary)
                  && (peers[k] in posted <==> !NothingSent(summary[peers[k].pubkey]))
      invariant forall key :: key in summary ==> exists k :: 0 <= k < i && peers[k].pubkey == key != ""
    {
      var p := peers[i];
      assert peers[..i + 1] == peers[..i] + [p];
      ReachedSnoc(peers[..i], p, excluded, size, scheme);
      if p.pubkey != "" {
        var status, reached := Visit(p, excluded, size, scheme, wire);
        if reached {
          posted := posted + [p];
        }
        summary := summary[p.pubkey := status];
      }
    }
    assert peers[..|peers|] == peers;
  }

  // ---------- The table behind the network ----------

  /** `table` is what node `u` knows: `at` says which node answers at a target, and the peers of `u` in
      the network are the nodes its usable rows lead to, each row carrying its node's key. */
  ghost predicate Knows(net: Net, u: NodeId, table: seq<PeerRow>, at: string -> NodeId, size: nat, scheme: Scheme) {
    && u in net.peers
    && (forall p :: p in table ==> p.pubkey != "" && net.keyOf(at(Target(UrlOf(p)))) == p.pubkey)
    && net.peers[u] == set p | p in Filter(table, Reached({}, size, scheme)) :: at(Target(UrlOf(p)))
  }

  /** The requests of `Propagate`, author excluded, are exactly the posts of the flood. */
  lemma PropagateIsFanout(net: Net, u: NodeId, e: Envelope, table: seq<PeerRow>, at: string -> NodeId,
                          size: nat, scheme: Scheme)
    requires Knows(net, u, table, at, size, scheme)
    ensures Fanout(net, u, e)
         == set p | p in Filter(table, Reached({e.body.author}, size, scheme)) :: Msg(u, at(Target(UrlOf(p))), e)
  {
    hide Filter, Sendable, Target;
    var reached := Filter(table, Reached({e.body.author}, size, scheme));
    var posts := set p | p in reached :: Msg(u, at(Target(UrlOf(p))), e);
    forall m ensures m in Fanout(net, u, e) <==> m in posts {
      if m in Fanout(net, u, e) {
        var p :| p in Filter(table, Reached({}, size, scheme)) && at(Target(UrlOf(p))) == m.to;
        assert p in reached;
      }
      if m in posts {
        var p :| p in reached && m == Msg(u, at(Target(UrlOf(p))), e);
        assert p in Filter(table, Reached({}, size, scheme));
      }
    }
  }
}
