/**
 The pull side of bundle replication: pages of a peer's store, read in rowid order behind a
 persisted per-peer high-water mark.
 */
module BundlePull {
  import opened Wrappers
  import opened Seqs
  import opened Bundles

  /** One response of the rowid-mode listing. */
  datatype PageReply = PageReply(bundles: seq<Envelope>, next: Option<int>)

  /** What an honest peer with these rows answers: up to `limit` rows past `since`, and the rowid of the last. */
  function HonestPage(peer: Rows, since: nat, limit: nat): PageReply {
    if since >= |peer| then PageReply([], None)
    else
      var end := if |peer| - since <= limit then |peer| else since + limit;
      PageReply(peer[since..end], Some(end))
  }

  /** That page is what `list_with_rowid` yields, and its `next` the rowid of the last entry. */
  lemma HonestPageIsListing(peer: Rows, since: nat, limit: nat)
    requires limit > 0
    ensures var page := Take(Listing(peer, None, since, |peer|), limit);
            var reply := HonestPage(peer, since, limit);
            && |reply.bundles| == |page|
            && (forall k :: 0 <= k < |page| ==> reply.bundles[k] == page[k].0)
            && reply.next == if page == [] then None else Some(page[|page| - 1].1)
  {
    if since < |peer| {
      ListingAll(peer, since, |peer|);
    }
  }

  /** Which envelopes of a page the verifier or the insert raises on, by position: those are skipped. */
  type Raises = nat -> bool

  ghost predicate NeverRaises(raises: Raises) {
    forall i: nat :: !raises(i)
  }

  function AcceptAll(rows: Rows, offered: seq<Envelope>, raises: Raises, policy: Policy): Rows
    decreases |offered|
  {
    if offered == [] then rows
    else
      var n := |offered| - 1;
      var before := AcceptAll(rows, offered[..n], raises, policy);
      if raises(n) then before else Accept(before, offered[n], policy)
  }

  /** Every peer row up to `mark` that our policy lets in is matched by an equal or newer version here. */
  ghost predicate Caught(peer: Rows, rows: Rows, mark: nat, policy: Policy) {
    forall i :: 0 <= i < mark && i < |peer| && Fits(peer[i], policy) ==>
      Height(rows, KeyOf(peer[i])) >= peer[i].body.version
  }

  /** `after` is nowhere behind `before`. */
  ghost predicate NowhereBehind(before: Rows, after: Rows) {
    forall key :: Height(before, key) <= Height(after, key)
  }

  lemma {:induction false} AcceptAllRaises(rows: Rows, offered: seq<Envelope>, raises: Raises, policy: Policy)
    requires policy.Valid()
    ensures NowhereBehind(rows, AcceptAll(rows, offered, raises, policy))
    ensures forall i :: 0 <= i < |offered| && Fits(offered[i], policy) && !raises(i) ==>
              Height(AcceptAll(rows, offered, raises, policy), KeyOf(offered[i])) >= offered[i].body.version
    decreases |offered|
  {
    if offered != [] {
      var n := |offered| - 1;
      var before := AcceptAll(rows, offered[..n], raises, policy);
      AcceptAllRaises(rows, offered[..n], raises, policy);
      if !raises(n) {
        AcceptRaises(before, offered[n], policy);
      }
      hide Height, Accept, Fits;
      forall i | 0 <= i < |offered| && Fits(offered[i], policy) && !raises(i)
        ensures Height(AcceptAll(rows, offered, raises, policy), KeyOf(offered[i])) >= offered[i].body.version
      {
        if i < n {
          assert offered[..n][i] == offered[i];
        }
      }
    }
  }

  /** `e` is one of the first `n` envelopes of the page, nothing raised on it, and the policy lets it in. */
  ghost predicate Sent(offered: seq<Envelope>, n: nat, raises: Raises, policy: Policy, e: Envelope) {
    exists i :: 0 <= i < n && i < |offered| && offered[i] == e && !raises(i) && Fits(e, policy)
  }

  /** Nothing stored goes away, and only what the page brought, without raising, comes in. */
  lemma {:induction false} AcceptAllAdds(rows: Rows, offered: seq<Envelope>, raises: Raises, policy: Policy)
    requires policy.Valid()
    ensures var after := AcceptAll(rows, offered, raises, policy);
            && rows <= after
            && forall k :: |rows| <= k < |after| ==> Sent(offered, |offered|, raises, policy, after[k])
    decreases |offered|
  {
    if offered != [] {
      var n := |offered| - 1;
      var some, last := offered[..n], offered[n];
      var before := AcceptAll(rows, some, raises, policy);
      AcceptAllAdds(rows, some, raises, policy);
      forall e | Sent(some, n, raises, policy, e) ensures Sent(offered, n + 1, raises, policy, e) {
        var i :| 0 <= i < n && i < |some| && some[i] == e && !raises(i) && Fits(e, policy);
        assert offered[i] == e;
      }
      AcceptedIffNewer(last, before, policy);
      hide Verify, Fits, Height;
      if !raises(n) && Fits(last, policy) {
        assert Sent(offered, n + 1, raises, policy, last);
      }
    }
  }

  lemma {:induction false} AcceptAllKeepsVetted(rows: Rows, offered: seq<Envelope>, raises: Raises, policy: Policy)
    requires Vetted(rows, policy)
    ensures Vetted(AcceptAll(rows, offered, raises, policy), policy)
    ensures |AcceptAll(rows, offered, raises, policy)| >= |rows|
    decreases |offered|
  {
    if offered != [] {
      AcceptAllKeepsVetted(rows, offered[..|offered| - 1], raises, policy);
      if !raises(|offered| - 1) {
        AcceptKeepsVetted(AcceptAll(rows, offered[..|offered| - 1], raises, policy), offered[|offered| - 1], policy);
      }
    }
  }

  // ---------- One pull ----------

  /** The store and the mark after up to `left` more pages of `server`, which sees the page number
      and the mark it is asked to read from; `raises` says what goes wrong with which page. The mark
      moves past skipped envelopes all the same. */
  function AfterPages(rows: Rows, mark: nat, page: nat, left: nat, server: (nat, nat) -> Option<PageReply>,
                      raises: nat -> Raises, limit: nat, policy: Policy): (Rows, nat)
    decreases left
  {
    if left == 0 || server(page, mark).None? then (rows, mark)
    else
      var p := server(page, mark).value;
      var stored := AcceptAll(rows, p.bundles, raises(page), policy);
      if p.next.None? || p.next.value <= mark then (stored, mark)
      else if |p.bundles| < limit then (stored, p.next.value)
      else AfterPages(stored, p.next.value, page + 1, left - 1, server, raises, limit, policy)
  }

  /** A peer whose store only grows from page to page, answering honestly when it answers at all. */
  ghost predicate HonestServer(server: (nat, nat) -> Option<PageReply>, peer: nat -> Rows, limit: nat) {
    && (forall k: nat :: peer(k) <= peer(k + 1))
    && forall k: nat, m: nat :: server(k, m).Some? ==> server(k, m).value == HonestPage(peer(k), m, limit)
  }

  lemma CaughtByPage(peer: Rows, rows: Rows, mark: nat, limit: nat, raises: Raises, policy: Policy)
    requires policy.Valid() && limit > 0 && Caught(peer, rows, mark, policy) && NeverRaises(raises)
    ensures var p := HonestPage(peer, mark, limit);
            var stored := AcceptAll(rows, p.bundles, raises, policy);
            && Caught(peer, stored, mark, policy)
            && (p.next.Some? ==> mark < p.next.value <= |peer| && Caught(peer, stored, p.next.value, policy))
  {
    var p := HonestPage(peer, mark, limit);
    AcceptAllRaises(rows, p.bundles, raises, policy);
    hide AcceptAll, Height, Fits;
    assert NowhereBehind(rows, AcceptAll(rows, p.bundles, raises, policy));
    if p.next.Some? {
      assert forall i :: mark <= i < p.next.value ==> peer[i] == p.bundles[i - mark];
    }
  }

  lemma CaughtGrows(peer: Rows, longer: Rows, rows: Rows, mark: nat, policy: Policy)
    requires peer <= longer && mark <= |peer| && Caught(peer, rows, mark, policy)
    ensures Caught(longer, rows, mark, policy)
  {
  }

  /** A pull from an honest peer, in which nothing is skipped, leaves nothing behind its new mark. */
  lemma {:induction false} HonestPullCatches(rows: Rows, mark: nat, page: nat, left: nat,
                                             server: (nat, nat) -> Option<PageReply>, raises: nat -> Raises,
                                             peer: nat -> Rows, limit: nat, policy: Policy)
    requires policy.Valid() && limit > 0 && HonestServer(server, peer, limit)
    requires forall k: nat :: NeverRaises(raises(k))
    requires mark <= |peer(page)| && Caught(peer(page), rows, mark, policy)
    ensures var (rows', mark') := AfterPages(rows, mark, page, left, server, raises, limit, policy);
            mark' >= mark && exists k: nat :: k >= page && mark' <= |peer(k)| && Caught(peer(k), rows', mark', policy)
    decreases left
  {
    hide Caught, NeverRaises;
    if left > 0 && server(page, mark).Some? {
      CaughtByPage(peer(page), rows, mark, limit, raises(page), policy);
      var p := server(page, mark).value;
      var stored := AcceptAll(rows, p.bundles, raises(page), policy);
      if p.next.Some? && |p.bundles| >= limit {
        assert peer(page) <= peer(page + 1);
        CaughtGrows(peer(page), peer(page + 1), stored, p.next.value, policy);
        HonestPullCatches(stored, p.next.value, page + 1, left - 1, server, raises, peer, limit, policy);
      }
    }
  }

  /** A peer that always answers, and whose store stays as it is. */
  ghost predicate QuietPeer(server: (nat, nat) -> Option<PageReply>, peer: Rows, limit: nat) {
    forall k: nat, m: nat :: server(k, m) == Some(HonestPage(peer, m, limit))
  }

  /** It holds `held`, is being read from `mark`, and nothing it sends raises. */
  ghost predicate Drainable(server: (nat, nat) -> Option<PageReply>, raises: nat -> Raises, held: Rows, limit: nat,
                            mark: nat)
  {
    limit > 0 && QuietPeer(server, held, limit) && mark <= |held| && forall k: nat :: NeverRaises(raises(k))
  }

  /** The mark has moved up by `reach` rows, or to the end, and what was caught up to the old one is caught up to
      the new one. */
  ghost predicate Reached(held: Rows, rows: Rows, mark: nat, reach: int, after: Rows, newMark: nat, policy: Policy) {
    && newMark == (if mark + reach <= |held| then mark + reach else |held|)
    && (policy.Valid() && Caught(held, rows, mark, policy) ==> Caught(held, after, newMark, policy))
  }

  /** How far a pull of a quiet peer gets: as many rows as its pages hold, or to the end; and all of that is
      matched or surpassed here. */
  lemma {:induction false} QuietPullReaches(rows: Rows, mark: nat, page: nat, left: nat,
                                            server: (nat, nat) -> Option<PageReply>, raises: nat -> Raises,
                                            held: Rows, limit: nat, policy: Policy)
    requires Drainable(server, raises, held, limit, mark)
    ensures var (rows', mark') := AfterPages(rows, mark, page, left, server, raises, limit, policy);
            Reached(held, rows, mark, left * limit, rows', mark', policy)
    decreases left
  {
    hide Caught, NeverRaises, AcceptAll;
    if left == 0 {
      assert left * limit == 0;
    } else {
      OnePage(left, limit);
      if policy.Valid() && Caught(held, rows, mark, policy) {
        CaughtByPage(held, rows, mark, limit, raises(page), policy);
      }
      var p := server(page, mark).value;
      if p.next.Some? && |p.bundles| >= limit {
        QuietPullReaches(AcceptAll(rows, p.bundles, raises(page), policy), p.next.value, page + 1, left - 1, server,
                         raises, held, limit, policy);
      }
    }
  }

  lemma OnePage(left: nat, limit: nat)
    requires left > 0
    ensures left * limit == (left - 1) * limit + limit >= limit
  {
    Positive(left - 1, limit);
  }

  lemma {:induction false} Positive(a: nat, b: nat)
    ensures a * b >= 0
    decreases a
  {
    if a > 0 {
      Positive(a - 1, b);
      assert a * b == (a - 1) * b + b;
    }
  }

  class Puller {
    const store: Store
    const policy: Policy
    /** The `swf_kv` high-water rows, by peer key; absent means 0. */
    var highWater: map<string, nat>

    constructor (store: Store, policy: Policy)
      ensures this.store == store && this.policy == policy && forall peer :: GetHighWater(peer) == 0
    {
      this.store, this.policy, highWater := store, policy, map[];
    }

    function GetHighWater(peer: string): nat
      reads this
    {
      if peer in highWater then highWater[peer] else 0
    }

    /** Never writes an older mark over a newer one. */
    method SetHighWater(peer: string, rowid: nat)
      modifies this
      ensures GetHighWater(peer)
           == if peer !in old(highWater) || rowid > old(highWater)[peer] then rowid else old(highWater)[peer]
      ensures forall p :: p != peer ==> (p in highWater <==> p in old(highWater))
      ensures forall p :: p != peer && p in highWater ==> highWater[p] == old(highWater)[p]
    {
      if peer !in highWater || rowid > highWater[peer] {
        highWater := highWater[peer := rowid];
      }
    }

    /** Verify and insert one page, skipping what does not verify and what raises. */
    method StorePage(bundles: seq<Envelope>, raises: Raises) returns (stored: nat)
      requires Vetted(store.rows, policy)
      modifies store
      ensures Vetted(store.rows, policy)
      ensures store.rows == AcceptAll(old(store.rows), bundles, raises, policy)
      ensures policy.Valid() ==>
                && old(store.rows) <= store.rows
                && forall k :: |old(store.rows)| <= k < |store.rows| ==>
                     Sent(bundles, |bundles|, raises, policy, store.rows[k])
      ensures stored == |store.rows| - |old(store.rows)|
    {
      stored := 0;
      ghost var before := store.rows;
      if policy.Valid() {
        AcceptAllAdds(before, bundles, raises, policy);
      }
      hide Sent;
      for i := 0 to |bundles|
        invariant Vetted(store.rows, policy)
        invariant store.rows == AcceptAll(before, bundles[..i], raises, policy)
        invariant stored == |store.rows| - |before|
      {
        assert bundles[..i + 1][..i] == bundles[..i];
        var e := bundles[i];
        hide AcceptAll, Vetted, Latest;
        if !raises(i) && Verify(e, store.rows, policy, None).Ok? {
          InsertKeepsVetted(store.rows, e, policy, None);
          AcceptAllSnoc(before, bundles, i, raises, policy);
          var _, wasNew := store.Insert(e);
          stored := stored + if wasNew then 1 else 0;
        } else {
          AcceptAllSnoc(before, bundles, i, raises, policy);
        }
      }
      assert bundles[..|bundles|] == bundles;
    }

    /** `pull_from_peer`'s paging loop. */
    method PullFromPeer(peer: string, server: (nat, nat) -> Option<PageReply>, raises: nat -> Raises, limit: nat,
                        maxPages: nat)
      returns (stored: nat)
      requires Vetted(store.rows, policy)
      modifies this, store
      ensures Vetted(store.rows, policy)
      ensures (store.rows, GetHighWater(peer))
           == AfterPages(old(store.rows), old(GetHighWater(peer)), 0, maxPages, server, raises, limit, policy)
      ensures GetHighWater(peer) >= old(GetHighWater(peer))
      ensures forall held: Rows :: Drainable(server, raises, held, limit, old(GetHighWater(peer))) ==>
                Reached(held, old(store.rows), old(GetHighWater(peer)), maxPages * limit,
                        store.rows, GetHighWater(peer), policy)
      ensures stored == |store.rows| - |old(store.rows)|
    {
      stored := 0;
      var mark := GetHighWater(peer);
      ghost var start, goal := store.rows, AfterPages(store.rows, mark, 0, maxPages, server, raises, limit, policy);
      forall held: Rows | Drainable(server, raises, held, limit, mark)
        ensures Reached(held, start, mark, maxPages * limit, goal.0, goal.1, policy)
      {
        QuietPullReaches(start, mark, 0, maxPages, server, raises, held, limit, policy);
      }
      hide Drainable, Reached;
      var page := 0;
      while page < maxPages
        invariant page <= maxPages && mark == GetHighWater(peer) >= old(GetHighWater(peer))
        invariant Vetted(store.rows, policy) && stored == |store.rows| - |start|
        invariant AfterPages(store.rows, mark, page, maxPages - page, server, raises, limit, policy) == goal
      {
        hide Vetted, AcceptAll;
        var doc := server(page, mark);
        if doc.None? {
          break;
        }
        var n := StorePage(doc.value.bundles, raises(page));
        stored := stored + n;
        if doc.value.next.None? || doc.value.next.value <= mark {
          return;
        }
        mark := doc.value.next.value;
        SetHighWater(peer, mark);
        if |doc.value.bundles| < limit {
          return;
        }
        page := page + 1;
      }
    }
  }

  lemma AcceptAllSnoc(rows: Rows, bundles: seq<Envelope>, i: nat, raises: Raises, policy: Policy)
    requires i < |bundles|
    ensures var before := AcceptAll(rows, bundles[..i], raises, policy);
            AcceptAll(rows, bundles[..i + 1], raises, policy)
            == if raises(i) then before else Accept(before, bundles[i], policy)
  {
    assert bundles[..i + 1][..i] == bundles[..i];
  }

  // ---------- Pulls with crashes and concurrent writers ----------

  /** A page being stored: its envelopes, the mark it will justify, and how many are done. */
  datatype Flight = NoFlight | Page(bundles: seq<Envelope>, next: nat, done: nat)

  /** The first `kept` rows here are committed; the mark always is. */
  datatype State = State(peer: Rows, rows: Rows, kept: nat, mark: nat, flight: Flight)

  datatype Step =
    | PeerGrows(e: Envelope)
    | LocalOffer(e: Envelope)
    | Fetch(limit: nat)
    | StoreNext
    | SkipNext(committed: bool)
    | PeerRebuilt(contents: Rows)
    | CommitMark
    | Crash

  /** An envelope the policy turns away, or that is matched or surpassed here. */
  ghost predicate Dispensable(e: Envelope, rows: Rows, policy: Policy) {
    Fits(e, policy) ==> Height(rows, KeyOf(e)) >= e.body.version
  }

  /** The guards on what is not up to this node: an envelope that raises is not needed, and a peer whose
      store is rebuilt has no row this node needs under a number up to the mark. */
  ghost predicate Enabled(s: State, step: Step, policy: Policy) {
    match step
    case PeerGrows(_) => true
    case LocalOffer(_) => s.kept == |s.rows|
    case Fetch(limit) => s.flight.NoFlight? && limit > 0 && HonestPage(s.peer, s.mark, limit).next.Some?
    case StoreNext => s.flight.Page? && s.flight.done < |s.flight.bundles|
    case SkipNext(_) =>
      && s.flight.Page? && s.flight.done < |s.flight.bundles|
      && Dispensable(s.flight.bundles[s.flight.done], s.rows, policy)
    case PeerRebuilt(contents) =>
      && s.flight.NoFlight? && s.kept <= |s.rows| && s.mark <= |contents|
      && Caught(contents, s.rows[..s.kept], s.mark, policy)
    case CommitMark => s.flight.Page? && s.flight.done == |s.flight.bundles|
    case Crash => s.kept <= |s.rows|
  }

  /** The envelope in turn raises: it is passed over, and what was open may have been committed. */
  ghost function Skipped(s: State, committed: bool): State
    requires s.flight.Page?
  {
    s.(kept := if committed then |s.rows| else s.kept, flight := s.flight.(done := s.flight.done + 1))
  }

  ghost function Next(s: State, step: Step, policy: Policy): State
    requires Enabled(s, step, policy)
  {
    match step
    case PeerGrows(e) => s.(peer := s.peer + [e])
    case LocalOffer(e) =>
      var rows := Accept(s.rows, e, policy);
      s.(rows := rows, kept := |rows|)
    case Fetch(limit) =>
      var p := HonestPage(s.peer, s.mark, limit);
      s.(flight := Page(p.bundles, p.next.value, 0))
    case StoreNext =>
      // Each insert first commits what earlier inserts left open.
      var rows := Accept(s.rows, s.flight.bundles[s.flight.done], policy);
      s.(rows := rows, kept := if rows == s.rows then s.kept else |s.rows|,
         flight := s.flight.(done := s.flight.done + 1))
    case SkipNext(committed) => Skipped(s, committed)
    case PeerRebuilt(contents) => s.(peer := contents)
    case CommitMark =>
      s.(mark := if s.flight.next > s.mark then s.flight.next else s.mark, kept := |s.rows|, flight := NoFlight)
    case Crash => s.(rows := s.rows[..s.kept], flight := NoFlight)
  }

  /** The mark is justified by committed rows alone; a page in flight by the rows stored so far. */
  ghost predicate MarkSound(s: State, policy: Policy) {
    && s.kept <= |s.rows| && s.mark <= |s.peer|
    && Caught(s.peer, s.rows[..s.kept], s.mark, policy)
    && NowhereBehind(s.rows[..s.kept], s.rows)
    && (s.flight.Page? ==>
          && s.mark < s.flight.next <= |s.peer| && s.flight.bundles == s.peer[s.mark..s.flight.next]
          && s.flight.done <= |s.flight.bundles|
          && Caught(s.peer, s.rows, s.mark + s.flight.done, policy))
  }

  /** A node that has never pulled from the peer, whatever either of them holds. */
  lemma FreshMarkSound(peer: Rows, rows: Rows, policy: Policy)
    ensures MarkSound(State.State(peer, rows, |rows|, 0, NoFlight), policy)
  {
    assert rows[..|rows|] == rows;
  }

  lemma CaughtMonotone(peer: Rows, before: Rows, after: Rows, mark: nat, policy: Policy)
    requires Caught(peer, before, mark, policy) && NowhereBehind(before, after)
    ensures Caught(peer, after, mark, policy)
  {
  }

  lemma CaughtOneMore(peer: Rows, rows: Rows, mark: nat, policy: Policy)
    requires policy.Valid() && mark < |peer| && Caught(peer, rows, mark, policy)
    ensures NowhereBehind(rows, Accept(rows, peer[mark], policy))
    ensures Caught(peer, Accept(rows, peer[mark], policy), mark + 1, policy)
  {
    AcceptRaises(rows, peer[mark], policy);
    hide Height, Accept, Fits;
    assert NowhereBehind(rows, Accept(rows, peer[mark], policy));
  }

  /** Skipping an envelope keeps the mark sound exactly when the envelope was not needed: the caller can
      look it up before. */
  lemma SkipLosesIff(s: State, committed: bool, policy: Policy)
    requires MarkSound(s, policy) && s.flight.Page? && s.flight.done < |s.flight.bundles|
    ensures MarkSound(Skipped(s, committed), policy) <==> Dispensable(s.flight.bundles[s.flight.done], s.rows, policy)
  {
    var i := s.mark + s.flight.done;
    assert s.flight.bundles[s.flight.done] == s.peer[i];
    CaughtMonotone(s.peer, s.rows[..s.kept], s.rows, s.mark, policy);
    hide Height, Fits;
    assert s.rows[..|s.rows|] == s.rows;
  }

  /** A first pull of one envelope whose insert raises: the mark moves past it, and no later page of the
      peer has it. */
  lemma LostInsertMisses(e: Envelope, rows: Rows, limit: nat, policy: Policy)
    requires limit > 0 && !Dispensable(e, rows, policy)
    ensures var start := State.State([e], rows, |rows|, 0, NoFlight);
            && Enabled(start, Fetch(limit), policy)
            && (var t := Skipped(Next(start, Fetch(limit), policy), false);
                && Enabled(t, CommitMark, policy)
                && (var u := Next(t, CommitMark, policy);
                    && u.mark == 1 && !Caught(u.peer, u.rows, u.mark, policy)
                    && forall more: Rows, l: nat :: e in HonestPage([e] + more, u.mark, l).bundles ==> e in more))
  {
    var start := State.State([e], rows, |rows|, 0, NoFlight);
    var t := Skipped(Next(start, Fetch(limit), policy), false);
    var u := Next(t, CommitMark, policy);
    assert u.peer[0] == e && u.rows == rows;
    hide Fits, Height;
  }

  /** Rebuilding a peer's store starts its numbers again, and the mark has no epoch. Whatever the peer
      then takes in, nothing of it is lost to this node exactly when the new store is at least as long as
      the mark, and holds nothing up to it that is needed here. */
  lemma RebuiltPeerLosesIff(contents: Rows, rows: Rows, mark: nat, e: Envelope, policy: Policy)
    requires !Dispensable(e, rows, policy)
    ensures (forall more: Rows :: Caught(contents + more, rows, mark, policy))
       <==> mark <= |contents| && Caught(contents, rows, mark, policy)
  {
    hide Fits, Height;
    assert contents + [] == contents;
    if mark > |contents| {
      assert (contents + [e])[|contents|] == e;
      assert !Caught(contents + [e], rows, mark, policy);
    }
  }

  lemma StepKeepsMarkSound(s: State, step: Step, policy: Policy)
    requires policy.Valid() && MarkSound(s, policy) && Enabled(s, step, policy)
    ensures MarkSound(Next(s, step, policy), policy)
    ensures Next(s, step, policy).mark >= s.mark
  {
    hide Caught, Latest, Verify;
    CaughtMonotone(s.peer, s.rows[..s.kept], s.rows, s.mark, policy);
    assert s.rows[..|s.rows|] == s.rows;
    match step {
      case PeerGrows(e) =>
        CaughtGrows(s.peer, s.peer + [e], s.rows[..s.kept], s.mark, policy);
        if s.flight.Page? {
          CaughtGrows(s.peer, s.peer + [e], s.rows, s.mark + s.flight.done, policy);
        }
      case LocalOffer(e) =>
        AcceptRaises(s.rows, e, policy);
        var rows := Accept(s.rows, e, policy);
        assert rows[..|rows|] == rows;
        CaughtMonotone(s.peer, s.rows, rows, s.mark, policy);
        if s.flight.Page? {
          CaughtMonotone(s.peer, s.rows, rows, s.mark + s.flight.done, policy);
        }
      case Fetch(limit) =>
      case StoreNext =>
        var e := s.flight.bundles[s.flight.done];
        assert e == s.peer[s.mark + s.flight.done];
        CaughtOneMore(s.peer, s.rows, s.mark + s.flight.done, policy);
        var rows := Accept(s.rows, e, policy);
        assert rows[..|s.rows|] == s.rows;
      case SkipNext(committed) =>
        SkipLosesIff(s, committed, policy);
      case PeerRebuilt(_) =>
      case CommitMark =>
      case Crash =>
        assert s.rows[..s.kept][..s.kept] == s.rows[..s.kept];
    }
  }

  ghost predicate Run(s: State, steps: seq<Step>, policy: Policy)
    decreases |steps|
  {
    steps == [] || (Enabled(s, steps[0], policy) && Run(Next(s, steps[0], policy), steps[1..], policy))
  }

  ghost function After(s: State, steps: seq<Step>, policy: Policy): State
    requires Run(s, steps, policy)
    decreases |steps|
  {
    if steps == [] then s else After(Next(s, steps[0], policy), steps[1..], policy)
  }

  /** From the first pull on: everything the peer holds up to the mark that our policy lets in is
      matched or surpassed here, at any point of any run, crashes included. */
  lemma MarkSoundFromStart(peer: Rows, rows: Rows, steps: seq<Step>, policy: Policy)
    requires policy.Valid() && Run(State.State(peer, rows, |rows|, 0, NoFlight), steps, policy)
    ensures var e := After(State.State(peer, rows, |rows|, 0, NoFlight), steps, policy);
            Caught(e.peer, e.rows, e.mark, policy)
  {
    FreshMarkSound(peer, rows, policy);
    hide MarkSound, Run, After, Caught;
    MarkAlwaysSound(State.State(peer, rows, |rows|, 0, NoFlight), steps, policy);
  }

  /** Whatever happens in between, crashes included: the mark never moves back, and everything the
      peer holds up to it that our policy lets in is matched or surpassed here. */
  lemma {:induction false} MarkAlwaysSound(s: State, steps: seq<Step>, policy: Policy)
    requires policy.Valid() && MarkSound(s, policy) && Run(s, steps, policy)
    ensures var e := After(s, steps, policy);
            e.mark >= s.mark && MarkSound(e, policy) && Caught(e.peer, e.rows, e.mark, policy)
    decreases |steps|
  {
    if steps == [] {
      CaughtMonotone(s.peer, s.rows[..s.kept], s.rows, s.mark, policy);
    } else {
      hide MarkSound, Enabled, Caught;
      StepKeepsMarkSound(s, steps[0], policy);
      MarkAlwaysSound(Next(s, steps[0], policy), steps[1..], policy);
    }
  }
}
