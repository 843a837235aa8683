/**
 The page-index pull protocol: a consumer probes a producer's epoch, fetches a bundle, ingests it and
 then writes its cursor, while the producer keeps indexing, labelling, or rebuilds its database.
 */
module IndexPull {
  import opened Wrappers
  import opened Seqs
  import opened PageIndex
  import opened LocalIndex

  // ---------- The decisions of one pull ----------

  /** Where to read from: the saved cursor, or 0 when the probe shows a new epoch. */
  function EffectiveSince(cursor: int, lastEpoch: string, probe: Option<string>): int {
    if probe.Some? && lastEpoch != "" && probe.value != "" && probe.value != lastEpoch then 0 else cursor
  }

  /** A bundle from a new epoch read from a stale cursor is not ingested. */
  predicate StaleCursor(lastEpoch: string, bundleEpoch: string, since: int) {
    lastEpoch != "" && bundleEpoch != "" && bundleEpoch != lastEpoch && since != 0
  }

  function CursorAfter(until: int, since: int): int {
    if until == 0 then since else until
  }

  function EpochAfter(bundleEpoch: string, lastEpoch: string): string {
    if bundleEpoch != "" then bundleEpoch else lastEpoch
  }

  // ---------- Producer and consumer as one system ----------

  /** What the consumer keeps of a fetched bundle. */
  datatype Shipment = Shipment(until: int, epoch: string, pages: seq<Page>)

  /** A signed bundle that has left the producer: its window starts after `since`; `generation` counts
      the page-table rebuilds the producer had been through. Whoever saw it can send it again. */
  datatype Built = Built(since: int, generation: nat, shipment: Shipment)

  datatype Pull =
    | Idle
    | Probed(since: int)
    | Fetched(from: int, shipment: Shipment)
    | Ingested(start: int, end: int, ofEpoch: string)

  /** `high` is the largest rowid ever handed out in the producer's current epoch. */
  datatype System = System(
    producer: Tables, epoch: string, used: set<string>, high: nat, generation: nat, wild: set<Built>,
    consumer: Tables, cursor: int, lastEpoch: string, pull: Pull)

  /** Parameters that never change: each side's junk filter, the page annotations, the producer's key. */
  datatype Env = Env(producerJunk: Junk, junk: Junk, notes: Annotations, source: Attribution)

  datatype Step =
    | Produce(act: Act)
    | NewEpoch(newEpoch: string, contents: Tables)
    | Local(act: Act)
    | Answer(since: int, limit: int)
    | Probe(answered: bool)
    | FetchBundle(limit: int)
    | Replay(w: Built)
    | ResetCursor
    | IngestShipment(luck: Luck)
    | WriteCursor
    | Crash
    | ResetOrphan

  /** A producer row its readers are owed. */
  predicate Owed(t: Tables, r: PageRow, env: Env) {
    Shareable(t.meta, r.url) && r.url != "" && !env.junk(r.title)
  }

  ghost predicate Held(t: Tables, url: string) {
    t.Tombstoned(url) || t.HasPage(url)
  }

  function Top(pages: seq<PageRow>): nat {
    if pages == [] then 0 else pages[|pages| - 1].rowid
  }

  /** Rowids are handed out without a gap below the newest one, so deleting and re-inserting the
      newest row gives it its old number back. */
  ghost predicate TopAdjacent(pages: seq<PageRow>) {
    && (|pages| == 1 ==> pages[0].rowid == 1)
    && (|pages| > 1 ==> pages[|pages| - 2].rowid + 1 == pages[|pages| - 1].rowid)
  }

  function Act1(t: Tables, a: Act, junk: Junk): Tables {
    Perform(Node(t, {}), a, junk).t
  }

  // ---------- What a producer may do without losing readers ----------

  /** `q` was owed under no higher a number than `r` has now, for the same page. */
  ghost predicate OwedBefore(before: Tables, r: PageRow, env: Env) {
    exists q :: q in before.pages && q.url == r.url && q.rowid <= r.rowid && Owed(before, q, env)
  }

  /** The exact condition on a change under one epoch: a row owed after it, under a number some reader
      may already have passed, was owed before under no higher a number. */
  ghost predicate Fair(high: nat, before: Tables, after: Tables, env: Env) {
    forall r :: r in after.pages && Owed(after, r, env) && r.rowid <= high ==> OwedBefore(before, r, env)
  }

  /** Rows numbered up to the newest one keep their numbers. */
  ghost predicate Steady(before: Tables, after: Tables, env: Env) {
    && Top(before.pages) <= Top(after.pages)
    && forall r :: r in after.pages && Owed(after, r, env) && r.rowid <= Top(before.pages) ==>
         exists q :: q in before.pages && q.url == r.url && q.rowid == r.rowid && Owed(before, q, env)
  }

  predicate Sharing(scope: Scope) {
    scope == Friends || scope == Public
  }

  /** The label, if there is one, neither forbids sharing nor makes the page a peer's. */
  predicate LabelAllows(meta: map<string, Meta>, url: string) {
    url !in meta || (!meta[url].deleted && meta[url].source != PeerIngest)
  }

  ghost predicate HeldClean(t: Tables, url: string, env: Env) {
    exists r :: r in t.pages && r.url == url && !env.junk(r.title)
  }

  ghost predicate HeldOwed(t: Tables, url: string, env: Env) {
    exists r :: r in t.pages && r.url == url && Owed(t, r, env)
  }

  /** The number a re-indexed page gets. */
  function FreshNumber(t: Tables, url: string): nat {
    if t.pages != [] && t.pages[|t.pages| - 1].url == url then Top(t.pages) else Top(t.pages) + 1
  }

  /** Whether a page that `index_page` gets is shared afterwards. */
  predicate OpenAfter(t: Tables, url: string, scope: Scope, sidecar: Sidecar) {
    match sidecar
    case NoRow => false
    case NoLabel => Shareable(t.meta, url)
    case _ => Sharing(scope) && !t.Tombstoned(url)
  }

  /** No page about to be stored is opened by its label under a number somebody may have passed. */
  ghost predicate NoneOpened(t: Tables, high: nat, stored: seq<Page>, env: Env) {
    forall i :: 0 <= i < |stored| && NextRowid(t.pages) + i <= high ==>
      !Own(t.meta, stored[i].url) || env.junk(stored[i].title)
  }

  /** What decides it beforehand: the tables, and the largest number handed out so far. That number is in
      no table; it is the newest row's unless a rebuild has shrunk the table in this epoch. A page that is
      ingested or re-indexed, and that readers will be owed, gets a number nobody has reached, or was owed
      all along; labelling does not open a page readers have passed; a backfill finds nothing to open; a
      rebuild gives no owed page a number readers have passed, unless it was owed under one no higher. */
  ghost predicate Harmless(t: Tables, high: nat, a: Act, env: Env) {
    match a
    case Ingest(pages, _, luck) =>
      NoneOpened(t, high, NewPages(t, pages, env.producerJunk, luck), env)
    case Fetch(p, scope, sidecar) =>
      p.url != "" && !env.producerJunk(p.title) && !env.junk(p.title) && OpenAfter(t, p.url, scope, sidecar) ==>
        FreshNumber(t, p.url) > high || HeldOwed(t, p.url, env)
    case Share(url, scope) =>
      !(Sharing(scope) && url != "" && !Shareable(t.meta, url) && LabelAllows(t.meta, url) && HeldClean(t, url, env))
    case Tombstone(_) => true
    case Backfill => forall r :: r in t.pages ==> r.url == "" || r.url in t.meta || env.junk(r.title)
    case Reindex(files) =>
      forall r :: r in FileRows(files) && r.rowid <= high && Shareable(t.meta, r.url) && !env.junk(r.title) ==>
        OwedBefore(t, r, env)
  }

  /** A consumer's own rebuild drops nothing it holds. */
  ghost predicate KeepsAll(t: Tables, files: seq<PageFile>) {
    forall r :: r in t.pages ==> t.Tombstoned(r.url) || r.url == "" || OnDisk(files, r.url)
  }

  // ---------- The steps ----------

  function Shipped(s: System, since: int, limit: int, env: Env): Shipment {
    var until := Until(s.producer.pages, s.producer.meta, since, Clamp(limit));
    Shipment(until, s.epoch, PagesOf(Window(s.producer.pages, s.producer.meta, since, until), env.notes))
  }

  function MaxNat(a: nat, b: nat): nat {
    if a >= b then a else b
  }

  /** The producer's tables change under one epoch. */
  function Changed(s: System, after: Tables, rebuilt: bool): System {
    s.(producer := after, high := MaxNat(s.high, Top(after.pages)),
       generation := if rebuilt then s.generation + 1 else s.generation)
  }

  /** What is in flight once a reply arrives: a bundle whose window spans too much is rejected. */
  function Received(s: System, asked: int, windowStart: int, b: Shipment): System {
    s.(pull := if b.until - windowStart <= MAX_BUNDLE_CURSOR_ADVANCE then Fetched(asked, b) else Idle)
  }

  /** The guards: producer changes are harmless, a consumer's rebuild drops nothing, and a replayed
      bundle, or one whose pages could not all be written, is complete for the cursor asked from. */
  ghost predicate Enabled(s: System, step: Step, env: Env) {
    match step
    case Produce(a) => Harmless(s.producer, s.high, a, env) && (a.Reindex? ==> DistinctFiles(a.files))
    case NewEpoch(e, t) => e != "" && e !in s.used && t.Valid() && TopAdjacent(t.pages)
    case Local(a) => a.Reindex? ==> DistinctFiles(a.files) && KeepsAll(s.consumer, a.files)
    case Answer(_, _) => true
    case Probe(_) => s.pull.Idle?
    case FetchBundle(_) => s.pull.Probed?
    case Replay(w) =>
      && s.pull.Probed? && w in s.wild
      && (w.shipment.epoch == s.epoch && !StaleCursor(s.lastEpoch, s.epoch, s.pull.since) ==>
            ShipmentComplete(s, s.pull.since, w.shipment, ALL_WRITTEN, env))
    case ResetCursor => s.pull.Fetched? && StaleCursor(s.lastEpoch, s.pull.shipment.epoch, s.pull.from)
    case IngestShipment(luck) =>
      && s.pull.Fetched? && !StaleCursor(s.lastEpoch, s.pull.shipment.epoch, s.pull.from)
      && (s.pull.shipment.epoch == s.epoch ==> ShipmentComplete(s, s.pull.from, s.pull.shipment, luck, env))
    case WriteCursor => s.pull.Ingested?
    case Crash => true
    case ResetOrphan => s.pull.Idle?
  }

  function Next(s: System, step: Step, env: Env): System {
    match step
    case Produce(a) => Changed(s, Act1(s.producer, a, env.producerJunk), a.Reindex?)
    case NewEpoch(e, t) => s.(producer := t, epoch := e, used := s.used + {e}, high := Top(t.pages), generation := 0)
    case Local(a) => s.(consumer := Act1(s.consumer, a, env.junk))
    case Answer(since, limit) => s.(wild := s.wild + {Built(since, s.generation, Shipped(s, since, limit, env))})
    case Probe(answered) =>
      s.(pull := Probed(EffectiveSince(s.cursor, s.lastEpoch, if answered then Some(s.epoch) else None)))
    case FetchBundle(limit) =>
      if !s.pull.Probed? then s
      else Received(s, s.pull.since, s.pull.since, Shipped(s, s.pull.since, limit, env))
    case Replay(w) =>
      if !s.pull.Probed? then s else Received(s, s.pull.since, w.since, w.shipment)
    case ResetCursor =>
      if !s.pull.Fetched? then s else s.(cursor := 0, lastEpoch := s.pull.shipment.epoch, pull := Idle)
    case IngestShipment(luck) =>
      if !s.pull.Fetched? then s
      else
        var b := s.pull.shipment;
        s.(consumer := IngestAll(s.consumer, b.pages, env.source, env.junk, luck),
          pull := Ingested(s.pull.from, b.until, b.epoch))
    case WriteCursor =>
      if !s.pull.Ingested? then s
      else s.(cursor := CursorAfter(s.pull.end, s.pull.start), lastEpoch := EpochAfter(s.pull.ofEpoch, s.lastEpoch),
        pull := Idle)
    case Crash => s.(pull := Idle)
    case ResetOrphan => s.(cursor := 0, lastEpoch := "")
  }

  // ---------- The invariant ----------

  ghost predicate HeldUpTo(s: System, cursor: int, env: Env) {
    forall r :: r in s.producer.pages && Owed(s.producer, r, env) && r.rowid <= cursor ==> Held(s.consumer, r.url)
  }

  /** What a bundle must do for a reader that asked from `since`, the writes of `luck` going through: end
      at a number that has been handed out, and bring whatever is owed in between and not held. */
  ghost predicate ShipmentComplete(s: System, since: int, b: Shipment, luck: Luck, env: Env) {
    && b.until <= s.high
    && forall r :: r in s.producer.pages && Owed(s.producer, r, env) && since < r.rowid <= b.until ==>
         Lands(b.pages, r.url, env.junk, luck) || Held(s.consumer, r.url)
  }

  ghost predicate Tidy(s: System) {
    && s.producer.Valid() && TopAdjacent(s.producer.pages) && s.consumer.Valid()
    && Top(s.producer.pages) <= s.high
    && s.epoch in s.used && "" !in s.used && (s.lastEpoch == "" || s.lastEpoch in s.used)
    && (s.lastEpoch == "" ==> s.cursor == 0)
  }

  ghost predicate NoMiss(s: System, env: Env) {
    s.lastEpoch == s.epoch ==> s.cursor <= s.high && HeldUpTo(s, s.cursor, env)
  }

  /** A bundle of the current generation lists all that its window owes. */
  ghost predicate Lists(t: Tables, w: Built, env: Env) {
    && (w.shipment.until > w.since ==> w.shipment.until <= Top(t.pages))
    && forall r :: r in t.pages && Owed(t, r, env) && w.since < r.rowid <= w.shipment.until ==>
         Lands(w.shipment.pages, r.url, env.junk, ALL_WRITTEN)
  }

  ghost predicate WildSound(s: System, env: Env) {
    forall w :: w in s.wild ==>
      && w.shipment.until >= w.since && w.shipment.epoch in s.used
      && (w.shipment.epoch == s.epoch ==> w.generation <= s.generation)
      && (w.shipment.epoch == s.epoch && w.generation == s.generation ==> Lists(s.producer, w, env))
  }

  ghost predicate PullSound(s: System, env: Env) {
    match s.pull
    case Idle => true
    case Probed(since) => since == 0 || since == s.cursor
    case Fetched(since, b) =>
      && (since == 0 || since == s.cursor) && b.epoch in s.used
      && (b.epoch == s.epoch && !StaleCursor(s.lastEpoch, b.epoch, since) ==>
           ShipmentComplete(s, since, b, ALL_WRITTEN, env))
    case Ingested(start, until, e) =>
      && e in s.used
      && (e == s.epoch ==> CursorAfter(until, start) <= s.high && HeldUpTo(s, CursorAfter(until, start), env))
  }

  ghost predicate Inv(s: System, env: Env) {
    Tidy(s) && NoMiss(s, env) && PullSound(s, env) && WildSound(s, env)
  }

  // ---------- Numbers and holdings ----------

  /** Nothing but a rebuild drops a page or a tombstone. */
  lemma ActKeepsHeld(t: Tables, a: Act, junk: Junk)
    requires t.Valid() && !a.Reindex?
    ensures Act1(t, a, junk).Valid()
    ensures forall u :: Held(t, u) ==> Held(Act1(t, a, junk), u)
  {
    var after := Act1(t, a, junk);
    match a {
      case Ingest(pages, source, luck) =>
        IngestSafe(t, pages, source, junk, luck);
        forall u | Held(t, u) ensures Held(after, u) {
          if i :| 0 <= i < |t.pages| && t.pages[i].url == u {
            assert after.pages[i].url == u;
          }
        }
      case Fetch(p, scope, sidecar) =>
        FetchedValid(t, p, scope, junk, sidecar);
        forall u | Held(t, u) ensures Held(after, u) {
          FetchedHas(t, p, scope, junk, sidecar, u);
        }
      case Share(url, scope) =>
        assert after.pages == t.pages;
        assert forall u :: t.HasPage(u) ==> after.HasPage(u);
      case Tombstone(url) =>
        assert after.pages == t.pages;
        assert forall u :: t.HasPage(u) ==> after.HasPage(u);
      case Backfill =>
        assert after.pages == t.pages;
        assert forall u :: t.HasPage(u) ==> after.HasPage(u);
    }
  }

  /** A rebuild keeps everything held exactly when every live page is on disk. */
  lemma ReindexKeepsHeldIff(t: Tables, files: seq<PageFile>)
    ensures DistinctFiles(files) ==> Reindexed(t, files).Valid()
    ensures (forall u :: u != "" && Held(t, u) ==> Held(Reindexed(t, files), u)) <==> KeepsAll(t, files)
  {
    var after := Reindexed(t, files);
    FileRowsExact(files);
    assert forall u :: after.HasPage(u) <==> HasRow(FileRows(files), u);
    hide FileRows, HasRow, OnDisk, DistinctFiles;
    forall r | r in t.pages ensures Held(t, r.url) {
      HasPageMember(t, r.url);
    }
    forall u | t.HasPage(u) ensures exists r :: r in t.pages && r.url == u {
      HasPageMember(t, u);
    }
  }

  lemma {:induction false} RemoveUrl(pages: seq<PageRow>, k: nat)
    requires DistinctUrls(pages) && k < |pages|
    ensures Filter(pages, NotUrl(pages[k].url)) == pages[..k] + pages[k + 1..]
    decreases k
  {
    if k == 0 {
      assert forall r :: r in pages[1..] ==> r.url != pages[0].url;
      FilterAll(pages[1..], NotUrl(pages[0].url));
    } else {
      RemoveUrl(pages[1..], k - 1);
      assert pages[1..][..k - 1] == pages[1..k] && pages[1..][k..] == pages[k + 1..];
      assert [pages[0]] + (pages[1..k] + pages[k + 1..]) == pages[..k] + pages[k + 1..];
    }
  }

  /** The rowid a re-indexed page gets: its old one if it was the newest row, a new one otherwise. */
  lemma FetchedRowid(t: Tables, url: string)
    requires t.Valid() && TopAdjacent(t.pages)
    ensures var others := Filter(t.pages, NotUrl(url));
            && NextRowid(others)
               == (if t.pages != [] && t.pages[|t.pages| - 1].url == url then Top(t.pages) else Top(t.pages) + 1)
            && (others != [] ==> Top(others) + 1 == NextRowid(others))
            && (others == [] ==> NextRowid(others) == 1)
  {
    if k :| 0 <= k < |t.pages| && t.pages[k].url == url {
      RemoveUrl(t.pages, k);
    } else {
      FilterAll(t.pages, NotUrl(url));
    }
    hide Filter, DistinctUrls;
  }

  /** `after` holds `before`'s rows first, and numbers the others above them. */
  ghost predicate Grows(before: seq<PageRow>, after: seq<PageRow>) {
    && TopAdjacent(after)
    && before <= after
    && Top(before) <= Top(after)
    && forall i :: |before| <= i < |after| ==> after[i].rowid > Top(before)
  }

  lemma GrowsByOne(before: seq<PageRow>, pages: seq<PageRow>, row: PageRow)
    requires Grows(before, pages) && row.rowid == NextRowid(pages)
    ensures Grows(before, pages + [row])
  {
  }

  lemma {:induction false} IngestKeepsTop(t: Tables, pages: seq<Page>, source: Attribution, junk: Junk, luck: Luck)
    requires TopAdjacent(t.pages)
    ensures Grows(t.pages, IngestAll(t, pages, source, junk, luck).pages)
    decreases |pages|
  {
    hide Grows, TopAdjacent, Tables.HasPage, Tables.Tombstoned, SetMeta;
    if pages == [] {
      GrowsRefl(t.pages);
    } else {
      var before := IngestAll(t, pages[..|pages| - 1], source, junk, luck);
      IngestKeepsTop(t, pages[..|pages| - 1], source, junk, luck);
      var p := pages[|pages| - 1];
      GrowsByOne(t.pages, before.pages, PageRow(NextRowid(before.pages), p.url, p.title, p.fetchedAt));
    }
  }

  lemma GrowsRefl(pages: seq<PageRow>)
    requires TopAdjacent(pages)
    ensures Grows(pages, pages)
  {
  }

  /** No activity of a node short of a rebuild ever lowers its newest rowid. */
  lemma ActKeepsTop(t: Tables, a: Act, junk: Junk)
    requires t.Valid() && TopAdjacent(t.pages) && !a.Reindex?
    ensures TopAdjacent(Act1(t, a, junk).pages)
    ensures Top(t.pages) <= Top(Act1(t, a, junk).pages)
  {
    match a {
      case Ingest(pages, source, luck) =>
        IngestKeepsTop(t, pages, source, junk, luck);
      case Fetch(p, scope, sidecar) =>
        FetchedRowid(t, p.url);
        hide Filter;
      case Share(url, scope) =>
      case Tombstone(url) =>
      case Backfill =>
    }
  }

  // ---------- The exact guards ----------

  lemma SameShareable(before: map<string, Meta>, after: map<string, Meta>, url: string)
    requires SameLabel(before, after, url)
    ensures Shareable(before, url) <==> Shareable(after, url)
  {
  }

  /** An old row is owed after an ingest when it was before; a new one when its URL carried a label. */
  lemma IngestOwed(t: Tables, pages: seq<Page>, source: Attribution, luck: Luck, env: Env)
    requires t.Valid()
    ensures var after := IngestAll(t, pages, source, env.producerJunk, luck);
            var stored := NewPages(t, pages, env.producerJunk, luck);
            && after.pages == t.pages + Numbered(stored, NextRowid(t.pages))
            && (forall r :: r in t.pages ==> (Owed(after, r, env) <==> Owed(t, r, env)))
            && (forall i :: 0 <= i < |stored| ==>
                  var r := Numbered(stored, NextRowid(t.pages))[i];
                  && r.rowid == NextRowid(t.pages) + i
                  && (Owed(after, r, env) <==> Own(t.meta, stored[i].url) && !env.junk(stored[i].title))
                  && !OwedBefore(t, r, env))
  {
    var after := IngestAll(t, pages, source, env.producerJunk, luck);
    var stored := NewPages(t, pages, env.producerJunk, luck);
    IngestAppends(t, pages, source, env.producerJunk, luck);
    IngestLabels(t, pages, source, env.producerJunk, luck);
    NewPagesAreNew(t, pages, env.producerJunk, luck);
    hide IngestAll, NewPages, Shareable, Own, SameLabel, NextRowid, InRowidOrder, DistinctUrls;
    forall r | r in t.pages ensures Owed(after, r, env) <==> Owed(t, r, env) {
      HasPageMember(t, r.url);
      assert !Listed(stored, r.url);
      SameShareable(t.meta, after.meta, r.url);
    }
    forall i | 0 <= i < |stored|
      ensures var r := Numbered(stored, NextRowid(t.pages))[i];
              && r.rowid == NextRowid(t.pages) + i
              && (Owed(after, r, env) <==> Own(t.meta, stored[i].url) && !env.junk(stored[i].title))
              && !OwedBefore(t, r, env)
    {
      HasPageMember(t, stored[i].url);
      assert Listed(stored, stored[i].url);
    }
  }

  /** Ingesting keeps every reader whole exactly when no page it stores, under a label that opens it,
      gets a number readers have passed. */
  lemma IngestFairIff(t: Tables, high: nat, pages: seq<Page>, source: Attribution, luck: Luck, env: Env)
    requires t.Valid() && Top(t.pages) <= high
    ensures var after := Act1(t, Ingest(pages, source, luck), env.producerJunk);
            && (Fair(high, t, after, env) <==> Harmless(t, high, Ingest(pages, source, luck), env))
            && (Top(t.pages) <= Top(after.pages) ==> Steady(t, after, env))
  {
    var after := IngestAll(t, pages, source, env.producerJunk, luck);
    var stored := NewPages(t, pages, env.producerJunk, luck);
    assert after == Act1(t, Ingest(pages, source, luck), env.producerJunk);
    IngestOwed(t, pages, source, luck, env);
    OldNumbers(t, high);
    assert NextRowid(t.pages) == Top(t.pages) + 1;
    var more := Numbered(stored, NextRowid(t.pages));
    assert |more| == |stored|;
    hide *;
    AppendedFairIff(t, high, after, more, env);
    HarmlessIngest(t, high, pages, source, luck, env);
  }

  /** When rows are appended above all others, and the others are left as they were. */
  lemma AppendedFairIff(t: Tables, high: nat, after: Tables, more: seq<PageRow>, env: Env)
    requires Top(t.pages) <= high && after.pages == t.pages + more
    requires forall r :: r in t.pages ==> r.rowid <= Top(t.pages) && (Owed(after, r, env) <==> Owed(t, r, env))
    requires forall i :: 0 <= i < |more| ==> more[i].rowid == Top(t.pages) + 1 + i && !OwedBefore(t, more[i], env)
    ensures Fair(high, t, after, env)
       <==> forall i :: 0 <= i < |more| && Top(t.pages) + 1 + i <= high ==> !Owed(after, more[i], env)
    ensures Top(t.pages) <= Top(after.pages) ==> Steady(t, after, env)
  {
    hide Owed;
    forall r | r in t.pages && Owed(t, r, env) ensures OwedBefore(t, r, env) {
    }
    hide OwedBefore;
    assert forall r :: r in after.pages <==> r in t.pages || r in more;
    assert forall i :: 0 <= i < |more| ==> more[i] in more;
    forall i | Fair(high, t, after, env) && 0 <= i < |more| && Top(t.pages) + 1 + i <= high
      ensures !Owed(after, more[i], env)
    {
      assert more[i] in after.pages;
    }
  }

  lemma HarmlessIngest(t: Tables, high: nat, pages: seq<Page>, source: Attribution, luck: Luck, env: Env)
    ensures var stored := NewPages(t, pages, env.producerJunk, luck);
            (Harmless(t, high, Ingest(pages, source, luck), env) <==> NoneOpened(t, high, stored, env))
  {
    hide NewPages, NoneOpened;
  }

  /** Tombstoning always does. */
  lemma TombstoneFair(t: Tables, high: nat, url: string, env: Env)
    requires t.Valid() && Top(t.pages) <= high
    ensures var after := Act1(t, Tombstone(url), env.producerJunk); Fair(high, t, after, env) && Steady(t, after, env)
  {
    OldNumbers(t, high);
    SamePagesFairIff(t, high, Act1(t, Tombstone(url), env.producerJunk), env);
    hide Fair, Steady;
  }

  lemma OldNumbers(t: Tables, high: nat)
    requires t.Valid() && Top(t.pages) <= high
    ensures forall r :: r in t.pages ==> r.rowid <= Top(t.pages) <= high
    ensures forall r, q :: r in t.pages && q in t.pages && r.url == q.url ==> r == q
  {
  }

  /** Labelling a page keeps every reader whole exactly when it does not open, to readers who have
      passed it, a clean page the node holds: every word of that can be checked before the call. */
  lemma ShareFairIff(t: Tables, high: nat, url: string, scope: Scope, env: Env)
    requires t.Valid() && Top(t.pages) <= high
    ensures var after := Act1(t, Share(url, scope), env.producerJunk);
            (Fair(high, t, after, env) <==> Harmless(t, high, Share(url, scope), env))
  {
    var after := Act1(t, Share(url, scope), env.producerJunk);
    assert after.pages == t.pages;
    OldNumbers(t, high);
    hide Fair, OwedBefore;
    assert Shareable(after.meta, url) <==> Sharing(scope) && LabelAllows(t.meta, url);
    SamePagesFairIff(t, high, after, env);
    if HeldClean(t, url, env) {
      var r :| r in t.pages && r.url == url && !env.junk(r.title);
      assert Owed(after, r, env) <==> Shareable(after.meta, url) && url != "";
    }
  }

  /** When only labels change, fairness is that no held row becomes owed. */
  lemma SamePagesFairIff(t: Tables, high: nat, after: Tables, env: Env)
    requires t.Valid() && Top(t.pages) <= high && after.pages == t.pages
    ensures Fair(high, t, after, env) <==> forall r :: r in t.pages && Owed(after, r, env) ==> Owed(t, r, env)
    ensures Fair(high, t, after, env) ==> Steady(t, after, env)
  {
    OldNumbers(t, high);
    hide Owed;
    if Fair(high, t, after, env) {
      forall r | r in t.pages && Owed(after, r, env) ensures Owed(t, r, env) {
        assert OwedBefore(t, r, env);
      }
    }
  }

  /** The documented backfill keeps every reader whole exactly when no page without a label is held. */
  lemma BackfillFairIff(t: Tables, high: nat, env: Env)
    requires t.Valid() && Top(t.pages) <= high
    ensures Fair(high, t, Act1(t, Backfill, env.producerJunk), env) <==> Harmless(t, high, Backfill, env)
  {
    var after := Act1(t, Backfill, env.producerJunk);
    assert after == Backfilled(t);
    hide Fair, OwedBefore, Owed, Backfilled;
    SamePagesFairIff(t, high, after, env);
    forall r | r in t.pages
      ensures Owed(after, r, env) && !Owed(t, r, env) <==> r.url != "" && r.url !in t.meta && !env.junk(r.title)
    {
      BackfillOwed(t, r, env);
    }
  }

  lemma BackfillOwed(t: Tables, r: PageRow, env: Env)
    requires r in t.pages
    ensures Owed(Backfilled(t), r, env) <==> Owed(t, r, env) || (r.url != "" && r.url !in t.meta && !env.junk(r.title))
    ensures r.url !in t.meta ==> !Owed(t, r, env)
  {
  }

  /** Rebuilding the page table keeps every reader whole exactly when no owed page gets a number readers
      have passed without having been owed under one no higher. */
  lemma ReindexFairIff(t: Tables, high: nat, files: seq<PageFile>, env: Env)
    ensures Fair(high, t, Act1(t, Reindex(files), env.producerJunk), env) <==> Harmless(t, high, Reindex(files), env)
  {
    hide OwedBefore, FileRows;
    assert forall r :: r in FileRows(files) ==> r.url != "";
  }

  /** Re-indexing a page leaves every other row as it was. */
  lemma FetchOthers(t: Tables, p: Page, scope: Scope, sidecar: Sidecar, env: Env)
    requires p.url != "" && !env.producerJunk(p.title) && !sidecar.NoRow?
    ensures var after := Act1(t, Fetch(p, scope, sidecar), env.producerJunk);
            forall r :: r in Filter(t.pages, NotUrl(p.url)) ==>
              r in t.pages && r.url != p.url && Owed(t, r, env) == Owed(after, r, env)
  {
  }

  lemma FetchTaken(t: Tables, p: Page, scope: Scope, sidecar: Sidecar, env: Env)
    requires t.Valid() && TopAdjacent(t.pages) && p.url != "" && !env.producerJunk(p.title) && !sidecar.NoRow?
    ensures var after := Act1(t, Fetch(p, scope, sidecar), env.producerJunk);
            var row := PageRow(FreshNumber(t, p.url), p.url, p.title, p.fetchedAt);
            && after.pages == Filter(t.pages, NotUrl(p.url)) + [row]
            && (Owed(after, row, env) <==> OpenAfter(t, p.url, scope, sidecar) && !env.junk(p.title))
  {
    FetchedRowid(t, p.url);
    hide Filter;
  }

  lemma FetchIgnored(t: Tables, p: Page, scope: Scope, sidecar: Sidecar, env: Env)
    requires p.url == "" || env.producerJunk(p.title) || sidecar.NoRow?
    ensures Act1(t, Fetch(p, scope, sidecar), env.producerJunk) == t
  {
  }

  lemma SameTablesFair(t: Tables, high: nat, env: Env)
    ensures Fair(high, t, t, env) && Steady(t, t, env)
  {
    hide Owed;
  }

  /** Re-indexing a page keeps every reader whole exactly when readers will not be owed it, or it gets
      a number none has reached, or it was owed to them all along. */
  lemma FetchFairIff(t: Tables, high: nat, p: Page, scope: Scope, sidecar: Sidecar, env: Env)
    requires t.Valid() && TopAdjacent(t.pages) && Top(t.pages) <= high
    ensures var after := Act1(t, Fetch(p, scope, sidecar), env.producerJunk);
            && (Fair(high, t, after, env) <==> Harmless(t, high, Fetch(p, scope, sidecar), env))
            && (Fair(high, t, after, env) ==> Steady(t, after, env))
  {
    if p.url == "" || env.producerJunk(p.title) || sidecar.NoRow? {
      FetchIgnored(t, p, scope, sidecar, env);
      SameTablesFair(t, high, env);
    } else {
      var row := PageRow(FreshNumber(t, p.url), p.url, p.title, p.fetchedAt);
      var after := Act1(t, Fetch(p, scope, sidecar), env.producerJunk);
      FetchTaken(t, p, scope, sidecar, env);
      FetchOthers(t, p, scope, sidecar, env);
      ActKeepsTop(t, Fetch(p, scope, sidecar), env.producerJunk);
      OwnNumber(t, p.url, row, env);
      hide Act1, Filter;
      OneRowFairIff(t, high, after, row, env);
    }
  }

  /** When one row is written and the others are left as they were, fairness is about that row. */
  lemma OneRowFairIff(t: Tables, high: nat, after: Tables, row: PageRow, env: Env)
    requires t.Valid() && Top(t.pages) <= high && Top(t.pages) <= Top(after.pages) && row in after.pages
    requires forall r :: r in after.pages && r != row ==> r in t.pages && Owed(t, r, env) == Owed(after, r, env)
    ensures Fair(high, t, after, env) <==> (Owed(after, row, env) && row.rowid <= high ==> OwedBefore(t, row, env))
    ensures Fair(high, t, after, env)
            && (row.rowid <= Top(t.pages) ==> forall q :: q in t.pages && q.url == row.url ==> q.rowid == row.rowid)
            ==> Steady(t, after, env)
  {
    hide Owed;
  }

  /** A page that is held has a number no higher than it would get afresh; the newest keeps its own. */
  lemma OwnNumber(t: Tables, url: string, row: PageRow, env: Env)
    requires t.Valid() && row.url == url && row.rowid == FreshNumber(t, url)
    ensures OwedBefore(t, row, env) <==> HeldOwed(t, url, env)
    ensures row.rowid <= Top(t.pages) ==> forall q :: q in t.pages && q.url == url ==> q.rowid == row.rowid
  {
    OldNumbers(t, Top(t.pages));
    hide Owed;
    if t.pages != [] {
      assert t.pages[|t.pages| - 1] in t.pages;
    }
  }

  /** Whatever a producer does under one epoch, what it can check beforehand is exactly whether all of
      its readers stay whole. */
  lemma HarmlessIsFair(t: Tables, high: nat, a: Act, env: Env)
    requires t.Valid() && TopAdjacent(t.pages) && Top(t.pages) <= high
    ensures Harmless(t, high, a, env) <==> Fair(high, t, Act1(t, a, env.producerJunk), env)
    ensures Harmless(t, high, a, env) && !a.Reindex? ==> Steady(t, Act1(t, a, env.producerJunk), env)
  {
    var after := Act1(t, a, env.producerJunk);
    match a {
      case Ingest(pages, source, luck) =>
        ActKeepsTop(t, a, env.producerJunk);
        IngestFairIff(t, high, pages, source, luck, env);
      case Fetch(p, scope, sidecar) => FetchFairIff(t, high, p, scope, sidecar, env);
      case Share(url, scope) =>
        ShareFairIff(t, high, url, scope, env);
        SamePagesFairIff(t, high, after, env);
      case Tombstone(url) => TombstoneFair(t, high, url, env);
      case Backfill =>
        BackfillFairIff(t, high, env);
        SamePagesFairIff(t, high, after, env);
      case Reindex(files) => ReindexFairIff(t, high, files, env);
    }
  }

  // ---------- Every step keeps the invariant ----------

  /** A fair change owes nothing new at or below an old cursor. */
  lemma FairKeepsHeld(s: System, after: Tables, cursor: int, env: Env)
    requires Fair(s.high, s.producer, after, env) && cursor <= s.high && HeldUpTo(s, cursor, env)
    ensures forall r :: r in after.pages && Owed(after, r, env) && r.rowid <= cursor ==> Held(s.consumer, r.url)
  {
    hide Owed, Held;
    forall r | r in after.pages && Owed(after, r, env) && r.rowid <= cursor ensures Held(s.consumer, r.url) {
      assert OwedBefore(s.producer, r, env);
    }
  }

  /** What a bundle in flight leaves to be held, it still does: a page that moved up from below its
      window was owed, and held, there. */
  lemma FairKeepsShipment(s: System, after: Tables, since: int, b: Shipment, env: Env)
    requires Fair(s.high, s.producer, after, env) && ShipmentComplete(s, since, b, ALL_WRITTEN, env)
               && HeldUpTo(s, since, env)
    ensures forall r :: r in after.pages && Owed(after, r, env) && since < r.rowid <= b.until ==>
              Lands(b.pages, r.url, env.junk, ALL_WRITTEN) || Held(s.consumer, r.url)
  {
    hide Owed, Held, Lands;
    forall r | r in after.pages && Owed(after, r, env) && since < r.rowid <= b.until
      ensures Lands(b.pages, r.url, env.junk, ALL_WRITTEN) || Held(s.consumer, r.url)
    {
      assert OwedBefore(s.producer, r, env);
    }
  }

  lemma SteadyKeepsLists(before: Tables, after: Tables, w: Built, env: Env)
    requires Steady(before, after, env) && Lists(before, w, env)
    ensures Lists(after, w, env)
  {
    hide Owed, Lands;
  }

  /** Whatever is asked from: nothing owed at or below it is missing, as long as its bundle will count. */
  lemma AskedFromHeld(s: System, since: int, b: Shipment, env: Env)
    requires Tidy(s) && NoMiss(s, env) && (since == 0 || since == s.cursor)
    requires b.epoch == s.epoch && !StaleCursor(s.lastEpoch, b.epoch, since)
    ensures HeldUpTo(s, since, env) && since <= s.high
  {
    if since == 0 {
      RowidsPositive(s.producer);
    }
    hide Held;
  }

  lemma RowidsPositive(t: Tables)
    requires t.Valid()
    ensures forall r :: r in t.pages ==> r.rowid > 0
  {
  }

  /** Any change under one epoch that is fair, and that leaves numbers alone unless it is a rebuild,
      keeps the invariant. */
  lemma ChangeKeepsInv(s: System, after: Tables, rebuilt: bool, env: Env)
    requires Inv(s, env) && after.Valid() && TopAdjacent(after.pages) && Fair(s.high, s.producer, after, env)
    requires rebuilt || Steady(s.producer, after, env)
    ensures Inv(Changed(s, after, rebuilt), env)
  {
    var t := Changed(s, after, rebuilt);
    hide Fair, Steady, Owed, Held, Lands, TopAdjacent, StaleCursor;
    if s.lastEpoch == s.epoch {
      FairKeepsHeld(s, after, s.cursor, env);
    }
    match s.pull {
      case Fetched(since, b) =>
        if b.epoch == s.epoch && !StaleCursor(s.lastEpoch, b.epoch, since) {
          AskedFromHeld(s, since, b, env);
          FairKeepsShipment(s, after, since, b, env);
        }
      case Ingested(start, end, e) =>
        if e == s.epoch {
          FairKeepsHeld(s, after, CursorAfter(end, start), env);
        }
      case _ =>
    }
    assert WildSound(t, env) by {
      if !rebuilt {
        forall w | w in s.wild && w.shipment.epoch == s.epoch && w.generation == s.generation
          ensures Lists(after, w, env)
        {
          SteadyKeepsLists(s.producer, after, w, env);
        }
      }
      hide Lists;
    }
  }

  lemma ProduceKeepsInv(s: System, a: Act, env: Env)
    requires Inv(s, env) && Enabled(s, Produce(a), env)
    ensures Inv(Next(s, Produce(a), env), env)
  {
    HarmlessIsFair(s.producer, s.high, a, env);
    if a.Reindex? {
      RebuiltValid(s.producer, a.files);
    } else {
      ActKeepsHeld(s.producer, a, env.producerJunk);
      ActKeepsTop(s.producer, a, env.producerJunk);
    }
    hide Act1, Fair, Steady, Harmless, Tidy, NoMiss, PullSound, WildSound, TopAdjacent, Held;
    SoundTables(s, env);
    ChangeKeepsInv(s, Act1(s.producer, a, env.producerJunk), a.Reindex?, env);
  }

  lemma SoundTables(s: System, env: Env)
    requires Inv(s, env)
    ensures s.producer.Valid() && TopAdjacent(s.producer.pages) && s.consumer.Valid() && Top(s.producer.pages) <= s.high
  {
  }

  lemma RebuiltValid(t: Tables, files: seq<PageFile>)
    requires DistinctFiles(files)
    ensures Reindexed(t, files).Valid() && TopAdjacent(Reindexed(t, files).pages)
  {
    FileRowsExact(files);
  }

  /** The consumer's own activity only ever adds to what it holds, a rebuild that drops nothing included. */
  lemma LocalKeepsInv(s: System, a: Act, env: Env)
    requires Inv(s, env) && Enabled(s, Local(a), env)
    ensures Inv(Next(s, Local(a), env), env)
  {
    if a.Reindex? {
      ReindexKeepsHeldIff(s.consumer, a.files);
      assert Act1(s.consumer, a, env.junk) == Reindexed(s.consumer, a.files);
    } else {
      ActKeepsHeld(s.consumer, a, env.junk);
    }
    assert forall r :: Owed(s.producer, r, env) ==> r.url != "";
    hide Act1, Held, Owed, Lands, WildSound, Reindexed, KeepsAll;
    var t := Next(s, Local(a), env);
    assert WildSound(t, env) by {
      SameWild(s, t, env);
    }
  }

  lemma SameWild(s: System, t: System, env: Env)
    requires WildSound(s, env) && t.wild == s.wild && t.producer == s.producer && t.epoch == s.epoch
    requires t.generation == s.generation && s.used <= t.used
    ensures WildSound(t, env)
  {
    hide Lists;
  }

  /** What `build_bundle` ships lists all that its window owes. */
  lemma ShippedLists(s: System, since: int, limit: int, env: Env)
    requires s.producer.Valid()
    ensures Lists(s.producer, Built(since, s.generation, Shipped(s, since, limit, env)), env)
    ensures Shipped(s, since, limit, env).until >= since
  {
    var b := Shipped(s, since, limit, env);
    var rows := Window(s.producer.pages, s.producer.meta, since, b.until);
    UntilAdvances(s.producer.pages, s.producer.meta, since, Clamp(limit));
    UntilBelowTop(s.producer.pages, s.producer.meta, since, Clamp(limit));
    hide Until, Filter, PageOf;
    forall r | r in s.producer.pages && Owed(s.producer, r, env) && since < r.rowid <= b.until
      ensures Lands(b.pages, r.url, env.junk, ALL_WRITTEN)
    {
      assert r in rows;
      var i :| 0 <= i < |rows| && rows[i] == r;
      ShippedPage(r, env.notes);
      assert b.pages[i] in b.pages;
    }
  }

  lemma ShippedPage(r: PageRow, notes: Annotations)
    ensures PageOf(r, notes).url == r.url && PageOf(r, notes).title == r.title
  {
  }

  lemma UntilBelowTop(pages: seq<PageRow>, meta: map<string, Meta>, since: int, lim: nat)
    requires InRowidOrder(pages) && lim > 0
    ensures Until(pages, meta, since, lim) > since ==> Until(pages, meta, since, lim) <= Top(pages)
  {
    var past := Past(pages, since);
    var rows, window := Take(Shared(past, meta), lim), Take(past, lim);
    var considered := if window == [] then since else Max(since, window[|window| - 1].rowid);
    LastShippedBounds(rows, considered);
    assert forall r :: r in pages ==> r.rowid <= Top(pages);
    if window != [] {
      assert window[|window| - 1] in past;
    }
  }

  /** A bundle that is complete for the cursor asked from may be in flight. */
  lemma ReceiveKeepsInv(s: System, w: Built, env: Env)
    requires Inv(s, env) && s.pull.Probed? && w.shipment.epoch in s.used
    requires w.shipment.epoch == s.epoch && !StaleCursor(s.lastEpoch, s.epoch, s.pull.since) ==>
               ShipmentComplete(s, s.pull.since, w.shipment, ALL_WRITTEN, env)
    ensures Inv(Received(s, s.pull.since, w.since, w.shipment), env)
  {
    var asked, b := s.pull.since, w.shipment;
    var t := Received(s, asked, w.since, b);
    SameWild(s, t, env);
    hide WildSound, Owed, Held, Lands, StaleCursor, TopAdjacent;
  }

  /** A genuine bundle made since the last rebuild, and starting at or before the cursor asked from, is
      complete. */
  lemma ListedIsComplete(s: System, since: int, w: Built, env: Env)
    requires Inv(s, env) && (since == 0 || since == s.cursor) && !StaleCursor(s.lastEpoch, s.epoch, since)
    requires w.shipment.epoch == s.epoch && Lists(s.producer, w, env) && w.since <= since && w.since <= w.shipment.until
    ensures ShipmentComplete(s, since, w.shipment, ALL_WRITTEN, env)
  {
    AskedFromHeld(s, since, w.shipment, env);
    hide WildSound, PullSound, Owed, Held, Lands, StaleCursor, TopAdjacent;
  }

  lemma FetchKeepsInv(s: System, limit: int, env: Env)
    requires Inv(s, env) && s.pull.Probed?
    ensures Inv(Next(s, FetchBundle(limit), env), env)
  {
    ShippedLists(s, s.pull.since, limit, env);
    ShippedEpoch(s, s.pull.since, limit, env);
    hide Shipped, Lists, WildSound, StaleCursor, ShipmentComplete, Until;
    var w := Built(s.pull.since, s.generation, Shipped(s, s.pull.since, limit, env));
    if !StaleCursor(s.lastEpoch, s.epoch, s.pull.since) {
      ListedIsComplete(s, s.pull.since, w, env);
    }
    ReceiveKeepsInv(s, w, env);
  }

  lemma ReplayKeepsInv(s: System, w: Built, env: Env)
    requires Inv(s, env) && Enabled(s, Replay(w), env)
    ensures Inv(Next(s, Replay(w), env), env)
  {
    hide Lists;
    ReceiveKeepsInv(s, w, env);
  }

  lemma AnswerKeepsInv(s: System, since: int, limit: int, env: Env)
    requires Inv(s, env)
    ensures Inv(Next(s, Answer(since, limit), env), env)
  {
    ShippedLists(s, since, limit, env);
    hide Lists, Shipped, Owed, Held, Lands;
    var w := Built(since, s.generation, Shipped(s, since, limit, env));
    assert w.shipment.epoch == s.epoch by {
      ShippedEpoch(s, since, limit, env);
    }
  }

  lemma ShippedEpoch(s: System, since: int, limit: int, env: Env)
    ensures Shipped(s, since, limit, env).epoch == s.epoch
  {
  }

  lemma IngestKeepsInv(s: System, luck: Luck, env: Env)
    requires Inv(s, env) && Enabled(s, IngestShipment(luck), env)
    ensures Inv(Next(s, IngestShipment(luck), env), env)
  {
    var since, b := s.pull.from, s.pull.shipment;
    var after := IngestAll(s.consumer, b.pages, env.source, env.junk, luck);
    var act := Ingest(b.pages, env.source, luck);
    assert after == Act1(s.consumer, act, env.junk);
    ActKeepsHeld(s.consumer, act, env.junk);
    var t := Next(s, IngestShipment(luck), env);
    SameWild(s, t, env);
    hide IngestAll, Act1, WildSound, Owed, TopAdjacent, Lands, Held;
    if b.epoch == s.epoch {
      AskedFromHeld(s, since, b, env);
      forall r | r in s.producer.pages && Owed(s.producer, r, env) && r.rowid <= CursorAfter(b.until, since)
        ensures Held(after, r.url)
      {
        OwedHasUrl(s.producer, r, env);
        LandedHeld(s.consumer, b.pages, luck, r.url, env);
      }
    }
  }

  lemma LandedHeld(t: Tables, pages: seq<Page>, luck: Luck, url: string, env: Env)
    requires t.Valid() && url != ""
    ensures var after := IngestAll(t, pages, env.source, env.junk, luck);
            (Held(after, url) <==> Held(t, url) || Lands(pages, url, env.junk, luck))
  {
    IngestHolds(t, pages, env.source, env.junk, luck, url);
  }

  lemma OwedHasUrl(t: Tables, r: PageRow, env: Env)
    requires Owed(t, r, env)
    ensures r.url != "" && !env.junk(r.title)
  {
  }

  lemma StepKeepsInv(s: System, step: Step, env: Env)
    requires Inv(s, env) && Enabled(s, step, env)
    ensures Inv(Next(s, step, env), env)
  {
    match step {
      case Produce(a) => ProduceKeepsInv(s, a, env);
      case Local(a) => LocalKeepsInv(s, a, env);
      case Answer(since, limit) => AnswerKeepsInv(s, since, limit, env);
      case FetchBundle(limit) => FetchKeepsInv(s, limit, env);
      case Replay(w) => ReplayKeepsInv(s, w, env);
      case IngestShipment(luck) => IngestKeepsInv(s, luck, env);
      case NewEpoch(_, _) => NewEpochKeepsInv(s, step, env);
      case _ => CursorStepKeepsInv(s, step, env);
    }
  }

  lemma NewEpochKeepsInv(s: System, step: Step, env: Env)
    requires Inv(s, env) && Enabled(s, step, env) && step.NewEpoch?
    ensures Inv(Next(s, step, env), env)
  {
    hide Owed, Held, Lands, Lists;
  }

  lemma CursorStepKeepsInv(s: System, step: Step, env: Env)
    requires Inv(s, env) && Enabled(s, step, env)
    requires step.Probe? || step.ResetCursor? || step.WriteCursor? || step.Crash? || step.ResetOrphan?
    ensures Inv(Next(s, step, env), env)
  {
    SameWild(s, Next(s, step, env), env);
    hide Owed, Held, Lands, WildSound, TopAdjacent;
    if step.ResetCursor? || step.ResetOrphan? {
      RowidsPositive(s.producer);
    }
  }

  // ---------- Whole runs ----------

  ghost predicate Run(s: System, steps: seq<Step>, env: Env)
    decreases |steps|
  {
    steps == [] || (Enabled(s, steps[0], env) && Run(Next(s, steps[0], env), steps[1..], env))
  }

  ghost function After(s: System, steps: seq<Step>, env: Env): System
    decreases |steps|
  {
    if steps == [] then s else After(Next(s, steps[0], env), steps[1..], env)
  }

  /** A consumer that has never pulled, and a producer nobody has asked yet. */
  ghost predicate Start(s: System) {
    && s.producer.Valid() && TopAdjacent(s.producer.pages) && s.consumer.Valid()
    && Top(s.producer.pages) <= s.high && s.wild == {}
    && s.epoch in s.used && "" !in s.used
    && s.cursor == 0 && s.lastEpoch == "" && s.pull.Idle?
  }

  lemma {:induction false} RunKeepsInv(s: System, steps: seq<Step>, env: Env)
    requires Inv(s, env) && Run(s, steps, env)
    ensures Inv(After(s, steps, env), env)
    decreases |steps|
  {
    if steps != [] {
      hide Inv, Enabled;
      StepKeepsInv(s, steps[0], env);
      RunKeepsInv(Next(s, steps[0], env), steps[1..], env);
    }
  }

  /** In every interleaving, failed probes, rejected and replayed bundles, new epochs, rebuilds under
      the old one and crashes included: while the saved epoch is the producer's, each row it owes at or
      below the saved cursor is held by the consumer, or was tombstoned there. A cursor past the
      producer's last row means nothing at all was missed. */
  lemma NothingMissed(s: System, steps: seq<Step>, env: Env)
    requires Start(s) && Run(s, steps, env)
    ensures var e := After(s, steps, env);
            e.lastEpoch == e.epoch ==>
              && HeldUpTo(e, e.cursor, env)
              && (Past(e.producer.pages, e.cursor) == [] ==> HeldUpTo(e, Top(e.producer.pages), env))
  {
    hide Run, After, Owed, Held;
    RunKeepsInv(s, steps, env);
    var e := After(s, steps, env);
    if e.lastEpoch == e.epoch && Past(e.producer.pages, e.cursor) == [] {
      forall r | r in e.producer.pages ensures r.rowid <= e.cursor {
        assert r !in Past(e.producer.pages, e.cursor);
      }
    }
  }

  // ---------- Catching up ----------

  /** One undisturbed pull. */
  function Tick(limit: int): seq<Step> {
    [Probe(true), FetchBundle(limit), IngestShipment(ALL_WRITTEN), WriteCursor]
  }

  /** No window of the producer spans more rowids than a consumer tolerates. */
  ghost predicate SpansTolerated(t: Tables, limit: int) {
    forall c: int :: Until(t.pages, t.meta, c, Clamp(limit)) - c <= 100_000
  }

  /** Where the producer stands from which this consumer has to read: after its cursor, unless that is of
      another epoch. */
  function Resume(s: System): int {
    if s.lastEpoch == s.epoch then s.cursor else 0
  }

  /** The state after one undisturbed pull. */
  function Ticked(s: System, limit: int, env: Env): System {
    var b := Shipped(s, Resume(s), limit, env);
    s.(consumer := IngestAll(s.consumer, b.pages, env.source, env.junk, ALL_WRITTEN),
       cursor := b.until, lastEpoch := s.epoch, pull := Idle)
  }

  lemma UntilIsRowid(pages: seq<PageRow>, meta: map<string, Meta>, since: int, lim: nat)
    ensures var until := Until(pages, meta, since, lim); until == since || exists r :: r in pages && r.rowid == until
  {
    var past := Past(pages, since);
    var rows, window := Take(Shared(past, meta), lim), Take(past, lim);
    var considered := if window == [] then since else Max(since, window[|window| - 1].rowid);
    LastShippedBounds(rows, considered);
    assert forall r :: r in rows ==> r in Shared(past, meta) && r in pages;
    if window != [] {
      assert window[|window| - 1] in past;
    }
  }

  /** The first three steps of a pull, up to the ingest. */
  lemma TickLoads(s: System, limit: int, env: Env)
    requires Inv(s, env) && s.pull.Idle? && SpansTolerated(s.producer, limit)
    ensures var from := Resume(s);
            var b := Shipped(s, from, limit, env);
            && Enabled(s, Probe(true), env) && Next(s, Probe(true), env) == s.(pull := Probed(from))
            && Enabled(s.(pull := Probed(from)), FetchBundle(limit), env)
            && Next(s.(pull := Probed(from)), FetchBundle(limit), env) == s.(pull := Fetched(from, b))
            && b.epoch == s.epoch && !StaleCursor(s.lastEpoch, s.epoch, from) && CursorAfter(b.until, from) == b.until
  {
    var from := Resume(s);
    assert EffectiveSince(s.cursor, s.lastEpoch, Some(s.epoch)) == from;
    ShippedEpoch(s, from, limit, env);
    RowidsPositive(s.producer);
    UntilIsRowid(s.producer.pages, s.producer.meta, from, Clamp(limit));
    hide WildSound, NoMiss, PullSound, Until, Filter, IngestAll, Shareable;
  }

  lemma TickStores(s: System, limit: int, env: Env)
    requires Inv(s, env) && s.pull.Idle? && SpansTolerated(s.producer, limit)
    ensures var from := Resume(s);
            var got := s.(pull := Fetched(from, Shipped(s, from, limit, env)));
            && Enabled(got, IngestShipment(ALL_WRITTEN), env)
            && Enabled(Next(got, IngestShipment(ALL_WRITTEN), env), WriteCursor, env)
            && Next(Next(got, IngestShipment(ALL_WRITTEN), env), WriteCursor, env) == Ticked(s, limit, env)
  {
    var from := Resume(s);
    TickLoads(s, limit, env);
    ShippedLists(s, from, limit, env);
    var w := Built(from, s.generation, Shipped(s, from, limit, env));
    ListedIsComplete(s, from, w, env);
    hide Inv, Lists, Shipped, IngestAll, Owed, Held, Lands, StaleCursor, SpansTolerated, ShipmentComplete;
    CompleteHere(s, from, w.shipment, env);
  }

  lemma CompleteHere(s: System, from: int, b: Shipment, env: Env)
    ensures ShipmentComplete(s, from, b, ALL_WRITTEN, env) ==>
              ShipmentComplete(s.(pull := Fetched(from, b)), from, b, ALL_WRITTEN, env)
  {
    hide Owed, Held, Lands;
  }

  lemma TickRun(s: System, limit: int, rest: seq<Step>, env: Env)
    requires Inv(s, env) && s.pull.Idle? && SpansTolerated(s.producer, limit) && Run(Ticked(s, limit, env), rest, env)
    ensures Run(s, Tick(limit) + rest, env)
    ensures After(s, Tick(limit) + rest, env) == After(Ticked(s, limit, env), rest, env)
  {
    TickLoads(s, limit, env);
    TickStores(s, limit, env);
    var from := Resume(s);
    var s1 := s.(pull := Probed(from));
    var s2 := s.(pull := Fetched(from, Shipped(s, from, limit, env)));
    var s3 := Next(s2, IngestShipment(ALL_WRITTEN), env);
    hide *;
    OneStep(s3, WriteCursor, rest, env);
    OneStep(s2, IngestShipment(ALL_WRITTEN), [WriteCursor] + rest, env);
    OneStep(s1, FetchBundle(limit), [IngestShipment(ALL_WRITTEN)] + ([WriteCursor] + rest), env);
    OneStep(s, Probe(true), [FetchBundle(limit)] + ([IngestShipment(ALL_WRITTEN)] + ([WriteCursor] + rest)), env);
    TickSplits(limit, rest);
  }

  lemma TickSplits(limit: int, rest: seq<Step>)
    ensures [Probe(true)] + ([FetchBundle(limit)] + ([IngestShipment(ALL_WRITTEN)] + ([WriteCursor] + rest)))
         == Tick(limit) + rest
  {
  }

  lemma OneStep(s: System, step: Step, rest: seq<Step>, env: Env)
    requires Enabled(s, step, env) && Run(Next(s, step, env), rest, env)
    ensures Run(s, [step] + rest, env) && After(s, [step] + rest, env) == After(Next(s, step, env), rest, env)
  {
    assert ([step] + rest)[1..] == rest;
    hide Enabled, Next;
  }

  function Ticks(rounds: nat, limit: int): seq<Step> {
    if rounds == 0 then [] else Tick(limit) + Ticks(rounds - 1, limit)
  }

  lemma TickKeepsInv(s: System, limit: int, env: Env)
    requires Inv(s, env) && s.pull.Idle? && SpansTolerated(s.producer, limit)
    ensures Inv(Ticked(s, limit, env), env)
  {
    TickRun(s, limit, [], env);
    hide Inv, Run, After, Ticked, SpansTolerated;
    RunKeepsInv(s, Tick(limit) + [], env);
    NoSteps(Ticked(s, limit, env), env);
  }

  lemma NoSteps(s: System, env: Env)
    ensures Run(s, [], env) && After(s, [], env) == s
  {
  }

  lemma TickAdvances(s: System, limit: int, env: Env)
    requires Inv(s, env)
    ensures var t := Ticked(s, limit, env);
            var left, past := |Past(t.producer.pages, Resume(t))|, |Past(s.producer.pages, Resume(s))|;
            && t.producer == s.producer && t.epoch == s.epoch && t.lastEpoch == t.epoch && t.pull.Idle?
            && left <= past - (if Clamp(limit) <= past then Clamp(limit) else past)
  {
    UntilAdvances(s.producer.pages, s.producer.meta, Resume(s), Clamp(limit));
    hide Past, Until, Filter, IngestAll, WildSound, NoMiss, PullSound;
  }

  /** A consumer catches up with a quiet producer: from any state the protocol can be in between pulls, its
      cursor of this epoch, of another, or none, as many undisturbed pulls as the rows left to read fill
      windows, and at least one, leave it with everything the producer owes. */
  lemma {:induction false} CatchesUp(s: System, rounds: nat, limit: int, env: Env)
    requires Inv(s, env) && s.pull.Idle? && SpansTolerated(s.producer, limit)
    requires rounds > 0 && rounds * Clamp(limit) >= |Past(s.producer.pages, Resume(s))|
    ensures Run(s, Ticks(rounds, limit), env)
    ensures var t := After(s, Ticks(rounds, limit), env);
            && t.producer == s.producer && t.lastEpoch == t.epoch == s.epoch
            && forall r :: r in s.producer.pages && Owed(s.producer, r, env) ==> Held(t.consumer, r.url)
    decreases rounds
  {
    hide *;
    var t := Ticked(s, limit, env);
    TickKeepsInv(s, limit, env);
    TickAdvances(s, limit, env);
    RoundsLeft(rounds, Clamp(limit), |Past(s.producer.pages, Resume(s))|, |Past(t.producer.pages, Resume(t))|);
    TicksUnfold(rounds, limit);
    if rounds == 1 {
      NoSteps(t, env);
      AllRead(t, env);
    } else {
      CatchesUp(t, rounds - 1, limit, env);
    }
    TickRun(s, limit, Ticks(rounds - 1, limit), env);
  }

  lemma RoundsLeft(rounds: nat, lim: nat, past: nat, left: nat)
    requires rounds > 0 && rounds * lim >= past && left <= past - (if lim <= past then lim else past)
    ensures if rounds == 1 then left == 0 else (rounds - 1) * lim >= left
  {
    assert rounds * lim == (rounds - 1) * lim + lim;
    if rounds == 1 {
      assert rounds * lim == lim;
    } else {
      Positive(rounds - 1, lim);
    }
  }

  lemma {:induction false} Positive(a: nat, b: nat)
    ensures a * b >= 0
    decreases a
  {
    if a > 0 {
      Positive(a - 1, b);
      assert a * b == (a - 1) * b + b;
    }
  }

  lemma TicksUnfold(rounds: nat, limit: int)
    requires rounds > 0
    ensures Ticks(rounds, limit) == Tick(limit) + Ticks(rounds - 1, limit)
    ensures Ticks(0, limit) == []
  {
  }

  lemma AllRead(t: System, env: Env)
    requires Inv(t, env) && t.lastEpoch == t.epoch && |Past(t.producer.pages, Resume(t))| == 0
    ensures forall r :: r in t.producer.pages && Owed(t.producer, r, env) ==> Held(t.consumer, r.url)
  {
    hide Owed, Held, WildSound, PullSound;
    forall r | r in t.producer.pages ensures r.rowid <= t.cursor {
      assert r !in Past(t.producer.pages, t.cursor);
    }
  }

  // ---------- The guards are needed ----------

  function OwedUpTo(t: Tables, cursor: nat, env: Env): PageRow -> bool {
    (r: PageRow) => r.rowid <= cursor && Owed(t, r, env)
  }

  /** A consumer that has read exactly up to `cursor`, and holds exactly what that owed it. */
  function Reader(before: Tables, high: nat, cursor: nat, env: Env): System {
    var held := Tables(Filter(before.pages, OwedUpTo(before, cursor, env)), map[], map[], map[]);
    System(before, "e", {"e"}, high, 0, {}, held, cursor, "e", Idle)
  }

  lemma ReaderSound(before: Tables, high: nat, cursor: nat, env: Env)
    requires before.Valid() && TopAdjacent(before.pages) && Top(before.pages) <= high && cursor <= high
    ensures Inv(Reader(before, high, cursor, env), env)
    ensures forall u :: Held(Reader(before, high, cursor, env).consumer, u)
              <==> exists r :: r in before.pages && r.url == u && r.rowid <= cursor && Owed(before, r, env)
  {
    var s := Reader(before, high, cursor, env);
    var p := OwedUpTo(before, cursor, env);
    FilterInOrder(before.pages, p);
    FilterDistinct(before.pages, p);
    hide Filter, Owed, InRowidOrder, DistinctUrls;
    forall u
      ensures Held(s.consumer, u) <==>
                exists r :: r in before.pages && r.url == u && r.rowid <= cursor && Owed(before, r, env)
    {
      HasPageMember(s.consumer, u);
    }
  }

  /** The fairness guard is exact: for every change that is not fair there is a consumer, up to date
      and missing nothing, that misses a page by it. */
  lemma FairIsNeeded(high: nat, before: Tables, after: Tables, env: Env)
    requires before.Valid() && TopAdjacent(before.pages) && Top(before.pages) <= high && !Fair(high, before, after, env)
    ensures exists s: System :: s.producer == before && s.high == high && s.lastEpoch == s.epoch && Inv(s, env)
                                && !HeldUpTo(Changed(s, after, true), s.cursor, env)
  {
    var r :| r in after.pages && Owed(after, r, env) && r.rowid <= high && !OwedBefore(before, r, env);
    var s := Reader(before, high, r.rowid, env);
    ReaderSound(before, high, r.rowid, env);
    hide Owed, Held, Inv;
    assert forall q :: q in before.pages && q.url == r.url && q.rowid <= r.rowid ==> !Owed(before, q, env);
    assert !Held(s.consumer, r.url);
    assert !HeldUpTo(Changed(s, after, true), s.cursor, env);
  }

  /** The steps of pulling, against the live producer. */
  predicate PullsOnly(step: Step) {
    step.Probe? || step.FetchBundle? || step.IngestShipment? || step.WriteCursor? || step.Crash?
  }

  /** The reader has passed this row, does not hold its page, and has no bundle with it in flight. */
  ghost predicate Passed(s: System, r: PageRow) {
    && s.lastEpoch == s.epoch != "" && s.producer.Valid() && s.consumer.Valid()
    && r in s.producer.pages && 0 < r.rowid <= s.cursor && r.url != "" && !Held(s.consumer, r.url)
    && match s.pull
       case Idle => true
       case Probed(since) => r.rowid <= since
       case Fetched(from, b) =>
         r.rowid <= from <= b.until && b.epoch == s.epoch && forall p :: p in b.pages ==> p.url != r.url
       case Ingested(_, end, e) => r.rowid <= end && e == s.epoch
  }

  lemma ShippedPast(s: System, since: int, limit: int, r: PageRow, env: Env)
    requires s.producer.Valid() && r in s.producer.pages && r.rowid <= since
    ensures forall p :: p in Shipped(s, since, limit, env).pages ==> p.url != r.url
  {
    var b := Shipped(s, since, limit, env);
    var rows := Window(s.producer.pages, s.producer.meta, since, b.until);
    hide Until, Filter;
    forall p | p in b.pages ensures p.url != r.url {
      var i :| 0 <= i < |b.pages| && b.pages[i] == p;
      assert rows[i] in rows;
    }
  }

  lemma StepStaysPassed(s: System, step: Step, r: PageRow, env: Env)
    requires Passed(s, r) && PullsOnly(step)
    ensures Passed(Next(s, step, env), r)
  {
    hide InRowidOrder, DistinctUrls, Held, Shipped, IngestAll;
    if step.FetchBundle? && s.pull.Probed? {
      ShippedPast(s, s.pull.since, step.limit, r, env);
      ShippedLists(s, s.pull.since, step.limit, env);
      ShippedEpoch(s, s.pull.since, step.limit, env);
    }
    if step.IngestShipment? && s.pull.Fetched? {
      LandedHeld(s.consumer, s.pull.shipment.pages, step.luck, r.url, env);
      IngestSafe(s.consumer, s.pull.shipment.pages, env.source, env.junk, step.luck);
      AddsMissingValid(s.consumer, IngestAll(s.consumer, s.pull.shipment.pages, env.source, env.junk, step.luck));
    }
  }

  lemma {:induction false} StaysMissed(s: System, steps: seq<Step>, r: PageRow, env: Env)
    requires Passed(s, r) && forall step :: step in steps ==> PullsOnly(step)
    ensures Passed(After(s, steps, env), r)
    decreases |steps|
  {
    if steps != [] {
      hide Passed, Next, PullsOnly;
      StepStaysPassed(s, steps[0], r, env);
      StaysMissed(Next(s, steps[0], env), steps[1..], r, env);
    }
  }

  /** And what is missed so stays missed, however often the reader pulls. */
  lemma UnfairChangeIsMissed(s: System, after: Tables, r: PageRow, steps: seq<Step>, env: Env)
    requires Inv(s, env) && s.lastEpoch == s.epoch && s.pull.Idle? && after.Valid()
    requires r in after.pages && Owed(after, r, env) && r.rowid <= s.cursor && !Held(s.consumer, r.url)
    requires forall step :: step in steps ==> PullsOnly(step)
    ensures !NoMiss(Changed(s, after, true), env)
    ensures !Held(After(Changed(s, after, true), steps, env).consumer, r.url)
  {
    RowidsPositive(after);
    OwedHasUrl(after, r, env);
    hide Owed, Held, After, InRowidOrder, DistinctUrls;
    StaysMissed(Changed(s, after, true), steps, r, env);
  }

  // ---------- What a reply leaves ----------

  /** A reply is received and ingested as far as the writes of `luck` go through, and the cursor is
      written. */
  function Taken(s: System, w: Built, luck: Luck, env: Env): System
    requires s.pull.Probed?
  {
    Next(Next(Received(s, s.pull.since, w.since, w.shipment), IngestShipment(luck), env), WriteCursor, env)
  }

  lemma TakenIs(s: System, w: Built, luck: Luck, env: Env)
    requires s.pull.Probed? && w.shipment.until - w.since <= MAX_BUNDLE_CURSOR_ADVANCE && w.shipment.epoch != ""
    ensures Taken(s, w, luck, env)
         == s.(consumer := IngestAll(s.consumer, w.shipment.pages, env.source, env.junk, luck),
               cursor := CursorAfter(w.shipment.until, s.pull.since), lastEpoch := w.shipment.epoch, pull := Idle)
  {
    hide IngestAll;
  }

  /** The verifier never compares a bundle's `since` with the cursor asked from, and nothing ties its end
      to the numbers in use. Whatever signed bundle of the epoch arrives, honest or replayed, on a first
      pull or a later one, and whichever of its pages cannot be written: nothing is missed afterwards
      exactly when it ends at a number that has been handed out and brings whatever the producer owes
      between the cursor asked from and that end, unless the consumer holds it already. */
  lemma ReplyLosesIff(s: System, w: Built, luck: Luck, env: Env)
    requires Inv(s, env) && s.pull.Probed? && !StaleCursor(s.lastEpoch, s.epoch, s.pull.since)
    requires w.shipment.epoch == s.epoch && w.shipment.until - w.since <= MAX_BUNDLE_CURSOR_ADVANCE
    ensures NoMiss(Taken(s, w, luck, env), env) <==> ShipmentComplete(s, s.pull.since, w.shipment, luck, env)
  {
    var since, b := s.pull.since, w.shipment;
    var after := IngestAll(s.consumer, b.pages, env.source, env.junk, luck);
    var t := Taken(s, w, luck, env);
    TakenIs(s, w, luck, env);
    AskedFromHeld(s, since, b, env);
    RowidsPositive(s.producer);
    hide IngestAll, Taken, Owed, Held, Lands, WildSound, TopAdjacent, StaleCursor, InRowidOrder, DistinctUrls;
    forall r | r in s.producer.pages && Owed(s.producer, r, env)
      ensures Held(after, r.url) <==> Held(s.consumer, r.url) || Lands(b.pages, r.url, env.junk, luck)
    {
      OwedHasUrl(s.producer, r, env);
      LandedHeld(s.consumer, b.pages, luck, r.url, env);
    }
  }

  /** So a genuine bundle that starts at or before the cursor asked from, and was signed since the last
      rebuild, may be replayed at any time. */
  lemma EarlyReplayKeeps(s: System, w: Built, env: Env)
    requires Inv(s, env) && s.pull.Probed? && w in s.wild && w.since <= s.pull.since
    requires w.shipment.epoch == s.epoch ==> w.generation == s.generation
    ensures Enabled(s, Replay(w), env)
  {
    hide Lists, ShipmentComplete, StaleCursor;
    if w.shipment.epoch == s.epoch && !StaleCursor(s.lastEpoch, s.epoch, s.pull.since) {
      ListedIsComplete(s, s.pull.since, w, env);
    }
  }

  /** And of an honest bundle, nothing is missed exactly when no page of it fails to be written, except
      junk and pages held already: the consumer itself can tell. */
  lemma FailedWriteLosesIff(s: System, limit: int, luck: Luck, env: Env)
    requires Inv(s, env) && s.pull.Probed? && !StaleCursor(s.lastEpoch, s.epoch, s.pull.since)
    requires Shipped(s, s.pull.since, limit, env).until - s.pull.since <= MAX_BUNDLE_CURSOR_ADVANCE
    ensures var b := Shipped(s, s.pull.since, limit, env);
            (NoMiss(Taken(s, Built(s.pull.since, s.generation, b), luck, env), env) <==>
              forall p :: p in b.pages && !luck(p).Stores() ==> env.junk(p.title) || Held(s.consumer, p.url))
  {
    var since := s.pull.since;
    var b := Shipped(s, since, limit, env);
    var w := Built(since, s.generation, b);
    ShippedEpoch(s, since, limit, env);
    ShippedLists(s, since, limit, env);
    ListedIsComplete(s, since, w, env);
    ReplyLosesIff(s, w, luck, env);
    hide Inv, Taken, NoMiss, Held, StaleCursor;
    LandsInShipped(s, since, limit, luck, env);
  }

  /** A page of an honest bundle and the row it was made from. */
  lemma LandsInShipped(s: System, since: int, limit: int, luck: Luck, env: Env)
    requires s.producer.Valid()
    ensures var b := Shipped(s, since, limit, env);
            ((forall r :: r in s.producer.pages && Owed(s.producer, r, env) && since < r.rowid <= b.until ==>
                Lands(b.pages, r.url, env.junk, luck) || Held(s.consumer, r.url)) <==>
             (forall p :: p in b.pages && !luck(p).Stores() ==> env.junk(p.title) || Held(s.consumer, p.url)))
  {
    var b := Shipped(s, since, limit, env);
    var rows := Window(s.producer.pages, s.producer.meta, since, b.until);
    hide Until, Filter, Held;
    assert forall i :: 0 <= i < |rows| ==> rows[i] in rows;
  }

  /** A consumer's own rebuild is safe exactly when it drops no live page: for every rebuild that does,
      there is a producer, fully read, that this consumer then lacks a page of, with the cursor past it. */
  lemma OwnRebuildMisses(t: Tables, files: seq<PageFile>, title: string, env: Env)
    requires t.Valid() && !KeepsAll(t, files) && !env.junk(title)
    ensures exists s: System :: s.consumer == t && s.lastEpoch == s.epoch && Inv(s, env)
                                && !NoMiss(s.(consumer := Reindexed(t, files)), env)
  {
    var r :| r in t.pages && !t.Tombstoned(r.url) && r.url != "" && !OnDisk(files, r.url);
    var row := PageRow(1, r.url, title, "");
    var producer := Tables([row], map[r.url := Meta(Friends, UserFetched, false, None)], map[], map[]);
    var s := System(producer, "e", {"e"}, 1, 0, {}, t, 1, "e", Idle);
    FileRowsExact(files);
    HasPageMember(t, r.url);
    var after := Reindexed(t, files);
    assert after.HasPage(r.url) <==> HasRow(FileRows(files), r.url);
    assert Owed(producer, row, env) && row in producer.pages;
    assert !Held(after, r.url);
    assert Inv(s, env) && !NoMiss(s.(consumer := after), env);
  }

  // ---------- Reachable cases ----------

  const NO_PAGES := Tables([], map[], map[], map[])

  function Caught(producer: Tables, cursor: nat): System {
    System(producer, "e", {"e"}, Top(producer.pages), 0, {}, NO_PAGES, cursor, "e", Idle)
  }

  lemma NowMissed(s: System, after: Tables, r: PageRow, env: Env)
    requires s.lastEpoch == s.epoch && s.consumer == NO_PAGES && r in after.pages && Owed(after, r, env)
               && r.rowid <= s.cursor
    ensures !NoMiss(Changed(s, after, true), env)
  {
    assert !Held(NO_PAGES, r.url);
  }

  /** A page is indexed while the default scope is private, a reader passes it, and it is indexed again
      after the default became friends: being the newest, it keeps its number, and the reader never
      gets it. */
  lemma ReindexedUnderNewScopeMisses(p: Page, env: Env)
    requires p.url != "" && !env.producerJunk(p.title) && !env.junk(p.title)
    ensures var before := Act1(NO_PAGES, Fetch(p, Private, Complete), env.producerJunk);
            var after := Act1(before, Fetch(p, Friends, Complete), env.producerJunk);
            Inv(Caught(before, 1), env) && !NoMiss(Changed(Caught(before, 1), after, false), env)
  {
    var before := Act1(NO_PAGES, Fetch(p, Private, Complete), env.producerJunk);
    var after := Act1(before, Fetch(p, Friends, Complete), env.producerJunk);
    var row := PageRow(1, p.url, p.title, p.fetchedAt);
    assert before.pages == [row] && after.pages == [row];
    assert row in after.pages && Owed(after, row, env);
    NowMissed(Caught(before, 1), after, row, env);
  }

  /** The documented backfill does the same to every reader of a node whose pages had no labels. */
  lemma BackfillMisses(url: string, title: string, env: Env)
    requires url != "" && !env.junk(title)
    ensures var before := Tables([PageRow(1, url, title, "")], map[], map[], map[]);
            var after := Act1(before, Backfill, env.producerJunk);
            Inv(Caught(before, 1), env) && !NoMiss(Changed(Caught(before, 1), after, false), env)
  {
    var row := PageRow(1, url, title, "");
    var before := Tables([row], map[], map[], map[]);
    var after := Act1(before, Backfill, env.producerJunk);
    assert row in before.pages && row in after.pages;
    BackfillOwed(before, row, env);
    NowMissed(Caught(before, 1), after, row, env);
  }

  /** `reindex_knowledge` renumbers every page but keeps the epoch: a reader of the first of two pages
      never sees the second once it slides down to the number already read. */
  lemma ReindexKeepingEpochMisses(a: string, u: string, title: string, env: Env)
    requires a != u && a != "" && u != "" && !env.junk(title)
    ensures var meta := map[u := Meta(Friends, UserFetched, false, None)];
            var before := Tables([PageRow(1, a, title, ""), PageRow(2, u, title, "")], meta, map[], map[]);
            var after := Act1(before, Reindex([PageFile(u, title, "")]), env.producerJunk);
            Inv(Caught(before, 1), env) && !NoMiss(Changed(Caught(before, 1), after, true), env)
  {
    var meta := map[u := Meta(Friends, UserFetched, false, None)];
    var before := Tables([PageRow(1, a, title, ""), PageRow(2, u, title, "")], meta, map[], map[]);
    var f := PageFile(u, title, "");
    assert [f][..0] == [] && FileRows([]) == [];
    var after := Act1(before, Reindex([f]), env.producerJunk);
    var row := PageRow(1, u, title, "");
    assert after.pages == [row] && row in after.pages;
    NowMissed(Caught(before, 1), after, row, env);
  }

  /** A consumer that holds nothing takes a bundle that does not carry an owed page between the cursor
      asked from and its end. */
  lemma TakenMisses(s: System, w: Built, r: PageRow, luck: Luck, env: Env)
    requires Inv(s, env) && s.pull.Probed? && s.consumer == NO_PAGES && !StaleCursor(s.lastEpoch, s.epoch, s.pull.since)
    requires w.shipment.epoch == s.epoch && w.shipment.until - w.since <= MAX_BUNDLE_CURSOR_ADVANCE
    requires r in s.producer.pages && Owed(s.producer, r, env) && s.pull.since < r.rowid <= w.shipment.until
    requires forall p :: p in w.shipment.pages && luck(p).Stores() ==> p.url != r.url
    ensures !NoMiss(Taken(s, w, luck, env), env)
  {
    hide Inv, Taken, NoMiss, Owed, StaleCursor;
    ReplyLosesIff(s, w, luck, env);
    assert !Held(NO_PAGES, r.url);
  }

  const OWN := Meta(Friends, UserFetched, false, None)

  /** Two pages owed, none read; a genuine bundle that starts after the first one is replayed, and the
      first is never asked for again. */
  lemma ReplayAheadMisses(a: string, b: string, title: string, env: Env)
    requires a != b && a != "" && b != "" && !env.junk(title)
    ensures var rows := [PageRow(1, a, title, ""), PageRow(2, b, title, "")];
            var producer := Tables(rows, map[a := OWN, b := OWN], map[], map[]);
            var s := Caught(producer, 0).(pull := Probed(0));
            var w := Built(1, 0, Shipment(2, "e", [PageOf(PageRow(2, b, title, ""), env.notes)]));
            Inv(s, env) && Lists(producer, w, env) && !NoMiss(Taken(s, w, ALL_WRITTEN, env), env)
  {
    var one, two := PageRow(1, a, title, ""), PageRow(2, b, title, "");
    var producer := Tables([one, two], map[a := OWN, b := OWN], map[], map[]);
    var s := Caught(producer, 0).(pull := Probed(0));
    var p := PageOf(two, env.notes);
    var w := Built(1, 0, Shipment(2, "e", [p]));
    assert p in w.shipment.pages;
    assert Lands(w.shipment.pages, b, env.junk, ALL_WRITTEN);
    assert one in producer.pages && Owed(producer, one, env);
    hide IngestAll, Taken, Next;
    TakenMisses(s, w, one, ALL_WRITTEN, env);
  }

  /** Anybody may ask an empty producer for what lies past 1000, and gets a signed bundle that ends there.
      Replayed to a reader that has everything, it moves the cursor past numbers nobody has been given
      yet: the next page, numbered 1, is never read. */
  lemma ReplayPastTopMisses(p: Page, env: Env)
    requires p.url != "" && !env.producerJunk(p.title) && !env.junk(p.title)
    ensures var s := Caught(NO_PAGES, 0).(pull := Probed(0));
            var w := Built(1000, 0, Shipment(1000, "e", []));
            var t := Taken(s, w, ALL_WRITTEN, env);
            var u := Changed(t, Act1(t.producer, Fetch(p, Friends, Complete), env.producerJunk), false);
            && Inv(s, env) && w.shipment == Shipped(s, 1000, 1, env)
            && HeldUpTo(t, t.cursor, env) && !NoMiss(t, env)
            && Harmless(t.producer, t.high, Fetch(p, Friends, Complete), env)
            && u.lastEpoch == u.epoch && !HeldUpTo(u, u.cursor, env)
  {
    var s := Caught(NO_PAGES, 0).(pull := Probed(0));
    var w := Built(1000, 0, Shipment(1000, "e", []));
    var t := Taken(s, w, ALL_WRITTEN, env);
    TakenIs(s, w, ALL_WRITTEN, env);
    assert t == s.(cursor := 1000, pull := Idle);
    var after := Act1(NO_PAGES, Fetch(p, Friends, Complete), env.producerJunk);
    var row := PageRow(1, p.url, p.title, p.fetchedAt);
    assert after.pages == [row] && row in after.pages && Owed(after, row, env);
    assert !Held(NO_PAGES, row.url);
  }

  /** A producer with one page to share, and a reader about to ask for the first time. */
  function FirstReader(row: PageRow): System {
    Caught(Tables([row], map[row.url := OWN], map[], map[]), 0).(lastEpoch := "", pull := Probed(0))
  }

  const NO_ROWS: Luck := (p: Page) => Writes(true, true, false, true)

  /** A first pull of one page whose row cannot be written: the page is skipped, the cursor moves past it,
      and however often the reader pulls again it never gets it. */
  lemma LostWriteMisses(row: PageRow, steps: seq<Step>, env: Env)
    requires row.rowid == 1 && row.url != "" && !env.junk(row.title) && forall step :: step in steps ==> PullsOnly(step)
    ensures var s := FirstReader(row);
            var t := Taken(s, Built(0, 0, Shipped(s, 0, 1, env)), NO_ROWS, env);
            && Inv(s, env) && t.lastEpoch == t.epoch && row in t.producer.pages && row.rowid <= t.cursor
            && Owed(s.producer, row, env) && t.producer == s.producer && !Held(After(t, steps, env).consumer, row.url)
  {
    var s := FirstReader(row);
    var b := Shipped(s, 0, 1, env);
    assert row in s.producer.pages && Owed(s.producer, row, env);
    FirstProbe(s, env);
    OneRowShipped(s, row, env);
    ShippedEpoch(s, 0, 1, env);
    hide Inv, Shipped, After, Owed, InRowidOrder, DistinctUrls, Taken, Held, IngestAll;
    TakenIs(s, Built(0, 0, b), NO_ROWS, env);
    NothingLanded(s, row, Built(0, 0, b), NO_ROWS, env);
    StillPassed(Taken(s, Built(0, 0, b), NO_ROWS, env), steps, row, env);
  }

  lemma StillPassed(s: System, steps: seq<Step>, r: PageRow, env: Env)
    requires Passed(s, r) && forall step :: step in steps ==> PullsOnly(step)
    ensures s.lastEpoch == s.epoch && r in s.producer.pages && r.rowid <= s.cursor
              && !Held(After(s, steps, env).consumer, r.url)
  {
    hide After, Held;
    StaysMissed(s, steps, r, env);
  }

  lemma FirstProbe(s: System, env: Env)
    requires Start(s.(pull := Idle)) && s.pull == Probed(0)
    ensures Inv(s, env)
  {
    hide Owed, Held, Lists, Lands;
  }

  lemma NothingLanded(s: System, row: PageRow, w: Built, luck: Luck, env: Env)
    requires s.pull == Probed(0) && s.consumer == NO_PAGES && s.epoch == w.shipment.epoch != "" && s.producer.Valid()
    requires w.since == 0 && w.shipment.until == row.rowid == 1 && row in s.producer.pages && row.url != ""
    requires forall p :: !luck(p).Stores()
    ensures Passed(Taken(s, w, luck, env), row)
  {
    TakenIs(s, w, luck, env);
    IngestSafe(NO_PAGES, w.shipment.pages, env.source, env.junk, luck);
    LandedHeld(NO_PAGES, w.shipment.pages, luck, row.url, env);
    hide IngestAll, Taken, InRowidOrder, DistinctUrls;
    assert !Held(NO_PAGES, row.url);
  }

  lemma OneRowShipped(s: System, row: PageRow, env: Env)
    requires s.producer.pages == [row] && row.rowid == 1
    ensures Shipped(s, 0, 1, env).until == 1
  {
    UntilAdvances([row], s.producer.meta, 0, 1);
    UntilBelowTop([row], s.producer.meta, 0, 1);
    assert Past([row], 0) == [row];
  }

  lemma TwoFileRows(f: PageFile, g: PageFile)
    requires f.url != "" && g.url != ""
    ensures FileRows([f, g]) == [PageRow(1, f.url, f.title, f.fetchedAt), PageRow(2, g.url, g.title, g.fetchedAt)]
  {
    assert [f, g][..1] == [f] && [f][..0] == [] && FileRows([]) == [];
    assert FileRows([f]) == [PageRow(1, f.url, f.title, f.fetchedAt)];
  }

  function TwoPages(x: string, y: string, title: string, meta: map<string, Meta>): Tables {
    Tables([PageRow(1, x, title, ""), PageRow(2, y, title, "")], meta, map[], map[])
  }

  lemma SwapHarmless(x: string, u: string, title: string, env: Env)
    requires x != u && x != "" && u != ""
    ensures var files := [PageFile(x, title, ""), PageFile(u, title, "")];
            var before := TwoPages(u, x, title, map[u := OWN]);
            && Reindexed(before, files) == TwoPages(x, u, title, map[u := OWN])
            && Harmless(before, 2, Reindex(files), env)
  {
    var one := PageRow(1, u, title, "");
    var before := TwoPages(u, x, title, map[u := OWN]);
    TwoFileRows(PageFile(x, title, ""), PageFile(u, title, ""));
    hide FileRows;
    assert one in before.pages;
    forall r | r in TwoPages(x, u, title, map[u := OWN]).pages && Shareable(before.meta, r.url) && !env.junk(r.title)
      ensures OwedBefore(before, r, env)
    {
      assert one.url == r.url && one.rowid <= r.rowid && Owed(before, one, env);
    }
  }

  /** Nor may a replayed bundle be older than a rebuild, however harmless the rebuild: the page that was
      at 1 is now at 2, the reader of 1 has not had it, and the old bundle after 1 does not carry it. */
  lemma StaleReplayMisses(x: string, u: string, title: string, env: Env)
    requires x != u && x != "" && u != "" && !env.junk(title)
    ensures var before := TwoPages(u, x, title, map[u := OWN]);
            var files := [PageFile(x, title, ""), PageFile(u, title, "")];
            var w := Built(1, 0, Shipment(2, "e", []));
            var s := Caught(Reindexed(before, files), 1).(generation := 1, wild := {w}, pull := Probed(1));
            && Lists(before, w, env) && Harmless(before, 2, Reindex(files), env)
            && Inv(s, env) && w.since <= s.cursor && !NoMiss(Taken(s, w, ALL_WRITTEN, env), env)
  {
    SwapHarmless(x, u, title, env);
    var after, moved := TwoPages(x, u, title, map[u := OWN]), PageRow(2, u, title, "");
    hide FileRows, IngestAll, Taken, Next, Reindexed, Harmless;
    var w := Built(1, 0, Shipment(2, "e", []));
    var s := Caught(after, 1).(generation := 1, wild := {w}, pull := Probed(1));
    assert moved in after.pages && Owed(after, moved, env);
    TakenMisses(s, w, moved, ALL_WRITTEN, env);
  }

  // ---------- The puller as an object ----------

  datatype Status =
    | Banned | NoUrl | LivenessFailed | HttpError | Rejected(reason: Reason) | EpochReset | Pulled(stored: nat)

  /** The consumer's row for one peer, and the index it feeds. */
  class PeerPuller {
    const index: Index
    const pubkey: string
    const nickname: string
    var lastPullCursor: int
    var lastSeenEpoch: string

    constructor (index: Index, pubkey: string, nickname: string)
      ensures this.index == index && this.pubkey == pubkey && this.nickname == nickname
      ensures lastPullCursor == 0 && lastSeenEpoch == ""
    {
      this.index, this.pubkey, this.nickname := index, pubkey, nickname;
      lastPullCursor, lastSeenEpoch := 0, "";
    }

    /** `pull_from_peer`: `probe` is the epoch `/index/cursor` reports, `reply` what `/index/pages`
        answers to a cursor. Only a verified bundle from a cursor of its own epoch is ingested, and
        the cursor moves only after that, or back to 0 when the epoch turned. The bundle's own `since`
        has no say in any of this. */
    method PullFromPeer(trustOn: bool, trust: string, url: string, alive: bool, probe: Option<string>,
                        reply: int -> Option<Doc>, sigOk: (string, Payload, string) -> bool, junk: Junk, luck: Luck)
      returns (status: Status)
      requires index.T().Valid()
      modifies this, index
      ensures index.T().Valid()
      ensures !status.Pulled? ==> index.T() == old(index.T())
      ensures !status.Pulled? && !status.EpochReset? ==>
                lastPullCursor == old(lastPullCursor) && lastSeenEpoch == old(lastSeenEpoch)
      ensures status.Banned? <==> trustOn && trust == "banned"
      ensures status.NoUrl? <==> !status.Banned? && url == ""
      ensures status.LivenessFailed? <==> !status.Banned? && url != "" && !alive
      ensures !status.Banned? && url != "" && alive ==>
                var since := EffectiveSince(old(lastPullCursor), old(lastSeenEpoch), probe);
                var doc := reply(since);
                && (status.HttpError? <==> doc.None?)
                && (status.Rejected? <==>
                      doc.Some? && !(doc.value.Object? && Acceptable(doc.value.bundle, pubkey, sigOk)))
                && (status.Rejected? ==> Blames(doc.value, pubkey, sigOk, status.reason))
                && (doc.Some? && doc.value.Object? && Acceptable(doc.value.bundle, pubkey, sigOk) ==>
                      var b := doc.value.bundle;
                      if StaleCursor(old(lastSeenEpoch), b.epoch, since) then
                        status.EpochReset? && lastPullCursor == 0 && lastSeenEpoch == b.epoch
                      else
                        && status.Pulled?
                        && index.T()
                           == IngestAll(old(index.T()), Entries(b.pages.items),
                             Attribution(b.pubkey, nickname, b.root, b.sig), junk, luck)
                        && status.stored == |index.pages| - |old(index.pages)|
                        && lastPullCursor == CursorAfter(b.until.value, since)
                        && lastSeenEpoch == EpochAfter(b.epoch, old(lastSeenEpoch)))
    {
      if trustOn && trust == "banned" {
        return Banned;
      }
      if url == "" {
        return NoUrl;
      }
      if !alive {
        return LivenessFailed;
      }
      var since := EffectiveSince(lastPullCursor, lastSeenEpoch, probe);
      var answer := reply(since);
      if answer.None? {
        return HttpError;
      }
      var v := VerifyBundle(answer.value, pubkey, sigOk);
      if v.Err? {
        return Rejected(v.error);
      }
      var b := answer.value.bundle;
      if StaleCursor(lastSeenEpoch, b.epoch, since) {
        lastPullCursor, lastSeenEpoch := 0, b.epoch;
        return EpochReset;
      }
      var source := Attribution(b.pubkey, nickname, b.root, b.sig);
      var stored := index.IngestBundle(Entries(b.pages.items), source, junk, luck);
      lastPullCursor := CursorAfter(b.until.value, since);
      lastSeenEpoch := EpochAfter(b.epoch, lastSeenEpoch);
      return Pulled(stored);
    }
  }
}
