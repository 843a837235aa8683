/**
 The local page index as an object: serving bundles, ingesting other nodes' bundles, and the
 user's own fetches, labels and tombstones.
 */
module LocalIndex {
  import opened Wrappers
  import opened Seqs
  import Merkle
  import opened PageIndex

  /** Which titles mark a page as junk. */
  type Junk = string -> bool

  /** The tables that ingest touches. */
  datatype Tables = Tables(
    pages: seq<PageRow>, meta: map<string, Meta>,
    contributors: map<(string, string), Attribution>, cids: map<string, string>)
  {
    ghost predicate Valid() {
      InRowidOrder(pages) && DistinctUrls(pages)
    }

    predicate HasPage(url: string) {
      exists i :: 0 <= i < |pages| && pages[i].url == url
    }

    predicate Tombstoned(url: string) {
      url in meta && meta[url].deleted
    }
  }

  /** The columns a caller of `set_meta` names; `None` leaves a column alone. */
  datatype Patch = Patch(scope: Option<Scope>, source: Option<Source>, delete: bool, attribution: Option<Attribution>)

  /** `set_meta`: insert with defaults, or patch; a peer ingest never patches a user-fetched row. */
  function SetMeta(meta: map<string, Meta>, url: string, p: Patch): map<string, Meta> {
    if url !in meta then
      meta[url := Meta(if p.scope.Some? then p.scope.value else Private,
                       if p.source.Some? then p.source.value else UserFetched, p.delete, p.attribution)]
    else
      var m := meta[url];
      if p.source == Some(PeerIngest) && m.source == UserFetched then meta
      else
        meta[url := Meta(if p.scope.Some? then p.scope.value else m.scope,
                         if p.source.Some? then p.source.value else m.source,
                         m.deleted || p.delete,
                         if p.attribution.Some? then p.attribution else m.attribution)]
  }

  function PeerLabelled(meta: map<string, Meta>, url: string, source: Attribution): map<string, Meta> {
    SetMeta(meta, url, Patch(None, Some(PeerIngest), false, Some(source)))
  }

  function NextRowid(pages: seq<PageRow>): nat {
    if pages == [] then 1 else pages[|pages| - 1].rowid + 1
  }

  /** Which of the writes for one page go through: a lost credit or content id is passed over, and
      without its label or its row the page is skipped. */
  datatype Writes = Writes(credit: bool, meta: bool, row: bool, cid: bool) {
    predicate Stores() {
      meta && row
    }
  }

  type Luck = Page -> Writes

  const ALL_WRITTEN: Luck := (p: Page) => Writes(true, true, true, true)

  /** One page of a verified bundle: skip the empty, the junk and the tombstoned, credit the
      contributor, and store it unless the URL is already held. The label is written before the row,
      and stays when the row fails. */
  function IngestOne(t: Tables, p: Page, source: Attribution, junk: Junk, luck: Luck): Tables {
    if p.url == "" || junk(p.title) || t.Tombstoned(p.url) then t
    else
      var w := luck(p);
      var credited := if source.pubkey == "" || !w.credit then t
                      else t.(contributors := t.contributors[(p.url, source.pubkey) := source]);
      if t.HasPage(p.url) || !w.meta then credited
      else
        var labelled := credited.(meta := PeerLabelled(t.meta, p.url, source));
        if !w.row then labelled
        else labelled.(
          pages := t.pages + [PageRow(NextRowid(t.pages), p.url, p.title, p.fetchedAt)],
          cids := if p.cid == "" || p.url in t.cids || !w.cid then t.cids else t.cids[p.url := p.cid])
  }

  function IngestAll(t: Tables, pages: seq<Page>, source: Attribution, junk: Junk, luck: Luck): Tables
    decreases |pages|
  {
    if pages == [] then t
    else
      var n := |pages| - 1;
      IngestOne(IngestAll(t, pages[..n], source, junk, luck), pages[n], source, junk, luck)
  }

  // ---------- What one ingest may and may not do ----------

  /** A page ingest takes up at all. */
  predicate Welcome(t: Tables, p: Page, junk: Junk) {
    p.url != "" && !junk(p.title) && !t.Tombstoned(p.url)
  }

  function RowOf(t: Tables, p: Page): PageRow {
    PageRow(NextRowid(t.pages), p.url, p.title, p.fetchedAt)
  }

  /** What one turn writes: the label and the row of a welcome page that is not held. */
  lemma OneTurn(t: Tables, p: Page, source: Attribution, junk: Junk, luck: Luck)
    ensures var after := IngestOne(t, p, source, junk, luck);
            var taken := Welcome(t, p, junk) && !t.HasPage(p.url);
            && after.meta == (if taken && luck(p).meta then PeerLabelled(t.meta, p.url, source) else t.meta)
            && after.pages == (if taken && luck(p).Stores() then t.pages + [RowOf(t, p)] else t.pages)
  {
    hide PeerLabelled, NextRowid, Tables.HasPage, Tables.Tombstoned;
  }

  /** `after` differs from `before` only by rows for URLs that had none and are not tombstoned, and by
      a peer's private labels. */
  ghost predicate OnlyAddsMissing(before: Tables, after: Tables) {
    && after.Valid()
    && before.pages <= after.pages
    && (forall i :: |before.pages| <= i < |after.pages| ==>
          !before.HasPage(after.pages[i].url) && !before.Tombstoned(after.pages[i].url) && after.pages[i].url != "")
    && (forall u :: u in before.meta ==> u in after.meta && after.meta[u].deleted == before.meta[u].deleted
                                         && after.meta[u].scope == before.meta[u].scope)
    && (forall u :: u in before.meta && before.meta[u].source == UserFetched ==> after.meta[u].source == UserFetched)
    && (forall u :: u in before.meta && before.meta[u].source == PeerIngest ==> after.meta[u].source == PeerIngest)
    && (forall u :: u in after.meta && u !in before.meta ==>
          !after.meta[u].deleted && after.meta[u].scope == Private && after.meta[u].source == PeerIngest)
  }

  /** A peer's label is private, changes no scope, and takes nothing from the user. */
  lemma PeerLabel(meta: map<string, Meta>, url: string, source: Attribution)
    ensures var after := PeerLabelled(meta, url, source);
            && (forall u :: u in after <==> u in meta || u == url)
            && (forall u :: u in meta && u != url ==> after[u] == meta[u])
            && (if url in meta then after[url].scope == meta[url].scope && after[url].deleted == meta[url].deleted
                else after[url] == Meta(Private, PeerIngest, false, Some(source)))
            && after[url].source == (if url in meta && meta[url].source == UserFetched then UserFetched else PeerIngest)
            && (if url in meta && meta[url].source == UserFetched then after[url] == meta[url]
                else after[url].attribution == Some(source))
  {
  }

  lemma IngestOneSafe(t: Tables, p: Page, source: Attribution, junk: Junk, luck: Luck)
    requires t.Valid()
    ensures OnlyAddsMissing(t, IngestOne(t, p, source, junk, luck))
  {
    var after := IngestOne(t, p, source, junk, luck);
    OneTurn(t, p, source, junk, luck);
    PeerLabel(t.meta, p.url, source);
    hide PeerLabelled, IngestOne, NextRowid;
    assert forall u :: u in t.meta && u == p.url && t.Tombstoned(u) ==> !Welcome(t, p, junk);
    if after.pages != t.pages {
      AppendValid(t.pages, RowOf(t, p));
      hide InRowidOrder, DistinctUrls, NextRowid;
      assert after.pages[|t.pages|].url == p.url;
    }
  }

  lemma OnlyAddsMissingTrans(a: Tables, b: Tables, c: Tables)
    requires a.Valid() && OnlyAddsMissing(a, b) && OnlyAddsMissing(b, c)
    ensures OnlyAddsMissing(a, c)
  {
    forall i | |a.pages| <= i < |c.pages|
      ensures !a.HasPage(c.pages[i].url) && !a.Tombstoned(c.pages[i].url) && c.pages[i].url != ""
    {
      if i < |b.pages| {
        assert c.pages[i] == b.pages[i];
      } else {
        assert forall j :: 0 <= j < |a.pages| ==> a.pages[j] == b.pages[j];
      }
    }
  }

  /** No ingest adds a second row for a URL, revives a tombstone, changes a sharing scope or takes a
      user-fetched row away from the user. */
  lemma {:induction false} IngestSafe(t: Tables, pages: seq<Page>, source: Attribution, junk: Junk, luck: Luck)
    requires t.Valid()
    ensures OnlyAddsMissing(t, IngestAll(t, pages, source, junk, luck))
    decreases |pages|
  {
    if pages != [] {
      hide IngestOne, OnlyAddsMissing;
      var before := IngestAll(t, pages[..|pages| - 1], source, junk, luck);
      IngestSafe(t, pages[..|pages| - 1], source, junk, luck);
      AddsMissingValid(t, before);
      IngestOneSafe(before, pages[|pages| - 1], source, junk, luck);
      OnlyAddsMissingTrans(t, before, IngestAll(t, pages, source, junk, luck));
    } else {
      AddsNothing(t);
    }
  }

  lemma AddsMissingValid(before: Tables, after: Tables)
    requires OnlyAddsMissing(before, after)
    ensures after.Valid()
  {
  }

  lemma AddsNothing(t: Tables)
    requires t.Valid()
    ensures OnlyAddsMissing(t, t)
  {
  }

  /** A page is accounted for when it is held, or the node chose not to hold it. */
  ghost predicate Covered(t: Tables, url: string, title: string, junk: Junk) {
    url == "" || junk(title) || t.Tombstoned(url) || t.HasPage(url)
  }

  lemma CoveredStays(before: Tables, after: Tables, url: string, title: string, junk: Junk)
    requires OnlyAddsMissing(before, after) && Covered(before, url, title, junk)
    ensures Covered(after, url, title, junk)
  {
    if before.HasPage(url) {
      var i :| 0 <= i < |before.pages| && before.pages[i].url == url;
      assert after.pages[i].url == url;
    }
  }

  lemma IngestOneCovers(t: Tables, p: Page, source: Attribution, junk: Junk, luck: Luck)
    ensures luck(p).Stores() ==> Covered(IngestOne(t, p, source, junk, luck), p.url, p.title, junk)
  {
    var after := IngestOne(t, p, source, junk, luck);
    if luck(p).Stores() && !Covered(t, p.url, p.title, junk) {
      assert after.pages[|t.pages|].url == p.url;
    }
  }

  /** After an ingest every page of the bundle is accounted for, unless its own writes failed. */
  lemma {:induction false} IngestCovers(t: Tables, pages: seq<Page>, source: Attribution, junk: Junk, luck: Luck)
    requires t.Valid()
    ensures forall p :: p in pages && luck(p).Stores() ==>
              Covered(IngestAll(t, pages, source, junk, luck), p.url, p.title, junk)
    decreases |pages|
  {
    if pages != [] {
      hide IngestOne, OnlyAddsMissing, Covered;
      var some, last := pages[..|pages| - 1], pages[|pages| - 1];
      var before := IngestAll(t, some, source, junk, luck);
      IngestSafe(t, some, source, junk, luck);
      AddsMissingValid(t, before);
      IngestCovers(t, some, source, junk, luck);
      IngestOneSafe(before, last, source, junk, luck);
      IngestOneCovers(before, last, source, junk, luck);
      forall p | p in pages && luck(p).Stores()
        ensures Covered(IngestAll(t, pages, source, junk, luck), p.url, p.title, junk)
      {
        if p in some {
          CoveredStays(before, IngestOne(before, last, source, junk, luck), p.url, p.title, junk);
        } else {
          assert p == last;
        }
      }
    }
  }

  /** `row` was made from `p`, and a URL that had no label got the peer's. */
  ghost predicate MadeFrom(t: Tables, after: Tables, row: PageRow, p: Page, source: Attribution) {
    && row.url == p.url && row.title == p.title && row.fetchedAt == p.fetchedAt
    && row.url in after.meta
    && (row.url !in t.meta ==> after.meta[row.url] == Meta(Private, PeerIngest, false, Some(source)))
  }

  ghost predicate FromBundle(t: Tables, after: Tables, row: PageRow, pages: seq<Page>, source: Attribution, junk: Junk)
  {
    exists p :: p in pages && Welcome(t, p, junk) && MadeFrom(t, after, row, p, source)
  }

  /** Every added row comes from a welcome page of the bundle. */
  ghost predicate RowsFrom(t: Tables, after: Tables, pages: seq<Page>, source: Attribution, junk: Junk) {
    forall i :: |t.pages| <= i < |after.pages| ==> FromBundle(t, after, after.pages[i], pages, source, junk)
  }

  ghost predicate Offered(t: Tables, pages: seq<Page>, url: string, junk: Junk, luck: Luck) {
    exists p :: p in pages && p.url == url && Welcome(t, p, junk) && luck(p).credit
  }

  /** Who is credited for what: the source of every welcome page whose credit was written, and everyone
      credited before. */
  ghost predicate Credits(t: Tables, after: Tables, pages: seq<Page>, source: Attribution, junk: Junk, luck: Luck) {
    forall url, key ::
      if key == source.pubkey != "" && Offered(t, pages, url, junk, luck)
      then (url, key) in after.contributors && after.contributors[(url, key)] == source
      else ((url, key) in after.contributors <==> (url, key) in t.contributors)
           && ((url, key) in t.contributors ==> after.contributors[(url, key)] == t.contributors[(url, key)])
  }

  lemma WelcomeStays(t: Tables, before: Tables, p: Page, junk: Junk)
    requires OnlyAddsMissing(t, before)
    ensures Welcome(before, p, junk) <==> Welcome(t, p, junk)
  {
  }

  lemma {:induction false} IngestCredits(t: Tables, pages: seq<Page>, source: Attribution, junk: Junk, luck: Luck)
    requires t.Valid()
    ensures Credits(t, IngestAll(t, pages, source, junk, luck), pages, source, junk, luck)
    decreases |pages|
  {
    if pages != [] {
      var some, last := pages[..|pages| - 1], pages[|pages| - 1];
      var before := IngestAll(t, some, source, junk, luck);
      IngestCredits(t, some, source, junk, luck);
      IngestSafe(t, some, source, junk, luck);
      WelcomeStays(t, before, last, junk);
      CreditsOne(before, last, source, junk, luck);
      hide OnlyAddsMissing, Welcome, IngestOne, Offered;
      forall url
        ensures Offered(t, pages, url, junk, luck) <==>
                  Offered(t, some, url, junk, luck) || (url == last.url && Welcome(t, last, junk) && luck(last).credit)
      {
        OfferedSnoc(t, some, last, url, junk, luck);
        assert pages == some + [last];
      }
    }
  }

  lemma OfferedSnoc(t: Tables, pages: seq<Page>, p: Page, url: string, junk: Junk, luck: Luck)
    ensures Offered(t, pages + [p], url, junk, luck) <==>
              Offered(t, pages, url, junk, luck) || (url == p.url && Welcome(t, p, junk) && luck(p).credit)
  {
    hide Welcome;
    assert p in pages + [p];
    if Offered(t, pages, url, junk, luck) {
      var q :| q in pages && q.url == url && Welcome(t, q, junk) && luck(q).credit;
      assert q in pages + [p];
    }
  }

  lemma CreditsOne(t: Tables, p: Page, source: Attribution, junk: Junk, luck: Luck)
    ensures IngestOne(t, p, source, junk, luck).contributors
         == if source.pubkey == "" || !Welcome(t, p, junk) || !luck(p).credit then t.contributors
            else t.contributors[(p.url, source.pubkey) := source]
  {
  }

  lemma RowOne(t: Tables, before: Tables, p: Page, source: Attribution, junk: Junk, luck: Luck)
    requires OnlyAddsMissing(t, before) && |t.pages| <= |before.pages|
    ensures var after := IngestOne(before, p, source, junk, luck);
            && |before.pages| <= |after.pages| <= |before.pages| + 1
            && (|after.pages| > |before.pages| ==>
                  Welcome(before, p, junk) && MadeFrom(t, after, after.pages[|before.pages|], p, source))
            && (forall i :: 0 <= i < |before.pages| ==> after.pages[i] == before.pages[i])
            && (forall i, q :: |t.pages| <= i < |before.pages| && MadeFrom(t, before, before.pages[i], q, source) ==>
                  MadeFrom(t, after, before.pages[i], q, source))
  {
    OneTurn(before, p, source, junk, luck);
    PeerLabel(before.meta, p.url, source);
    hide IngestOne, PeerLabelled, Tables.HasPage, InRowidOrder, DistinctUrls, NextRowid;
  }

  lemma {:induction false} IngestRows(t: Tables, pages: seq<Page>, source: Attribution, junk: Junk, luck: Luck)
    requires t.Valid()
    ensures RowsFrom(t, IngestAll(t, pages, source, junk, luck), pages, source, junk)
    decreases |pages|
  {
    if pages != [] {
      var some, last := pages[..|pages| - 1], pages[|pages| - 1];
      var before, after := IngestAll(t, some, source, junk, luck), IngestAll(t, pages, source, junk, luck);
      IngestRows(t, some, source, junk, luck);
      IngestSafe(t, some, source, junk, luck);
      WelcomeStays(t, before, last, junk);
      RowOne(t, before, last, source, junk, luck);
      hide IngestOne, MadeFrom, Welcome;
      assert last in pages;
      forall i | |t.pages| <= i < |after.pages| ensures FromBundle(t, after, after.pages[i], pages, source, junk) {
        if i < |before.pages| {
          var row := before.pages[i];
          assert FromBundle(t, before, row, some, source, junk) && after.pages[i] == row;
          var q :| q in some && Welcome(t, q, junk) && MadeFrom(t, before, row, q, source);
          assert q in pages && MadeFrom(t, after, row, q, source);
        }
      }
    }
  }

  // ---------- Which rows, under which numbers ----------

  predicate Listed(pages: seq<Page>, url: string) {
    exists i :: 0 <= i < |pages| && pages[i].url == url
  }

  /** The pages an ingest will store: the welcome ones whose writes go through and whose URL is not
      held, each URL once. */
  function NewPages(t: Tables, pages: seq<Page>, junk: Junk, luck: Luck): seq<Page>
    decreases |pages|
  {
    if pages == [] then []
    else
      var some, p := NewPages(t, pages[..|pages| - 1], junk, luck), pages[|pages| - 1];
      Stored(t, some, p, junk, luck)
  }

  function Stored(t: Tables, some: seq<Page>, p: Page, junk: Junk, luck: Luck): seq<Page> {
    if Welcome(t, p, junk) && luck(p).Stores() && !t.HasPage(p.url) && !Listed(some, p.url) then some + [p] else some
  }

  /** Rows made of pages, numbered from `first` on. */
  function Numbered(pages: seq<Page>, first: nat): seq<PageRow> {
    seq(|pages|, i requires 0 <= i < |pages| => PageRow(first + i, pages[i].url, pages[i].title, pages[i].fetchedAt))
  }

  /** A label that makes a page one's own, to be served. */
  ghost predicate Own(meta: map<string, Meta>, url: string) {
    Shareable(meta, url) && meta[url].source == UserFetched
  }

  ghost predicate SameLabel(before: map<string, Meta>, after: map<string, Meta>, url: string) {
    (url in before <==> url in after) && (url in before ==> after[url] == before[url])
  }

  /** The labels of held pages stay, nobody gains or loses an own label, and no new page is open for
      another reason. */
  ghost predicate Labels(t: Tables, after: Tables, stored: seq<Page>) {
    && (forall u :: t.HasPage(u) ==> SameLabel(t.meta, after.meta, u))
    && (forall u :: Own(after.meta, u) <==> Own(t.meta, u))
    && (forall u :: Listed(stored, u) ==> (Shareable(after.meta, u) <==> Own(t.meta, u)))
  }

  lemma ListedSnoc(pages: seq<Page>, p: Page, url: string)
    ensures Listed(pages + [p], url) <==> Listed(pages, url) || p.url == url
  {
    if Listed(pages, url) {
      var i :| 0 <= i < |pages| && pages[i].url == url;
      assert (pages + [p])[i].url == url;
    }
    assert (pages + [p])[|pages|] == p;
  }

  lemma NumberedSnoc(pages: seq<Page>, p: Page, first: nat)
    ensures Numbered(pages + [p], first)
         == Numbered(pages, first) + [PageRow(first + |pages|, p.url, p.title, p.fetchedAt)]
  {
  }

  lemma {:induction false} NewPagesAreNew(t: Tables, pages: seq<Page>, junk: Junk, luck: Luck)
    ensures forall i :: 0 <= i < |NewPages(t, pages, junk, luck)| ==>
              Welcome(t, NewPages(t, pages, junk, luck)[i], junk) && !t.HasPage(NewPages(t, pages, junk, luck)[i].url)
    decreases |pages|
  {
    if pages != [] {
      NewPagesAreNew(t, pages[..|pages| - 1], junk, luck);
      hide Welcome, Listed, Tables.HasPage;
    }
  }

  lemma NumberedUrls(t: Tables, after: Tables, pages: seq<Page>, first: nat, url: string)
    requires after.pages == t.pages + Numbered(pages, first)
    ensures after.HasPage(url) <==> t.HasPage(url) || Listed(pages, url)
  {
    if i :| 0 <= i < |t.pages| && t.pages[i].url == url {
      assert after.pages[i].url == url;
    }
    if i :| 0 <= i < |pages| && pages[i].url == url {
      assert after.pages[|t.pages| + i].url == url;
    }
  }

  lemma NextNumber(t: Tables, after: Tables, pages: seq<Page>)
    requires after.pages == t.pages + Numbered(pages, NextRowid(t.pages))
    ensures NextRowid(after.pages) == NextRowid(t.pages) + |pages|
  {
  }

  /** One more page: stored under the next number, or skipped. */
  lemma AppendsOne(t: Tables, before: Tables, stored: seq<Page>, p: Page, source: Attribution, junk: Junk, luck: Luck)
    requires before.pages == t.pages + Numbered(stored, NextRowid(t.pages))
               && (Welcome(before, p, junk) <==> Welcome(t, p, junk))
    ensures var now := Stored(t, stored, p, junk, luck);
            IngestOne(before, p, source, junk, luck).pages == t.pages + Numbered(now, NextRowid(t.pages))
  {
    NumberedUrls(t, before, stored, NextRowid(t.pages), p.url);
    NextNumber(t, before, stored);
    NumberedSnoc(stored, p, NextRowid(t.pages));
    hide Tables.HasPage, Numbered, NextRowid, Listed;
  }

  /** An ingest appends exactly the new pages, in order, numbered without a gap. */
  lemma {:induction false} IngestAppends(t: Tables, pages: seq<Page>, source: Attribution, junk: Junk, luck: Luck)
    requires t.Valid()
    ensures IngestAll(t, pages, source, junk, luck).pages
              == t.pages + Numbered(NewPages(t, pages, junk, luck), NextRowid(t.pages))
    decreases |pages|
  {
    if pages == [] {
      assert t.pages + [] == t.pages;
    } else {
      var some := pages[..|pages| - 1];
      var before := IngestAll(t, some, source, junk, luck);
      IngestAppends(t, some, source, junk, luck);
      IngestSafe(t, some, source, junk, luck);
      WelcomeStays(t, before, pages[|pages| - 1], junk);
      AppendsOne(t, before, NewPages(t, some, junk, luck), pages[|pages| - 1], source, junk, luck);
      hide IngestOne, Welcome, Numbered, OnlyAddsMissing, NextRowid, Listed, Tables.HasPage;
    }
  }

  /** Some page of the bundle for this URL is not junk, and its writes go through. */
  ghost predicate Lands(pages: seq<Page>, url: string, junk: Junk, luck: Luck) {
    exists p :: p in pages && p.url == url && !junk(p.title) && luck(p).Stores()
  }

  lemma LandsSnoc(pages: seq<Page>, last: Page, url: string, junk: Junk, luck: Luck)
    ensures Lands(pages + [last], url, junk, luck)
       <==> Lands(pages, url, junk, luck) || (last.url == url && !junk(last.title) && luck(last).Stores())
  {
    assert last in pages + [last];
    if Lands(pages, url, junk, luck) {
      var p :| p in pages && p.url == url && !junk(p.title) && luck(p).Stores();
      assert p in pages + [last];
    }
  }

  lemma {:induction false} NewPagesLand(t: Tables, pages: seq<Page>, junk: Junk, luck: Luck, url: string)
    requires url != "" && !t.Tombstoned(url) && !t.HasPage(url)
    ensures Listed(NewPages(t, pages, junk, luck), url) <==> Lands(pages, url, junk, luck)
    decreases |pages|
  {
    if pages != [] {
      var some, last := pages[..|pages| - 1], pages[|pages| - 1];
      NewPagesLand(t, some, junk, luck, url);
      LandsSnoc(some, last, url, junk, luck);
      ListedSnoc(NewPages(t, some, junk, luck), last, url);
      assert pages == some + [last];
      hide Lands, Listed, Tables.HasPage, Tables.Tombstoned;
    }
  }

  /** What is held after an ingest: what was, what is tombstoned, and what landed. */
  lemma IngestHolds(t: Tables, pages: seq<Page>, source: Attribution, junk: Junk, luck: Luck, url: string)
    requires t.Valid() && url != ""
    ensures var after := IngestAll(t, pages, source, junk, luck);
            && (after.Tombstoned(url) <==> t.Tombstoned(url))
            && (after.Tombstoned(url) || after.HasPage(url) <==>
                  t.Tombstoned(url) || t.HasPage(url) || Lands(pages, url, junk, luck))
  {
    var after, stored := IngestAll(t, pages, source, junk, luck), NewPages(t, pages, junk, luck);
    IngestSafe(t, pages, source, junk, luck);
    IngestAppends(t, pages, source, junk, luck);
    NumberedUrls(t, after, stored, NextRowid(t.pages), url);
    if !t.Tombstoned(url) && !t.HasPage(url) {
      NewPagesLand(t, pages, junk, luck, url);
    }
    hide IngestAll, NewPages, Lands, Listed, Tables.HasPage, Numbered, NextRowid, InRowidOrder, DistinctUrls;
  }

  lemma LabelsOne(t: Tables, before: Tables, stored: seq<Page>, p: Page, source: Attribution, junk: Junk, luck: Luck)
    requires Labels(t, before, stored) && (Welcome(before, p, junk) <==> Welcome(t, p, junk))
    requires before.HasPage(p.url) <==> t.HasPage(p.url) || Listed(stored, p.url)
    ensures var now := Stored(t, stored, p, junk, luck);
            Labels(t, IngestOne(before, p, source, junk, luck), now)
  {
    OneTurn(before, p, source, junk, luck);
    PeerLabel(before.meta, p.url, source);
    hide Tables.HasPage, Listed, PeerLabelled, IngestOne, Welcome, RowOf;
    forall u ensures Listed(stored + [p], u) <==> Listed(stored, u) || p.url == u {
      ListedSnoc(stored, p, u);
    }
  }

  /** After an ingest a new page is served exactly when its URL carried an own sharing label before; the
      labels of held pages stay as they were. */
  lemma {:induction false} IngestLabels(t: Tables, pages: seq<Page>, source: Attribution, junk: Junk, luck: Luck)
    requires t.Valid()
    ensures Labels(t, IngestAll(t, pages, source, junk, luck), NewPages(t, pages, junk, luck))
    decreases |pages|
  {
    if pages != [] {
      var some, p := pages[..|pages| - 1], pages[|pages| - 1];
      var before := IngestAll(t, some, source, junk, luck);
      IngestLabels(t, some, source, junk, luck);
      IngestAppends(t, some, source, junk, luck);
      IngestSafe(t, some, source, junk, luck);
      WelcomeStays(t, before, p, junk);
      NumberedUrls(t, before, NewPages(t, some, junk, luck), NextRowid(t.pages), p.url);
      LabelsOne(t, before, NewPages(t, some, junk, luck), p, source, junk, luck);
      hide IngestOne, Welcome, Numbered, OnlyAddsMissing, NextRowid, Listed, Tables.HasPage, Labels;
    }
  }

  // ---------- What the user does ----------

  function NotUrl(url: string): PageRow -> bool {
    (r: PageRow) => r.url != url
  }

  /** How far `index_page` gets: a row whose label or content id cannot be written is kept all the
      same; when the row itself cannot be written, nothing is. */
  datatype Sidecar = Complete | NoCid | NoLabel | NoRow

  /** `index_page`: drop the old row, append a fresh one, and mark it user-fetched. */
  function Fetched(t: Tables, p: Page, scope: Scope, junk: Junk, sidecar: Sidecar): Tables {
    if p.url == "" || junk(p.title) || sidecar.NoRow? then t
    else
      var others := Filter(t.pages, NotUrl(p.url));
      t.(pages := others + [PageRow(NextRowid(others), p.url, p.title, p.fetchedAt)],
         meta := if sidecar.NoLabel? then t.meta
                 else SetMeta(t.meta, p.url, Patch(Some(scope), Some(UserFetched), false, None)),
         cids := if sidecar.Complete? then t.cids[p.url := p.cid] else t.cids)
  }

  /** A page file on disk, its URL in canonical form. */
  datatype PageFile = PageFile(url: string, title: string, fetchedAt: string)

  /** The rows `reindex_knowledge` writes: files without a URL are skipped, and with the table emptied
      first the numbers start from 1 again. */
  function FileRows(files: seq<PageFile>): (rows: seq<PageRow>)
    ensures forall i :: 0 <= i < |rows| ==> rows[i].rowid == i + 1 && rows[i].url != ""
  {
    if files == [] then []
    else
      var rows, f := FileRows(files[..|files| - 1]), files[|files| - 1];
      if f.url == "" then rows else rows + [PageRow(|rows| + 1, f.url, f.title, f.fetchedAt)]
  }

  /** `reindex_knowledge`: every page is replaced by what is on disk; labels and epoch stay. */
  function Reindexed(t: Tables, files: seq<PageFile>): Tables {
    t.(pages := FileRows(files))
  }

  /** The documented one-shot SQL that labels every page without a label as the user's own, shared
      with friends. */
  function Backfilled(t: Tables): Tables {
    var unlabelled := set r | r in t.pages && r.url !in t.meta :: r.url;
    t.(meta := t.meta + map u | u in unlabelled :: Meta(Friends, UserFetched, false, None))
  }

  /** What can happen to a node's tables: ingests, re-indexed pages, labels and tombstones set by hand,
      the backfill, and a rebuild of the page table from disk. */
  datatype Act =
    | Ingest(pages: seq<Page>, source: Attribution, luck: Luck)
    | Fetch(page: Page, scope: Scope, sidecar: Sidecar)
    | Share(url: string, newScope: Scope)
    | Tombstone(url: string)
    | Backfill
    | Reindex(files: seq<PageFile>)

  /** The tables, and the URLs whose row came from a peer and has not been fetched by the user since. */
  datatype Node = Node(t: Tables, borrowed: set<string>)

  function Urls(pages: seq<PageRow>): set<string> {
    set r | r in pages :: r.url
  }

  function Perform(n: Node, a: Act, junk: Junk): Node {
    match a
    case Ingest(pages, source, luck) =>
      var t := IngestAll(n.t, pages, source, junk, luck);
      Node(t, n.borrowed + (Urls(t.pages) - Urls(n.t.pages)))
    case Fetch(p, scope, sidecar) =>
      var t := Fetched(n.t, p, scope, junk, sidecar);
      Node(t, if t == n.t then n.borrowed else n.borrowed - {p.url})
    case Share(url, scope) =>
      n.(t := n.t.(meta := SetMeta(n.t.meta, url, Patch(Some(scope), None, false, None))))
    case Tombstone(url) =>
      n.(t := n.t.(meta := SetMeta(n.t.meta, url, Patch(None, None, true, None))))
    case Backfill => n.(t := Backfilled(n.t))
    case Reindex(files) => Node(Reindexed(n.t, files), {})
  }

  /** Every label is a tombstone, a peer's, or that of a page the node holds. */
  ghost predicate MetaBacked(t: Tables) {
    forall u :: u in t.meta ==> t.meta[u].deleted || t.meta[u].source == PeerIngest || t.HasPage(u)
  }

  ghost predicate NoReshare(n: Node) {
    && n.t.Valid() && MetaBacked(n.t)
    && forall u :: u in n.borrowed ==> u in n.t.meta && n.t.meta[u].source == PeerIngest
  }

  /** Everything `after` holds beyond `before` is marked as a peer's, and stays so. */
  ghost predicate MarksAdded(before: Tables, after: Tables) {
    && MetaBacked(after)
    && |before.pages| <= |after.pages|
    && (forall u :: u in before.meta && before.meta[u].source == PeerIngest ==>
          u in after.meta && after.meta[u].source == PeerIngest)
    && (forall i :: |before.pages| <= i < |after.pages| ==>
          after.pages[i].url in after.meta && after.meta[after.pages[i].url].source == PeerIngest)
  }

  lemma IngestOneMarks(t: Tables, p: Page, source: Attribution, junk: Junk, luck: Luck)
    requires MetaBacked(t)
    ensures MarksAdded(t, IngestOne(t, p, source, junk, luck))
  {
    var after := IngestOne(t, p, source, junk, luck);
    OneTurn(t, p, source, junk, luck);
    PeerLabel(t.meta, p.url, source);
    hide IngestOne, PeerLabelled, NextRowid;
    forall u | u in after.meta ensures after.meta[u].deleted || after.meta[u].source == PeerIngest || after.HasPage(u) {
      if t.HasPage(u) {
        var i :| 0 <= i < |t.pages| && t.pages[i].url == u;
        assert after.pages[i].url == u;
      } else if u == p.url && after.pages != t.pages {
        assert after.pages[|t.pages|].url == u;
      }
    }
  }

  lemma {:induction false} IngestMarks(t: Tables, pages: seq<Page>, source: Attribution, junk: Junk, luck: Luck)
    requires t.Valid() && MetaBacked(t)
    ensures MarksAdded(t, IngestAll(t, pages, source, junk, luck))
    decreases |pages|
  {
    if pages != [] {
      hide IngestOne;
      var before := IngestAll(t, pages[..|pages| - 1], source, junk, luck);
      IngestMarks(t, pages[..|pages| - 1], source, junk, luck);
      IngestSafe(t, pages[..|pages| - 1], source, junk, luck);
      AddsMissingValid(t, before);
      IngestOneMarks(before, pages[|pages| - 1], source, junk, luck);
      IngestOneSafe(before, pages[|pages| - 1], source, junk, luck);
      var after := IngestAll(t, pages, source, junk, luck);
      forall i | |t.pages| <= i < |after.pages|
        ensures after.pages[i].url in after.meta && after.meta[after.pages[i].url].source == PeerIngest
      {
        if i < |before.pages| {
          assert after.pages[i] == before.pages[i];
        }
      }
    }
  }

  lemma AppendValid(rows: seq<PageRow>, row: PageRow)
    requires InRowidOrder(rows) && DistinctUrls(rows) && row.rowid == NextRowid(rows)
    requires forall r :: r in rows ==> r.url != row.url
    ensures InRowidOrder(rows + [row]) && DistinctUrls(rows + [row])
  {
    assert forall i :: 0 <= i < |rows| ==> rows[i] in rows;
  }

  lemma FetchedValid(t: Tables, p: Page, scope: Scope, junk: Junk, sidecar: Sidecar)
    requires t.Valid()
    ensures Fetched(t, p, scope, junk, sidecar).Valid()
  {
    var others := Filter(t.pages, NotUrl(p.url));
    FilterInOrder(t.pages, NotUrl(p.url));
    FilterDistinct(t.pages, NotUrl(p.url));
    hide Filter, InRowidOrder, DistinctUrls;
    AppendValid(others, PageRow(NextRowid(others), p.url, p.title, p.fetchedAt));
  }

  lemma FetchedHas(t: Tables, p: Page, scope: Scope, junk: Junk, sidecar: Sidecar, u: string)
    ensures Fetched(t, p, scope, junk, sidecar).HasPage(u)
       <==> t.HasPage(u) || (u == p.url && u != "" && !junk(p.title) && !sidecar.NoRow?)
  {
    var others := Filter(t.pages, NotUrl(p.url));
    var row := PageRow(NextRowid(others), p.url, p.title, p.fetchedAt);
    HasPageMember(t, u);
    HasPageMember(Fetched(t, p, scope, junk, sidecar), u);
    hide Tables.HasPage;
    assert forall r :: r in others + [row] <==> r in others || r == row;
  }

  lemma HasPageMember(t: Tables, u: string)
    ensures t.HasPage(u) <==> exists r :: r in t.pages && r.url == u
  {
    if r :| r in t.pages && r.url == u {
      var i :| 0 <= i < |t.pages| && t.pages[i] == r;
    }
  }

  ghost predicate OnDisk(files: seq<PageFile>, url: string) {
    exists i :: 0 <= i < |files| && files[i].url == url
  }

  ghost predicate DistinctFiles(files: seq<PageFile>) {
    forall i, j :: 0 <= i < j < |files| && files[i].url == files[j].url ==> files[i].url == ""
  }

  /** Every live page of the user's own is on disk. */
  ghost predicate KeepsOwn(t: Tables, files: seq<PageFile>) {
    forall u :: u in t.meta && !t.meta[u].deleted && t.meta[u].source != PeerIngest ==> u != "" && OnDisk(files, u)
  }

  /** A label is set by hand only on a page the node holds; and when the page table is rebuilt, every
      page labelled as the user's own is on disk, once. */
  ghost predicate Proper(n: Node, a: Act) {
    && (a.Share? ==> n.t.HasPage(a.url))
    && (a.Reindex? ==> DistinctFiles(a.files) && KeepsOwn(n.t, a.files))
  }

  ghost predicate HasRow(rows: seq<PageRow>, url: string) {
    exists i :: 0 <= i < |rows| && rows[i].url == url
  }

  lemma OneMoreFile(files: seq<PageFile>, f: PageFile, rows: seq<PageRow>, row: PageRow, url: string)
    ensures OnDisk(files + [f], url) <==> OnDisk(files, url) || f.url == url
    ensures HasRow(rows + [row], url) <==> HasRow(rows, url) || row.url == url
  {
    var more, longer := files + [f], rows + [row];
    assert more[|files|] == f && longer[|rows|] == row;
    if i :| 0 <= i < |files| && files[i].url == url {
      assert more[i] == files[i];
    }
    if i :| 0 <= i < |rows| && rows[i].url == url {
      assert longer[i] == rows[i];
    }
  }

  /** The rebuilt table has a row for every file with a URL, and nothing else; no URL twice, unless two
      files share one. */
  lemma {:induction false} FileRowsExact(files: seq<PageFile>)
    ensures InRowidOrder(FileRows(files)) && (DistinctFiles(files) ==> DistinctUrls(FileRows(files)))
    ensures forall u :: HasRow(FileRows(files), u) <==> u != "" && OnDisk(files, u)
    decreases |files|
  {
    if files == [] {
      assert forall u :: !HasRow([], u);
    } else {
      var n := |files| - 1;
      var some, f := files[..n], files[n];
      var rows := FileRows(some);
      assert files == some + [f];
      FileRowsExact(some);
      var row := PageRow(|rows| + 1, f.url, f.title, f.fetchedAt);
      forall u ensures OnDisk(files, u) <==> OnDisk(some, u) || f.url == u {
        OneMoreFile(some, f, rows, row, u);
      }
      forall u ensures HasRow(rows + [row], u) <==> HasRow(rows, u) || f.url == u {
        OneMoreFile(some, f, rows, row, u);
      }
      if DistinctFiles(files) {
        FewerDistinct(some, f);
        assert f.url != "" ==> !HasRow(rows, f.url);
      }
      hide OnDisk, DistinctFiles;
    }
  }

  lemma FewerDistinct(some: seq<PageFile>, f: PageFile)
    requires DistinctFiles(some + [f])
    ensures DistinctFiles(some) && (f.url != "" ==> !OnDisk(some, f.url))
  {
    var files := some + [f];
    assert files[|some|] == f;
    assert forall i :: 0 <= i < |some| ==> files[i] == some[i];
  }

  lemma StepKeepsNoReshare(n: Node, a: Act, junk: Junk)
    requires NoReshare(n) && Proper(n, a)
    ensures NoReshare(Perform(n, a, junk))
  {
    match a
    case Ingest(pages, source, luck) =>
      IngestKeepsNoReshare(n, pages, source, junk, luck);
    case Fetch(p, scope, sidecar) =>
      FetchedValid(n.t, p, scope, junk, sidecar);
      forall u {
        FetchedHas(n.t, p, scope, junk, sidecar, u);
      }
    case Share(url, scope) =>
      assert Perform(n, a, junk).t.pages == n.t.pages;
    case Tombstone(url) =>
      assert Perform(n, a, junk).t.pages == n.t.pages;
    case Backfill =>
      BackfillKeeps(n.t);
    case Reindex(files) =>
      ReindexKeepsBacked(n, files, junk);
  }

  lemma BackfillKeeps(t: Tables)
    requires t.Valid() && MetaBacked(t)
    ensures Backfilled(t).Valid() && MetaBacked(Backfilled(t)) && Backfilled(t).pages == t.pages
    ensures forall u :: u in t.meta ==> u in Backfilled(t).meta && Backfilled(t).meta[u] == t.meta[u]
  {
    var after := Backfilled(t);
    forall u | u in after.meta && u !in t.meta ensures after.HasPage(u) {
      var r :| r in t.pages && r.url == u;
      HasPageMember(after, u);
    }
    assert forall u :: t.HasPage(u) ==> after.HasPage(u);
  }

  lemma ReindexKeepsBacked(n: Node, files: seq<PageFile>, junk: Junk)
    requires NoReshare(n) && Proper(n, Reindex(files))
    ensures NoReshare(Perform(n, Reindex(files), junk))
  {
    FileRowsExact(files);
    hide FileRows, OnDisk, DistinctFiles;
  }

  lemma IngestKeepsNoReshare(n: Node, pages: seq<Page>, source: Attribution, junk: Junk, luck: Luck)
    requires NoReshare(n)
    ensures NoReshare(Perform(n, Ingest(pages, source, luck), junk))
  {
    hide IngestAll;
    IngestSafe(n.t, pages, source, junk, luck);
    IngestMarks(n.t, pages, source, junk, luck);
    var t := IngestAll(n.t, pages, source, junk, luck);
    assert forall k :: 0 <= k < |n.t.pages| ==> n.t.pages[k] in n.t.pages && t.pages[k] == n.t.pages[k];
    forall u | u in Urls(t.pages) - Urls(n.t.pages) ensures u in t.meta && t.meta[u].source == PeerIngest {
      var r :| r in t.pages && r.url == u;
      var i :| 0 <= i < |t.pages| && t.pages[i] == r;
      assert i >= |n.t.pages|;
    }
  }

  ghost predicate ProperRun(n: Node, acts: seq<Act>, junk: Junk)
    decreases |acts|
  {
    acts == [] || (Proper(n, acts[0]) && ProperRun(Perform(n, acts[0], junk), acts[1..], junk))
  }

  ghost function AfterRun(n: Node, acts: seq<Act>, junk: Junk): Node
    decreases |acts|
  {
    if acts == [] then n else AfterRun(Perform(n, acts[0], junk), acts[1..], junk)
  }

  /** Over any run, a page that came from a peer is never in a bundle this node builds until the
      user fetches it, whatever the user shares or tombstones in between. */
  lemma {:induction false} BorrowedNeverServed(n: Node, acts: seq<Act>, junk: Junk)
    requires NoReshare(n) && ProperRun(n, acts, junk)
    ensures var last := AfterRun(n, acts, junk);
            && NoReshare(last)
            && forall since, until, r :: r in Window(last.t.pages, last.t.meta, since, until) ==>
                 r.url !in last.borrowed
    decreases |acts|
  {
    if acts != [] {
      StepKeepsNoReshare(n, acts[0], junk);
      BorrowedNeverServed(Perform(n, acts[0], junk), acts[1..], junk);
    }
  }

  /** Exactly when a freshly ingested row is immediately servable: its URL already carried a live
      user-fetched label with a sharing scope, but no page. */
  lemma IngestedServedIff(t: Tables, p: Page, source: Attribution, junk: Junk, luck: Luck)
    requires t.Valid() && IngestOne(t, p, source, junk, luck).pages != t.pages
    ensures Shareable(IngestOne(t, p, source, junk, luck).meta, p.url)
       <==> p.url in t.meta && t.meta[p.url].source == UserFetched
            && (t.meta[p.url].scope == Friends || t.meta[p.url].scope == Public)
  {
  }

  /** A rebuild of the page table opens the door to re-serving a peer's page as one's own exactly when
      it leaves a live, shared label of the user's without its page. */
  lemma ReindexReservesIff(t: Tables, files: seq<PageFile>, title: string, junk: Junk)
    requires !junk(title)
    ensures (exists p: Page, source: Attribution :: p.title == title
              && NewlyServed(Reindexed(t, files), p, source, junk, ALL_WRITTEN))
       <==> (exists u :: u != "" && Own(t.meta, u) && !OnDisk(files, u))
  {
    var after := Reindexed(t, files);
    FileRowsExact(files);
    assert forall u :: after.HasPage(u) <==> HasRow(FileRows(files), u);
    hide FileRows, OnDisk, DistinctFiles, InRowidOrder, DistinctUrls, HasRow;
    if u :| u != "" && Own(t.meta, u) && !OnDisk(files, u) {
      var p := Page(u, title, "", "", "", "");
      ServedIfOwn(after, p, Attribution("", "", None, ""), junk, ALL_WRITTEN);
    }
    if p: Page, source: Attribution :| p.title == title && NewlyServed(after, p, source, junk, ALL_WRITTEN) {
      ServedIfOwn(after, p, source, junk, ALL_WRITTEN);
    }
  }

  lemma ServedIfOwn(t: Tables, p: Page, source: Attribution, junk: Junk, luck: Luck)
    ensures NewlyServed(t, p, source, junk, luck)
       <==> p.url != "" && !junk(p.title) && luck(p).Stores() && !t.HasPage(p.url) && Own(t.meta, p.url)
  {
    if luck(p).Stores() && p.url != "" && !junk(p.title) && !t.HasPage(p.url) && !t.Tombstoned(p.url) {
      var after := IngestOne(t, p, source, junk, luck);
      assert |after.pages| == |t.pages| + 1;
    }
  }

  /** Ingesting the page stores it, and at once it is servable. */
  ghost predicate NewlyServed(t: Tables, p: Page, source: Attribution, junk: Junk, luck: Luck) {
    IngestOne(t, p, source, junk, luck).pages != t.pages && Shareable(IngestOne(t, p, source, junk, luck).meta, p.url)
  }

  /** A reachable case: the user fetches a page, its file disappears, the index is rebuilt, and a peer's
      copy of the page is then re-served as the user's own. */
  lemma LostFileReshares(source: Attribution)
    ensures var junk := (title: string) => false;
            var p := Page("u", "t", "h", "", "", "");
            var empty := Node(Tables([], map[], map[], map[]), {});
            var acts := [Fetch(p, Friends, Complete), Reindex([]), Ingest([p], source, ALL_WRITTEN)];
            var after := AfterRun(empty, acts, junk);
            NoReshare(empty) && "u" in after.borrowed && Shareable(after.t.meta, "u")
  {
    var junk := (title: string) => false;
    var p := Page("u", "t", "h", "", "", "");
    var empty := Node(Tables([], map[], map[], map[]), {});
    var fetched := Perform(empty, Fetch(p, Friends, Complete), junk);
    var rebuilt := Perform(fetched, Reindex([]), junk);
    assert rebuilt.t.pages == [] && rebuilt.t.meta == map["u" := Meta(Friends, UserFetched, false, None)];
    assert [p][..0] == [];
    assert IngestAll(rebuilt.t, [p], source, junk, ALL_WRITTEN) == IngestOne(rebuilt.t, p, source, junk, ALL_WRITTEN);
    var after := Perform(rebuilt, Ingest([p], source, ALL_WRITTEN), junk);
    assert after.t.pages == [PageRow(1, "u", "t", "")];
    assert after.t.pages[0] in after.t.pages;
    ThreeActs(empty, Fetch(p, Friends, Complete), Reindex([]), Ingest([p], source, ALL_WRITTEN), junk);
  }

  lemma ThreeActs(n: Node, a: Act, b: Act, c: Act, junk: Junk)
    ensures AfterRun(n, [a, b, c], junk) == Perform(Perform(Perform(n, a, junk), b, junk), c, junk)
  {
    hide Perform;
    var m := Perform(Perform(n, a, junk), b, junk);
    assert [a, b, c][1..] == [b, c] && [b, c][1..] == [c] && [c][1..] == [];
    assert AfterRun(Perform(m, c, junk), [], junk) == Perform(m, c, junk);
    assert AfterRun(m, [c], junk) == Perform(m, c, junk);
  }

  // ---------- Tombstones ----------

  lemma {:induction false} IngestKeepsTombstone(t: Tables, pages: seq<Page>, source: Attribution, junk: Junk,
                                                luck: Luck, url: string)
    requires t.Tombstoned(url)
    ensures IngestAll(t, pages, source, junk, luck).Tombstoned(url)
    decreases |pages|
  {
    if pages != [] {
      var n := |pages| - 1;
      var before := IngestAll(t, pages[..n], source, junk, luck);
      IngestKeepsTombstone(t, pages[..n], source, junk, luck, url);
      OneTurn(before, pages[n], source, junk, luck);
      PeerLabel(before.meta, pages[n].url, source);
      hide IngestOne, PeerLabelled, Tables.HasPage;
    }
  }

  lemma ActKeepsTombstone(n: Node, a: Act, junk: Junk, url: string)
    requires n.t.Tombstoned(url)
    ensures Perform(n, a, junk).t.Tombstoned(url)
  {
    if a.Ingest? {
      IngestKeepsTombstone(n.t, a.pages, a.source, junk, a.luck, url);
    }
    hide IngestAll, Filter, FileRows;
  }

  lemma {:induction false} RunKeepsTombstone(n: Node, acts: seq<Act>, junk: Junk, url: string)
    requires n.t.Tombstoned(url)
    ensures AfterRun(n, acts, junk).t.Tombstoned(url)
    decreases |acts|
  {
    if acts != [] {
      ActKeepsTombstone(n, acts[0], junk, url);
      hide Perform, Tables.Tombstoned;
      RunKeepsTombstone(Perform(n, acts[0], junk), acts[1..], junk, url);
    }
  }

  /** What the user tombstones is in no bundle ever after, whether or not it was labelled or held before, and
      whatever is ingested, fetched, labelled or rebuilt afterwards. */
  lemma TombstoneIsForever(n: Node, url: string, acts: seq<Act>, junk: Junk)
    ensures var last := AfterRun(Perform(n, Tombstone(url), junk), acts, junk);
            forall since, until, r :: r in Window(last.t.pages, last.t.meta, since, until) ==> r.url != url
  {
    RunKeepsTombstone(Perform(n, Tombstone(url), junk), acts, junk, url);
  }

  // ---------- From table to table ----------

  /** The rows a reader of this window gets: shared, live, the node's own, and with a URL. */
  predicate InWindow(meta: map<string, Meta>, r: PageRow, since: int, until: int) {
    && since < r.rowid <= until && r.url != ""
    && r.url in meta && !meta[r.url].deleted && meta[r.url].scope in {Friends, Public}
    && meta[r.url].source in {UserFetched, ManualImport}
  }

  /** What a page of a window is on the wire. */
  ghost predicate Describes(p: Page, r: PageRow, cids: map<string, string>, hostOf: string -> string) {
    && p.url == r.url && p.title == r.title && p.fetchedAt == r.fetchedAt && p.host == hostOf(r.url) && p.topic == ""
    && p.cid == if r.url in cids then cids[r.url] else ""
  }

  /** `after` continues `before` with a copy of every row, in order, under fresh numbers. */
  ghost predicate CopiedOnto(before: seq<PageRow>, rows: seq<PageRow>, after: seq<PageRow>) {
    && |after| == |before| + |rows| && after[..|before|] == before
    && forall k :: 0 <= k < |rows| ==>
         var r := after[|before| + k];
         && r.url == rows[k].url && r.title == rows[k].title && r.fetchedAt == rows[k].fetchedAt
         && r.rowid == (if before == [] then 0 else before[|before| - 1].rowid) + 1 + k
  }

  /** The content ids of the rows come along, and no other changes; one known already stays. */
  ghost predicate CidsCopied(before: map<string, string>, cids: map<string, string>, rows: seq<PageRow>,
                             after: map<string, string>)
  {
    forall u ::
      if u !in before && u in cids && cids[u] != "" && HasRow(rows, u)
      then u in after && after[u] == cids[u]
      else (u in after <==> u in before) && (u in before ==> after[u] == before[u])
  }

  lemma BundleDescribes(b: Bundle, from: Tables, hostOf: string -> string, since: int, lim: nat, rows: seq<PageRow>)
    requires lim > 0 && Honest(b, from.pages, from.meta, Annotations(from.cids, hostOf), since, lim)
    requires rows == Window(from.pages, from.meta, since, b.until.value)
    ensures b.pages.Items? && |b.pages.items| == |rows|
    ensures forall k :: 0 <= k < |rows| ==>
              b.pages.items[k].Entry? && Describes(b.pages.items[k].page, rows[k], from.cids, hostOf)
  {
    hide Until, Filter;
  }

  lemma NewStep(t: Tables, pages: seq<Page>, junk: Junk)
    requires pages != []
    ensures var n := |pages| - 1;
            NewPages(t, pages, junk, ALL_WRITTEN)
            == Stored(t, NewPages(t, pages[..n], junk, ALL_WRITTEN), pages[n], junk, ALL_WRITTEN)
  {
  }

  lemma DistinctSnoc(some: seq<Page>, last: Page)
    requires DistinctPages(some + [last])
    ensures DistinctPages(some) && !Listed(some, last.url)
  {
    var pages := some + [last];
    assert pages[|some|] == last && forall k :: 0 <= k < |some| ==> pages[k] == some[k];
  }

  lemma StoredNew(t: Tables, some: seq<Page>, p: Page, junk: Junk)
    requires Welcome(t, p, junk) && !t.HasPage(p.url) && !Listed(some, p.url)
    ensures Stored(t, some, p, junk, ALL_WRITTEN) == some + [p]
  {
  }

  lemma {:induction false} NewWhenNoneHeld(t: Tables, pages: seq<Page>, junk: Junk)
    requires DistinctPages(pages)
    requires forall k :: 0 <= k < |pages| ==> Welcome(t, pages[k], junk) && !t.HasPage(pages[k].url)
    ensures NewPages(t, pages, junk, ALL_WRITTEN) == pages
    decreases |pages|
  {
    if pages != [] {
      var some, last := pages[..|pages| - 1], pages[|pages| - 1];
      NewStep(t, pages, junk);
      DistinctSnoc(some, last);
      assert pages == some + [last];
      hide *;
      NewWhenNoneHeld(t, some, junk);
      StoredNew(t, some, last, junk);
    }
  }

  /** Each page's content id was added, unless it has none or one was known. */
  ghost predicate CidsGained(before: map<string, string>, pages: seq<Page>, after: map<string, string>) {
    && (forall k :: 0 <= k < |pages| && pages[k].url !in before && pages[k].cid != "" ==>
          pages[k].url in after && after[pages[k].url] == pages[k].cid)
    && (forall u :: u in before ==> u in after && after[u] == before[u])
    && (forall u :: u in after && u !in before ==>
          exists k :: 0 <= k < |pages| && pages[k].url == u && pages[k].cid != "")
  }

  lemma CidsGainedSnoc(before: map<string, string>, some: seq<Page>, last: Page, mid: map<string, string>)
    requires CidsGained(before, some, mid) && !Listed(some, last.url)
    ensures var after := if last.cid == "" || last.url in mid then mid else mid[last.url := last.cid];
            CidsGained(before, some + [last], after)
  {
    var pages := some + [last];
    assert forall k :: 0 <= k < |some| ==> pages[k] == some[k];
    assert pages[|some|] == last;
  }

  lemma {:induction false} CidsOfNew(t: Tables, pages: seq<Page>, source: Attribution, junk: Junk)
    requires t.Valid() && DistinctPages(pages)
    requires forall k :: 0 <= k < |pages| ==> Welcome(t, pages[k], junk) && !t.HasPage(pages[k].url)
    ensures CidsGained(t.cids, pages, IngestAll(t, pages, source, junk, ALL_WRITTEN).cids)
    decreases |pages|
  {
    if pages != [] {
      var some, last := pages[..|pages| - 1], pages[|pages| - 1];
      var before := IngestAll(t, some, source, junk, ALL_WRITTEN);
      assert !Listed(some, last.url);
      assert pages == some + [last];
      CidsOfNew(t, some, source, junk);
      NotYetHeld(t, some, last, source, junk);
      hide IngestOne, Welcome, Listed, Tables.HasPage, DistinctUrls, InRowidOrder, DistinctPages, CidsGained;
      CidOfOne(before, last, source, junk);
      CidsGainedSnoc(t.cids, some, last, before.cids);
    }
  }

  lemma NotYetHeld(t: Tables, some: seq<Page>, last: Page, source: Attribution, junk: Junk)
    requires t.Valid() && DistinctPages(some) && !Listed(some, last.url)
    requires forall k :: 0 <= k < |some| ==> Welcome(t, some[k], junk) && !t.HasPage(some[k].url)
    requires Welcome(t, last, junk) && !t.HasPage(last.url)
    ensures var before := IngestAll(t, some, source, junk, ALL_WRITTEN);
            Welcome(before, last, junk) && !before.HasPage(last.url)
  {
    var before := IngestAll(t, some, source, junk, ALL_WRITTEN);
    IngestSafe(t, some, source, junk, ALL_WRITTEN);
    WelcomeStays(t, before, last, junk);
    IngestAppends(t, some, source, junk, ALL_WRITTEN);
    NewWhenNoneHeld(t, some, junk);
    NumberedUrls(t, before, some, NextRowid(t.pages), last.url);
    hide *;
  }

  lemma CidOfOne(t: Tables, p: Page, source: Attribution, junk: Junk)
    requires Welcome(t, p, junk) && !t.HasPage(p.url)
    ensures IngestOne(t, p, source, junk, ALL_WRITTEN).cids
         == if p.cid == "" || p.url in t.cids then t.cids else t.cids[p.url := p.cid]
  {
  }

  /** Pages made of rows with distinct URLs, none of them held or turned away. */
  ghost predicate Arriving(t: Tables, pages: seq<Page>, rows: seq<PageRow>, cids: map<string, string>,
                           hostOf: string -> string, junk: Junk)
  {
    && |pages| == |rows| && DistinctPages(pages)
    && forall k :: 0 <= k < |rows| ==>
         Describes(pages[k], rows[k], cids, hostOf) && Welcome(t, pages[k], junk) && !t.HasPage(pages[k].url)
  }

  lemma NumberedCopies(before: seq<PageRow>, pages: seq<Page>, rows: seq<PageRow>, cids: map<string, string>,
                       hostOf: string -> string)
    requires |pages| == |rows| && forall k :: 0 <= k < |rows| ==> Describes(pages[k], rows[k], cids, hostOf)
    ensures CopiedOnto(before, rows, before + Numbered(pages, NextRowid(before)))
  {
    var first := NextRowid(before);
    var more := Numbered(pages, first);
    var all := before + more;
    forall k | 0 <= k < |rows|
      ensures all[|before| + k] == PageRow(first + k, rows[k].url, rows[k].title, rows[k].fetchedAt)
    {
      assert Describes(pages[k], rows[k], cids, hostOf);
      assert all[|before| + k] == more[k];
    }
    hide Describes, Numbered;
    assert all[..|before|] == before;
  }

  lemma PagesLand(t: Tables, pages: seq<Page>, rows: seq<PageRow>, cids: map<string, string>, hostOf: string -> string,
                  source: Attribution, junk: Junk)
    requires t.Valid() && Arriving(t, pages, rows, cids, hostOf, junk)
    ensures CopiedOnto(t.pages, rows, IngestAll(t, pages, source, junk, ALL_WRITTEN).pages)
  {
    NewWhenNoneHeld(t, pages, junk);
    hide IngestAll, NewPages, Welcome, Tables.HasPage, InRowidOrder, DistinctUrls, Describes, CopiedOnto, Numbered,
      NextRowid;
    IngestAppends(t, pages, source, junk, ALL_WRITTEN);
    NumberedCopies(t.pages, pages, rows, cids, hostOf);
  }

  lemma CidsLand(t: Tables, pages: seq<Page>, rows: seq<PageRow>, cids: map<string, string>, hostOf: string -> string,
                 source: Attribution, junk: Junk)
    requires t.Valid() && Arriving(t, pages, rows, cids, hostOf, junk)
    ensures CidsCopied(t.cids, cids, rows, IngestAll(t, pages, source, junk, ALL_WRITTEN).cids)
  {
    CidsOfNew(t, pages, source, junk);
    CidsFollow(t.cids, pages, rows, cids, hostOf, IngestAll(t, pages, source, junk, ALL_WRITTEN).cids);
  }

  lemma CidsFollow(before: map<string, string>, pages: seq<Page>, rows: seq<PageRow>, cids: map<string, string>,
                   hostOf: string -> string, after: map<string, string>)
    requires CidsGained(before, pages, after) && |pages| == |rows|
    requires forall k :: 0 <= k < |rows| ==> Describes(pages[k], rows[k], cids, hostOf)
    ensures CidsCopied(before, cids, rows, after)
  {
    forall u | HasRow(rows, u) && u in cids && cids[u] != "" && u !in before ensures u in after && after[u] == cids[u] {
      var k :| 0 <= k < |rows| && rows[k].url == u;
      assert Describes(pages[k], rows[k], cids, hostOf);
    }
    forall u | u in after && u !in before ensures HasRow(rows, u) && u in cids && cids[u] != "" {
      var k :| 0 <= k < |pages| && pages[k].url == u && pages[k].cid != "";
      assert Describes(pages[k], rows[k], cids, hostOf) && rows[k].url == u;
    }
  }

  /** Rows that are all wanted arrive as pages that are. */
  lemma AllArrive(t: Tables, pages: seq<Page>, rows: seq<PageRow>, cids: map<string, string>, hostOf: string -> string,
                  junk: Junk)
    requires |pages| == |rows| && DistinctUrls(rows)
    requires forall k :: 0 <= k < |rows| ==> Describes(pages[k], rows[k], cids, hostOf) && rows[k].url != ""
    requires forall k :: 0 <= k < |rows| ==>
               !junk(rows[k].title) && !t.Tombstoned(rows[k].url) && !t.HasPage(rows[k].url)
    ensures Arriving(t, pages, rows, cids, hostOf, junk)
  {
    hide Tables.HasPage, Tables.Tombstoned;
  }

  lemma WindowRows(from: Tables, since: int, until: int, rows: seq<PageRow>)
    requires from.Valid() && rows == Filter(from.pages, (r: PageRow) => InWindow(from.meta, r, since, until))
    ensures rows == Window(from.pages, from.meta, since, until) && DistinctUrls(rows)
    ensures forall k :: 0 <= k < |rows| ==> rows[k] in rows && rows[k].url != ""
  {
    var inWindow := (r: PageRow) => InWindow(from.meta, r, since, until);
    FilterAgree(from.pages, inWindow, OwedIn(from.meta, since, until));
    FilterDistinct(from.pages, inWindow);
    hide Filter, InRowidOrder, DistinctUrls, Shareable;
    forall k | 0 <= k < |rows| ensures rows[k].url != "" {
      assert rows[k] in rows && inWindow(rows[k]);
    }
  }

  /** A bundle carries a producer's rows to a consumer: one that holds none of them, and turns none away, ends
      with exactly those rows after its own, with their titles, times and content ids. */
  lemma RowsTravel(b: Bundle, from: Tables, hostOf: string -> string, since: int, lim: nat, t: Tables,
                   source: Attribution, junk: Junk, rows: seq<PageRow>)
    requires from.Valid() && t.Valid() && lim > 0
    requires Honest(b, from.pages, from.meta, Annotations(from.cids, hostOf), since, lim)
    requires rows == Filter(from.pages, (r: PageRow) => InWindow(from.meta, r, since, b.until.value))
    requires forall r :: r in rows ==> !junk(r.title) && !t.Tombstoned(r.url) && !t.HasPage(r.url)
    ensures b.pages.Items? && forall i :: i in b.pages.items ==> i.Entry?
    ensures var pages := Entries(b.pages.items);
            var after := IngestAll(t, pages, source, junk, ALL_WRITTEN);
            && (|pages| == |rows| && forall k :: 0 <= k < |rows| ==> Describes(pages[k], rows[k], from.cids, hostOf))
            && CopiedOnto(t.pages, rows, after.pages) && CidsCopied(t.cids, from.cids, rows, after.cids)
  {
    WindowRows(from, since, b.until.value, rows);
    BundleDescribes(b, from, hostOf, since, lim, rows);
    var pages := Entries(b.pages.items);
    hide Until, Filter, Honest, IngestAll, CopiedOnto, CidsCopied, Describes, Tables.HasPage, Tables.Tombstoned;
    hide InRowidOrder, DistinctUrls, Window, InWindow;
    AllArrive(t, pages, rows, from.cids, hostOf, junk);
    hide *;
    PagesLand(t, pages, rows, from.cids, hostOf, source, junk);
    CidsLand(t, pages, rows, from.cids, hostOf, source, junk);
  }

  /** What the user fetches goes out: exactly when it is shared and not tombstoned, the page is in the windows
      that cover its number, with its title, time and content id. */
  lemma FetchedIsOpen(t: Tables, p: Page, scope: Scope, junk: Junk, since: int, until: int)
    requires t.Valid() && p.url != "" && !junk(p.title)
    ensures var after := Fetched(t, p, scope, junk, Complete);
            && p.url in after.cids && after.cids[p.url] == p.cid
            && after.pages != []
            && (var row := after.pages[|after.pages| - 1];
                && row.url == p.url && row.title == p.title && row.fetchedAt == p.fetchedAt
                && (forall r :: r in after.pages && r.url == p.url ==> r == row)
                && (InWindow(after.meta, row, since, until) <==>
                      since < row.rowid <= until && scope in {Friends, Public} && !t.Tombstoned(p.url)))
  {
    hide InRowidOrder, DistinctUrls;
  }

  lemma LastIsFresh(others: seq<PageRow>, row: PageRow, p: Page)
    requires InRowidOrder(others) && forall r :: r in others ==> r.url != p.url
    requires row == PageRow(NextRowid(others), p.url, p.title, p.fetchedAt)
    ensures OneFreshRow(others + [row], p)
  {
    assert row in others + [row];
  }

  /** The label a fetch leaves: the user's own, with the scope asked for, a tombstone kept. */
  ghost predicate OwnLabel(m: Meta, scope: Scope, wasDeleted: bool) {
    m.scope == scope && m.source == UserFetched && m.deleted == wasDeleted
  }

  /** The page has one row, numbered past all others, with its title and time. */
  ghost predicate OneFreshRow(pages: seq<PageRow>, p: Page) {
    exists row: PageRow :: row in pages && row.url == p.url && row.title == p.title && row.fetchedAt == p.fetchedAt
                           && forall r :: r in pages && r != row ==> r.url != p.url && r.rowid < row.rowid
  }

  /** No fetch, whichever of its writes fail, touches another URL's row, label or content id, or a credit;
      without a URL, with a junk title or with no row written it changes nothing. */
  lemma FetchLeaves(t: Tables, p: Page, scope: Scope, junk: Junk, sidecar: Sidecar, u: string)
    requires u != p.url
    ensures var after := Fetched(t, p, scope, junk, sidecar);
            && after.contributors == t.contributors
            && (p.url == "" || junk(p.title) || sidecar.NoRow? ==> after == t)
            && (forall r: PageRow :: r.url == u ==> (r in after.pages <==> r in t.pages))
            && (u in after.meta <==> u in t.meta) && (u in t.meta ==> after.meta[u] == t.meta[u])
            && (u in after.cids <==> u in t.cids) && (u in t.cids ==> after.cids[u] == t.cids[u])
  {
    var others := Filter(t.pages, NotUrl(p.url));
    assert forall r :: r in others <==> r in t.pages && r.url != p.url;
    hide Filter;
  }

  /** Otherwise the page has one row, with a new highest number. */
  lemma FetchLands(t: Tables, p: Page, scope: Scope, junk: Junk, sidecar: Sidecar)
    requires t.Valid() && p.url != "" && !junk(p.title) && !sidecar.NoRow?
    ensures OneFreshRow(Fetched(t, p, scope, junk, sidecar).pages, p)
  {
    var others := Filter(t.pages, NotUrl(p.url));
    FilterInOrder(t.pages, NotUrl(p.url));
    assert forall r :: r in others ==> r.url != p.url;
    assert Fetched(t, p, scope, junk, sidecar).pages
        == others + [PageRow(NextRowid(others), p.url, p.title, p.fetchedAt)];
    hide *;
    LastIsFresh(others, PageRow(NextRowid(others), p.url, p.title, p.fetchedAt), p);
  }

  /** Its label and its content id are the user's, each unless its write fails. */
  lemma FetchLabels(t: Tables, p: Page, scope: Scope, junk: Junk, sidecar: Sidecar)
    requires p.url != "" && !junk(p.title) && !sidecar.NoRow?
    ensures var after := Fetched(t, p, scope, junk, sidecar);
            && (if sidecar.NoLabel? then after.meta == t.meta
                else p.url in after.meta && OwnLabel(after.meta[p.url], scope, t.Tombstoned(p.url)))
            && (if sidecar.Complete? then p.url in after.cids && after.cids[p.url] == p.cid
                else after.cids == t.cids)
  {
    hide Filter;
  }

  // ---------- The index as an object ----------

  lemma PagesOfSnoc(rows: seq<PageRow>, i: nat, notes: Annotations)
    requires i < |rows|
    ensures PagesOf(Filter(rows[..i + 1], HasUrl()), notes)
         == PagesOf(Filter(rows[..i], HasUrl()), notes) + (if rows[i].url == "" then [] else [PageOf(rows[i], notes)])
  {
    assert rows[..i + 1] == rows[..i] + [rows[i]];
    FilterConcat(rows[..i], [rows[i]], HasUrl());
  }

  lemma NoneShipped(notes: Annotations)
    ensures PagesOf(Filter([], HasUrl()), notes) == []
  {
  }

  lemma HonestOf(shipped: seq<Page>, pages: seq<PageRow>, meta: map<string, Meta>, notes: Annotations, since: int,
                 lim: nat)
    requires lim > 0 && shipped == PagesOf(Window(pages, meta, since, Until(pages, meta, since, lim)), notes)
    ensures forall pubkey, epoch, sig ::
              Honest(Bundle(BUNDLE_SCHEMA, pubkey, Some(since), Some(Until(pages, meta, since, lim)), epoch, true,
                            Items(Wrap(shipped)), RootOf(shipped), sig), pages, meta, notes, since, lim)
  {
    hide Until, Window, RootOf;
  }

  class Index {
    const hostOf: string -> string
    var pages: seq<PageRow>
    var meta: map<string, Meta>
    var contributors: map<(string, string), Attribution>
    var cids: map<string, string>

    constructor (hostOf: string -> string)
      ensures T() == Tables([], map[], map[], map[]) && T().Valid() && MetaBacked(T())
    {
      this.hostOf := hostOf;
      pages, meta, contributors, cids := [], map[], map[], map[];
    }

    function T(): Tables
      reads this
    {
      Tables(pages, meta, contributors, cids)
    }

    /** The loop of `build_bundle` over the rows it selected: a page for each row with a URL, and the largest
        rowid among those. */
    method Ship(rows: seq<PageRow>, considered: int) returns (shipped: seq<Page>, until: int)
      ensures shipped == PagesOf(Filter(rows, HasUrl()), Annotations(cids, hostOf))
      ensures until == LastShipped(rows, considered)
    {
      hide Filter, PageOf, HasUrl;
      var notes := Annotations(cids, hostOf);
      shipped, until := [], considered;
      var i := 0;
      assert rows[..0] == [] && rows[0..] == rows;
      NoneShipped(notes);
      while i < |rows|
        invariant 0 <= i <= |rows|
        invariant shipped == PagesOf(Filter(rows[..i], HasUrl()), notes)
        invariant LastShipped(rows[i..], until) == LastShipped(rows, considered)
      {
        var r := rows[i];
        PagesOfSnoc(rows, i, notes);
        assert rows[i..][1..] == rows[i + 1..];
        if r.url != "" {
          shipped := shipped + [PageOf(r, notes)];
          until := Max(until, r.rowid);
        }
        i := i + 1;
      }
      assert rows[..i] == rows;
    }

    /** `build_bundle`, over one snapshot of the tables. */
    method BuildBundle(since: int, limit: int, pubkey: string, epoch: string, sign: Payload -> string)
      returns (b: Bundle)
      requires T().Valid()
      ensures Honest(b, pages, meta, Annotations(cids, hostOf), since, Clamp(limit))
      ensures b.pubkey == pubkey && b.epoch == epoch
      ensures b.sig == sign(Payload(b.root, since, b.until.value, pubkey, |b.pages.items|, epoch))
    {
      var lim := Clamp(limit);
      var notes := Annotations(cids, hostOf);
      var past := Past(pages, since);
      var rows := Take(Shared(past, meta), lim);
      var window := Take(past, lim);
      var until := since;
      if window != [] {
        until := Max(until, window[|window| - 1].rowid);
      }
      assert LastShipped(rows, until) == Until(pages, meta, since, lim);
      hide Past, Shared, Until, Filter, PageOf, Clamp, LastShipped, Shareable;
      var shipped: seq<Page>;
      shipped, until := Ship(rows, until);
      ShippedIsWindow(pages, meta, since, lim);
      HonestOf(shipped, pages, meta, notes, since, lim);
      hide Honest, HasUrl;
      var root := Merkle.LevelRoot(Merkle.Leaves(shipped));
      assert Merkle.Leaves(shipped) == [] <==> shipped == [];
      b := Bundle(BUNDLE_SCHEMA, pubkey, Some(since), Some(until), epoch, true, Items(Wrap(shipped)), root,
                  sign(Payload(root, since, until, pubkey, |shipped|, epoch)));
    }

    /** One turn of the ingest loop: the sidecar row is written before the page row, and a page whose
        sidecar row or page row cannot be written is skipped. */
    method StoreOne(p: Page, source: Attribution, junk: Junk, luck: Luck) returns (added: bool)
      modifies this
      ensures T() == IngestOne(old(T()), p, source, junk, luck)
      ensures |pages| == |old(pages)| + if added then 1 else 0
    {
      if p.url == "" || junk(p.title) || T().Tombstoned(p.url) {
        return false;
      }
      var w := luck(p);
      if source.pubkey != "" && w.credit {
        contributors := contributors[(p.url, source.pubkey) := source];
      }
      if exists k :: 0 <= k < |pages| && pages[k].url == p.url {
        return false;
      }
      if !w.meta {
        return false;
      }
      meta := PeerLabelled(meta, p.url, source);
      if !w.row {
        return false;
      }
      pages := pages + [PageRow(NextRowid(pages), p.url, p.title, p.fetchedAt)];
      if p.cid != "" && p.url !in cids && w.cid {
        cids := cids[p.url := p.cid];
      }
      return true;
    }

    method IngestBundle(bundle: seq<Page>, source: Attribution, junk: Junk, luck: Luck) returns (stored: nat)
      requires T().Valid()
      modifies this
      ensures T() == IngestAll(old(T()), bundle, source, junk, luck)
      ensures T().Valid() && stored == |pages| - |old(pages)|
    {
      stored := 0;
      ghost var t0 := T();
      var i := 0;
      while i < |bundle|
        invariant 0 <= i <= |bundle|
        invariant T() == IngestAll(t0, bundle[..i], source, junk, luck)
        invariant stored == |pages| - |t0.pages|
      {
        assert bundle[..i + 1][..i] == bundle[..i];
        var added := StoreOne(bundle[i], source, junk, luck);
        stored := stored + if added then 1 else 0;
        i := i + 1;
      }
      assert bundle[..i] == bundle;
      IngestSafe(t0, bundle, source, junk, luck);
    }

    /** `index_page`: nothing happens without a URL, without content, for a URL that has no canonical
        form, or for a junk title; `cidOf` is the content's id. A failed label or content id is only
        logged. */
    method IndexPage(url: string, title: string, content: string, fetchedAt: string, scope: Scope,
                     canon: string -> Option<string>, cidOf: string -> string, junk: Junk, sidecar: Sidecar)
      requires T().Valid()
      modifies this
      ensures T().Valid()
      ensures T() == if url == "" || content == "" || canon(url).None? then old(T())
                     else
                       var p := Page(canon(url).value, title, hostOf(canon(url).value), "", fetchedAt, cidOf(content));
                       Fetched(old(T()), p, scope, junk, sidecar)
    {
      if url == "" || content == "" || canon(url).None? {
        return;
      }
      var p := Page(canon(url).value, title, hostOf(canon(url).value), "", fetchedAt, cidOf(content));
      FetchedValid(T(), p, scope, junk, sidecar);
      if p.url == "" || junk(p.title) || sidecar.NoRow? {
        return;
      }
      pages := Filter(pages, NotUrl(p.url));
      pages := pages + [PageRow(NextRowid(pages), p.url, p.title, p.fetchedAt)];
      if sidecar.NoLabel? {
        return;
      }
      meta := SetMeta(meta, p.url, Patch(Some(scope), Some(UserFetched), false, None));
      if sidecar.NoCid? {
        return;
      }
      cids := cids[p.url := p.cid];
    }

    /** `reindex_knowledge` */
    method ReindexKnowledge(files: seq<PageFile>) returns (count: nat)
      modifies this
      ensures T() == Reindexed(old(T()), files) && count == |pages|
      ensures forall u :: u != "" ==> (T().HasPage(u) <==> OnDisk(files, u))
      ensures DistinctFiles(files) ==> T().Valid()
    {
      FileRowsExact(files);
      pages := [];
      for i := 0 to |files|
        invariant pages == FileRows(files[..i]) && meta == old(meta) && contributors == old(contributors)
                    && cids == old(cids)
      {
        assert files[..i + 1][..i] == files[..i];
        var f := files[i];
        if f.url != "" {
          pages := pages + [PageRow(|pages| + 1, f.url, f.title, f.fetchedAt)];
        }
      }
      assert files[..|files|] == files;
      count := |pages|;
      assert forall u :: T().HasPage(u) <==> HasRow(pages, u);
    }
  }
}
