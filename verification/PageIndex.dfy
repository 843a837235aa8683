/**
 The page tables of one node, the signed bundle a producer builds over a rowid window, and the
 check a consumer makes on a bundle.
 */
module PageIndex {
  import opened Wrappers
  import opened Seqs
  import opened Merkle
  import opened Strings

  // ---------- Tables ----------

  datatype Scope = Private | LocalOnly | Friends | Public

  datatype Source = UserFetched | PeerIngest | ManualImport

  /** Who vouched for a page, and in which signed bundle. */
  datatype Attribution = Attribution(pubkey: string, nickname: string, root: Option<Digest<Page>>, sig: string)

  /** A row of `pages_meta`; a missing row reads as private and user-fetched. */
  datatype Meta = Meta(scope: Scope, source: Source, deleted: bool, attribution: Option<Attribution>)

  /** A row of `pages`, held in rowid order. */
  datatype PageRow = PageRow(rowid: nat, url: string, title: string, fetchedAt: string)

  ghost predicate InRowidOrder(pages: seq<PageRow>) {
    && (forall i :: 0 <= i < |pages| ==> pages[i].rowid > 0)
    && (forall i, j :: 0 <= i < j < |pages| ==> pages[i].rowid < pages[j].rowid)
  }

  /** The join and filter of `build_bundle`: opted in, not tombstoned, not somebody else's. */
  predicate Shareable(meta: map<string, Meta>, url: string) {
    && url in meta
    && !meta[url].deleted
    && (meta[url].scope == Friends || meta[url].scope == Public)
    && meta[url].source != PeerIngest
  }

  // ---------- The bundle ----------

  datatype Page = Page(url: string, title: string, host: string, topic: string, fetchedAt: string, cid: string)

  /** The producer's side tables that a page entry draws on. */
  datatype Annotations = Annotations(cids: map<string, string>, hostOf: string -> string)

  function PageOf(r: PageRow, notes: Annotations): Page {
    Page(r.url, r.title, notes.hostOf(r.url), "", r.fetchedAt, if r.url in notes.cids then notes.cids[r.url] else "")
  }

  function PagesOf(rows: seq<PageRow>, notes: Annotations): (pages: seq<Page>)
    ensures |pages| == |rows| && forall k :: 0 <= k < |rows| ==> pages[k] == PageOf(rows[k], notes)
  {
    seq(|rows|, k requires 0 <= k < |rows| => PageOf(rows[k], notes))
  }

  function OwedIn(meta: map<string, Meta>, since: int, until: int): PageRow -> bool {
    (r: PageRow) => since < r.rowid <= until && Shareable(meta, r.url) && r.url != ""
  }

  /** The rows a window owes its reader. */
  function Window(pages: seq<PageRow>, meta: map<string, Meta>, since: int, until: int): seq<PageRow> {
    Filter(pages, OwedIn(meta, since, until))
  }

  const DEFAULT_LIMIT := 500
  const MAX_BUNDLE_PAGES := 5_000
  const MAX_BUNDLE_CURSOR_ADVANCE := 100_000

  function Clamp(limit: int): (lim: nat)
    ensures 1 <= lim <= 5_000 && (1 <= limit <= 5_000 ==> lim == limit)
    ensures limit < 1 ==> lim == 1
    ensures limit > 5_000 ==> lim == 5_000
  {
    if limit < 1 then 1 else if limit > MAX_BUNDLE_PAGES then MAX_BUNDLE_PAGES else limit
  }

  function After(since: int): PageRow -> bool {
    (r: PageRow) => r.rowid > since
  }

  function SharedBy(meta: map<string, Meta>): PageRow -> bool {
    (r: PageRow) => Shareable(meta, r.url)
  }

  function HasUrl(): PageRow -> bool {
    (r: PageRow) => r.url != ""
  }

  /** The rows past the cursor, and those of them that may be shared. */
  function Past(pages: seq<PageRow>, since: int): seq<PageRow> {
    Filter(pages, After(since))
  }

  function Shared(rows: seq<PageRow>, meta: map<string, Meta>): seq<PageRow> {
    Filter(rows, SharedBy(meta))
  }

  function Max(a: int, b: int): int {
    if a >= b then a else b
  }

  lemma {:induction false} FilterInOrder(rows: seq<PageRow>, p: PageRow -> bool)
    requires InRowidOrder(rows)
    ensures InRowidOrder(Filter(rows, p))
    ensures forall k :: 0 <= k < |Filter(rows, p)| ==> Filter(rows, p)[k].rowid >= rows[k].rowid
    decreases |rows|
  {
    if rows != [] {
      FilterInOrder(rows[1..], p);
    }
  }

  /** The rowid cursor `build_bundle` signs as the end of its window: past the first `lim` rows of
      any kind, and past every entry it ships. */
  function Until(pages: seq<PageRow>, meta: map<string, Meta>, since: int, lim: nat): int {
    var window := Take(Past(pages, since), lim);
    var considered := if window == [] then since else Max(since, window[|window| - 1].rowid);
    LastShipped(Take(Shared(Past(pages, since), meta), lim), considered)
  }

  /** The largest of `cursor` and the rowids of the rows with a URL. */
  function LastShipped(rows: seq<PageRow>, cursor: int): int {
    if rows == [] then cursor
    else LastShipped(rows[1..], if rows[0].url == "" then cursor else Max(cursor, rows[0].rowid))
  }

  lemma {:induction false} LastShippedBounds(rows: seq<PageRow>, cursor: int)
    ensures LastShipped(rows, cursor) >= cursor
    ensures forall r :: r in rows && r.url != "" ==> r.rowid <= LastShipped(rows, cursor)
    ensures LastShipped(rows, cursor) == cursor || exists r :: r in rows && r.rowid == LastShipped(rows, cursor)
    decreases |rows|
  {
    if rows != [] {
      var next := if rows[0].url == "" then cursor else Max(cursor, rows[0].rowid);
      LastShippedBounds(rows[1..], next);
      assert LastShipped(rows, cursor) == LastShipped(rows[1..], next);
      assert rows[0] in rows;
    }
  }

  /** Even though the window of considered rows and the limit on shareable rows are computed
      separately, the rows shipped are exactly those the window owes. */
  lemma ShippedIsWindow(pages: seq<PageRow>, meta: map<string, Meta>, since: int, lim: nat)
    requires InRowidOrder(pages) && lim > 0
    ensures Filter(Take(Shared(Past(pages, since), meta), lim), HasUrl())
         == Window(pages, meta, since, Until(pages, meta, since, lim))
  {
    var all := Shared(Past(pages, since), meta);
    var until := Until(pages, meta, since, lim);
    UntilSeparates(pages, meta, since, lim);
    var rows := Take(all, lim);
    assert all == rows + all[|rows|..];
    SplitAtCursor(rows, all[|rows|..], until);
    WindowIsFilter(pages, meta, since, until);
  }

  function UpTo(until: int): PageRow -> bool {
    (r: PageRow) => r.rowid <= until && r.url != ""
  }

  lemma SplitAtCursor(rows: seq<PageRow>, rest: seq<PageRow>, until: int)
    requires forall r :: r in rows && r.url != "" ==> r.rowid <= until
    requires forall r :: r in rest ==> r.rowid > until
    ensures Filter(rows + rest, UpTo(until)) == Filter(rows, HasUrl())
  {
    FilterConcat(rows, rest, UpTo(until));
    FilterAgree(rows, UpTo(until), HasUrl());
    FilterNone(rest, UpTo(until));
  }

  lemma WindowIsFilter(pages: seq<PageRow>, meta: map<string, Meta>, since: int, until: int)
    ensures Filter(Shared(Past(pages, since), meta), UpTo(until)) == Window(pages, meta, since, until)
  {
    var both := (r: PageRow) => r.rowid > since && Shareable(meta, r.url);
    FilterTwice(pages, After(since), SharedBy(meta), both);
    FilterTwice(pages, both, UpTo(until), OwedIn(meta, since, until));
  }

  /** `Until` lies at or past every shipped row and before every shareable row left behind. */
  lemma UntilSeparates(pages: seq<PageRow>, meta: map<string, Meta>, since: int, lim: nat)
    requires InRowidOrder(pages) && lim > 0
    ensures var all := Shared(Past(pages, since), meta);
            var until := Until(pages, meta, since, lim);
            && (forall r :: r in Take(all, lim) && r.url != "" ==> r.rowid <= until)
            && (lim <= |all| ==> until <= all[lim - 1].rowid && forall r :: r in all[lim..] ==> r.rowid > until)
  {
    var past := Past(pages, since);
    var all := Shared(past, meta);
    FilterInOrder(pages, After(since));
    FilterInOrder(past, SharedBy(meta));
    var rows, window := Take(all, lim), Take(past, lim);
    var considered := if window == [] then since else Max(since, window[|window| - 1].rowid);
    LastShippedBounds(rows, considered);
    if lim <= |all| {
      assert window[|window| - 1] == past[lim - 1];
      assert past[lim - 1] in past;
      assert all[lim - 1].rowid >= past[lim - 1].rowid;
    }
  }

  // ---------- Progress ----------

  /** A non-empty remainder always moves the cursor, past at least `lim` rows or all of them. */
  lemma UntilAdvances(pages: seq<PageRow>, meta: map<string, Meta>, since: int, lim: nat)
    requires InRowidOrder(pages) && lim > 0
    ensures var until := Until(pages, meta, since, lim);
            && until >= since
            && (until > since <==> Past(pages, since) != [])
            && |Past(pages, until)|
               <= |Past(pages, since)| - (if lim <= |Past(pages, since)| then lim else |Past(pages, since)|)
  {
    var past := Past(pages, since);
    var until := Until(pages, meta, since, lim);
    var rows, window := Take(Shared(past, meta), lim), Take(past, lim);
    FilterInOrder(pages, After(since));
    var considered := if window == [] then since else Max(since, window[|window| - 1].rowid);
    LastShippedBounds(rows, considered);
    if past == [] {
      assert rows == [];
    } else {
      assert window[|window| - 1] in past;
    }
    RemainderShrinks(pages, since, until, |window|);
  }

  /** A cursor at or past the first `n` remaining rows leaves at most the others. */
  lemma RemainderShrinks(pages: seq<PageRow>, since: int, until: int, n: nat)
    requires InRowidOrder(pages) && since <= until && n <= |Past(pages, since)|
    requires n > 0 ==> Past(pages, since)[n - 1].rowid <= until
    ensures |Past(pages, until)| <= |Past(pages, since)| - n
  {
    var past := Past(pages, since);
    FilterInOrder(pages, After(since));
    FilterTwice(pages, After(since), After(until), After(until));
    assert past == past[..n] + past[n..];
    FilterConcat(past[..n], past[n..], After(until));
    FilterNone(past[..n], After(until));
  }

  /** The cursor after `rounds` accepted pulls of a quiet producer. */
  function Pulled(pages: seq<PageRow>, meta: map<string, Meta>, since: int, lim: nat, rounds: nat): int
    decreases rounds
  {
    if rounds == 0 then since else Pulled(pages, meta, Until(pages, meta, since, lim), lim, rounds - 1)
  }

  /** The rows those pulls ship, in order. */
  function Delivered(pages: seq<PageRow>, meta: map<string, Meta>, since: int, lim: nat, rounds: nat): seq<PageRow>
    decreases rounds
  {
    if rounds == 0 then []
    else
      var until := Until(pages, meta, since, lim);
      Window(pages, meta, since, until) + Delivered(pages, meta, until, lim, rounds - 1)
  }

  /** A quiet producer is drained in as many rounds as its remaining rows fill windows, and the
      windows together ship every owed row exactly once, in order. */
  lemma {:induction false} DrainsInRounds(pages: seq<PageRow>, meta: map<string, Meta>, since: int, lim: nat,
                                          rounds: nat)
    requires InRowidOrder(pages) && lim > 0 && rounds * lim >= |Past(pages, since)|
    ensures Past(pages, Pulled(pages, meta, since, lim, rounds)) == []
    ensures Pulled(pages, meta, since, lim, rounds) >= since
    ensures Delivered(pages, meta, since, lim, rounds)
         == Window(pages, meta, since, Pulled(pages, meta, since, lim, rounds))
    decreases rounds
  {
    hide Until, Past, Window, OwedIn;
    if rounds == 0 {
      assert 0 * lim == 0;
      EmptyWindow(pages, meta, since);
    } else {
      var until := Until(pages, meta, since, lim);
      UntilAdvances(pages, meta, since, lim);
      assert rounds * lim == (rounds - 1) * lim + lim;
      DrainsInRounds(pages, meta, until, lim, rounds - 1);
      WindowsAbut(pages, meta, since, until, Pulled(pages, meta, until, lim, rounds - 1));
    }
  }

  lemma EmptyWindow(pages: seq<PageRow>, meta: map<string, Meta>, since: int)
    ensures Window(pages, meta, since, since) == []
  {
    FilterNone(pages, OwedIn(meta, since, since));
  }

  lemma {:induction false} WindowsAbut(pages: seq<PageRow>, meta: map<string, Meta>, a: int, b: int, c: int)
    requires InRowidOrder(pages) && a <= b <= c
    ensures Window(pages, meta, a, b) + Window(pages, meta, b, c) == Window(pages, meta, a, c)
    decreases |pages|
  {
    if pages != [] && pages[0].rowid > b {
      assert forall r :: r in pages ==> r.rowid > b;
      FilterNone(pages, OwedIn(meta, a, b));
      FilterAgree(pages, OwedIn(meta, b, c), OwedIn(meta, a, c));
    } else if pages != [] {
      hide Shareable;
      WindowsAbut(pages[1..], meta, a, b, c);
      var rest := Window(pages[1..], meta, a, b);
      assert Window(pages, meta, b, c) == Window(pages[1..], meta, b, c);
      assert ([pages[0]] + rest) + Window(pages, meta, b, c) == [pages[0]] + (rest + Window(pages, meta, b, c));
    }
  }

  // ---------- The bundle on the wire ----------

  datatype Item = NotADict | Entry(page: Page)

  datatype Items = NotAList | Items(items: seq<Item>)

  /** A parsed object. Cursors whose text is not an integer are `None`; the key is as received, the
      root is read with surrounding space removed; `epochIsText` is false for an epoch of another type. */
  datatype Bundle = Bundle(
    schema: string, pubkey: string, since: Option<int>, until: Option<int>, epoch: string, epochIsText: bool,
    pages: Items, root: Option<Digest<Page>>, sig: string)

  /** A response body, which need not be an object at all. */
  datatype Doc = NotAnObject | Object(bundle: Bundle)

  /** The bytes under the producer's signature. */
  datatype Payload = Payload(
    root: Option<Digest<Page>>, since: int, until: int, pubkey: string, pageCount: nat, epoch: string)

  const BUNDLE_SCHEMA := "swf.index_pages.v1"

  function RootOf(pages: seq<Page>): Option<Digest<Page>> {
    if pages == [] then None else Some(Mth(Leaves(pages)))
  }

  datatype Reason =
    | NotADictionary | WrongSchema | MissingPubkey | PubkeyMismatch | PagesNotAList | TooManyPages | PageNotADict
    | DuplicateUrl
    | BadCursor | CursorInverted | CursorJumpTooLarge | MerkleMismatch | MissingSig | BadEpochId | SigMismatch

  ghost predicate DistinctPages(pages: seq<Page>) {
    forall i, j :: 0 <= i < j < |pages| ==> pages[i].url != pages[j].url
  }

  /** The pages of a list of entries. */
  function Entries(items: seq<Item>): (pages: seq<Page>)
    requires forall i :: i in items ==> i.Entry?
    ensures |pages| == |items| && forall k :: 0 <= k < |items| ==> pages[k] == items[k].page
  {
    seq(|items|, k requires 0 <= k < |items| => items[k].page)
  }

  ghost predicate InOrderUpTo(items: seq<Item>, k: nat)
    requires k <= |items|
  {
    (forall i :: i in items[..k] ==> i.Entry?) && DistinctPages(Entries(items[..k]))
  }

  ghost predicate FirstProblem(items: seq<Item>, k: nat, reason: Reason)
    requires k < |items|
  {
    && InOrderUpTo(items, k)
    && if items[k].NotADict? then reason == PageNotADict
       else reason == DuplicateUrl && exists p :: p in Entries(items[..k]) && p.url == items[k].page.url
  }

  /** The first thing wrong with the list of pages, if anything is. */
  method CheckPages(items: seq<Item>) returns (problem: Option<Reason>)
    ensures problem.None? <==> (forall i :: i in items ==> i.Entry?) && DistinctPages(Entries(items))
    ensures problem.Some? ==> exists k :: 0 <= k < |items| && FirstProblem(items, k, problem.value)
  {
    var seen: set<string> := {};
    var i := 0;
    while i < |items|
      invariant 0 <= i <= |items|
      invariant forall k :: 0 <= k < i ==> items[k].Entry?
      invariant forall u :: u in seen <==> exists k :: 0 <= k < i && items[k].page.url == u
      invariant InOrderUpTo(items, i)
    {
      assert items[i] in items;
      if items[i].NotADict? {
        assert FirstProblem(items, i, PageNotADict);
        return Some(PageNotADict);
      }
      if items[i].page.url in seen {
        ghost var j :| 0 <= j < i && items[j].page.url == items[i].page.url;
        assert (forall x :: x in items ==> x.Entry?) ==> Entries(items)[j].url == Entries(items)[i].url;
        assert Entries(items[..i])[j] == items[j].page;
        assert FirstProblem(items, i, DuplicateUrl);
        return Some(DuplicateUrl);
      }
      seen := seen + {items[i].page.url};
      i := i + 1;
    }
    assert items[..i] == items;
    problem := None;
  }

  /** The checks after the page list has been found in order. */
  function CheckSeal(b: Bundle, pages: seq<Page>, sigOk: (string, Payload, string) -> bool): Result<(), Reason> {
    if b.since.None? || b.until.None? then Err(BadCursor)
    else if b.until.value < b.since.value then Err(CursorInverted)
    else if b.until.value - b.since.value > MAX_BUNDLE_CURSOR_ADVANCE then Err(CursorJumpTooLarge)
    else if b.root != RootOf(pages) then Err(MerkleMismatch)
    else if b.sig == "" then Err(MissingSig)
    else if !b.epochIsText || |b.epoch| > 64 then Err(BadEpochId)
    else if !sigOk(Strip(b.pubkey),
                   Payload(RootOf(pages), b.since.value, b.until.value, Strip(b.pubkey), |pages|, b.epoch), b.sig)
    then Err(SigMismatch)
    else Ok(())
  }

  /** What an accepted bundle guarantees its reader: the expected producer's key, distinct pages, a span no
      longer than tolerated, the root of these very pages, and a signature over root, span, key, number of
      pages and epoch. */
  ghost predicate Acceptable(b: Bundle, expectedPubkey: string, sigOk: (string, Payload, string) -> bool) {
    && HeadInOrder(b, expectedPubkey) && PagesInOrder(b) && SpanInOrder(b)
    && b.root == RootOf(Entries(b.pages.items))
    && b.sig != "" && b.epochIsText && |b.epoch| <= 64
    && Signed(b, expectedPubkey, sigOk)
  }

  ghost predicate SpanInOrder(b: Bundle) {
    b.since.Some? && b.until.Some? && 0 <= b.until.value - b.since.value <= 100_000
  }

  ghost predicate Signed(b: Bundle, pubkey: string, sigOk: (string, Payload, string) -> bool)
    requires b.pages.Items? && b.since.Some? && b.until.Some?
  {
    sigOk(pubkey, Payload(b.root, b.since.value, b.until.value, pubkey, |b.pages.items|, b.epoch), b.sig)
  }

  predicate HeadInOrder(b: Bundle, expectedPubkey: string) {
    b.schema == "swf.index_pages.v1" && Strip(b.pubkey) != "" && Strip(b.pubkey) == expectedPubkey
  }

  ghost predicate PagesInOrder(b: Bundle) {
    && b.pages.Items? && |b.pages.items| <= 5_000
    && (forall i :: i in b.pages.items ==> i.Entry?) && DistinctPages(Entries(b.pages.items))
  }

  /** `reason` names the first thing wrong with the bundle. */
  ghost predicate Blames(doc: Doc, expectedPubkey: string, sigOk: (string, Payload, string) -> bool, reason: Reason) {
    if doc.NotAnObject? then reason.NotADictionary?
    else
      var b := doc.bundle;
      match reason
      case NotADictionary => false
      case WrongSchema => b.schema != BUNDLE_SCHEMA
      case MissingPubkey => b.schema == BUNDLE_SCHEMA && Strip(b.pubkey) == ""
      case PubkeyMismatch => b.schema == BUNDLE_SCHEMA && Strip(b.pubkey) != "" && Strip(b.pubkey) != expectedPubkey
      case PagesNotAList => HeadInOrder(b, expectedPubkey) && b.pages.NotAList?
      case TooManyPages => HeadInOrder(b, expectedPubkey) && b.pages.Items? && |b.pages.items| > MAX_BUNDLE_PAGES
      case PageNotADict =>
        && HeadInOrder(b, expectedPubkey) && b.pages.Items? && |b.pages.items| <= MAX_BUNDLE_PAGES
        && exists k :: 0 <= k < |b.pages.items| && FirstProblem(b.pages.items, k, reason)
      case DuplicateUrl =>
        && HeadInOrder(b, expectedPubkey) && b.pages.Items? && |b.pages.items| <= MAX_BUNDLE_PAGES
        && exists k :: 0 <= k < |b.pages.items| && FirstProblem(b.pages.items, k, reason)
      case BadCursor => HeadInOrder(b, expectedPubkey) && PagesInOrder(b) && (b.since.None? || b.until.None?)
      case CursorInverted =>
        && HeadInOrder(b, expectedPubkey) && PagesInOrder(b)
        && b.since.Some? && b.until.Some? && b.until.value < b.since.value
      case CursorJumpTooLarge =>
        && HeadInOrder(b, expectedPubkey) && PagesInOrder(b)
        && b.since.Some? && b.until.Some? && b.until.value - b.since.value > 100_000
      case MerkleMismatch =>
        && HeadInOrder(b, expectedPubkey) && PagesInOrder(b) && SpanInOrder(b)
        && b.root != RootOf(Entries(b.pages.items))
      case MissingSig =>
        && HeadInOrder(b, expectedPubkey) && PagesInOrder(b) && SpanInOrder(b)
        && b.root == RootOf(Entries(b.pages.items)) && b.sig == ""
      case BadEpochId =>
        && HeadInOrder(b, expectedPubkey) && PagesInOrder(b) && SpanInOrder(b)
        && b.root == RootOf(Entries(b.pages.items)) && b.sig != "" && (!b.epochIsText || |b.epoch| > 64)
      case SigMismatch =>
        && HeadInOrder(b, expectedPubkey) && PagesInOrder(b) && SpanInOrder(b)
        && b.root == RootOf(Entries(b.pages.items)) && b.sig != "" && b.epochIsText && |b.epoch| <= 64
        && !Signed(b, expectedPubkey, sigOk)
  }

  /** `verify_bundle`: accepts exactly the acceptable bundles, and names the first fault of anything else. */
  method VerifyBundle(doc: Doc, expectedPubkey: string, sigOk: (string, Payload, string) -> bool)
    returns (r: Result<(), Reason>)
    ensures r.Ok? <==> doc.Object? && Acceptable(doc.bundle, expectedPubkey, sigOk)
    ensures r.Err? ==> Blames(doc, expectedPubkey, sigOk, r.error)
  {
    hide Strip;
    if doc.NotAnObject? {
      return Err(NotADictionary);
    }
    var b := doc.bundle;
    if b.schema != BUNDLE_SCHEMA {
      return Err(WrongSchema);
    }
    var pubkey := Strip(b.pubkey);
    if pubkey == "" {
      return Err(MissingPubkey);
    }
    if pubkey != expectedPubkey {
      return Err(PubkeyMismatch);
    }
    if b.pages.NotAList? {
      return Err(PagesNotAList);
    }
    if |b.pages.items| > MAX_BUNDLE_PAGES {
      return Err(TooManyPages);
    }
    var problem := CheckPages(b.pages.items);
    if problem.Some? {
      return Err(problem.value);
    }
    r := CheckSeal(b, Entries(b.pages.items), sigOk);
  }

  /** An accepted bundle's declared root and signed page count pin its pages: two accepted bundles
      with the same root carry the same pages. */
  lemma AcceptedRootPinsPages(b: Bundle, c: Bundle, pubkey: string, sigOk: (string, Payload, string) -> bool)
    requires Acceptable(b, pubkey, sigOk) && Acceptable(c, pubkey, sigOk) && b.root == c.root
    ensures b.pages == c.pages
  {
    SameRootSamePages(b.pages.items, c.pages.items);
  }

  /** A bundle with a proper root, as a producer signs it. */
  ghost predicate Issued(c: Bundle) {
    && c.since.Some? && c.until.Some? && c.pages.Items? && (forall i :: i in c.pages.items ==> i.Entry?)
    && c.root == RootOf(Entries(c.pages.items))
  }

  /** Nobody but the producer signs under its key: what verifies is what it signed for one of its bundles. */
  ghost predicate Unforgeable(pubkey: string, issued: set<Bundle>, sigOk: (string, Payload, string) -> bool) {
    forall p: Payload, sig: string :: sigOk(pubkey, p, sig) ==>
      exists c :: c in issued && Issued(c)
                  && p == Payload(c.root, c.since.value, c.until.value, pubkey, |c.pages.items|, c.epoch)
  }

  ghost predicate SameContents(b: Bundle, c: Bundle) {
    b.pages == c.pages && b.since == c.since && b.until == c.until && b.epoch == c.epoch && b.root == c.root
  }

  /** Against a network that cannot forge signatures, every bundle accepted carries the pages, the span and the
      epoch of a bundle the producer made, whatever was done to it on the way. */
  lemma AcceptedIsIssued(b: Bundle, pubkey: string, issued: set<Bundle>, sigOk: (string, Payload, string) -> bool)
    requires Acceptable(b, pubkey, sigOk) && Unforgeable(pubkey, issued, sigOk)
    ensures exists c :: c in issued && SameContents(b, c)
  {
    var p := Payload(b.root, b.since.value, b.until.value, pubkey, |b.pages.items|, b.epoch);
    assert sigOk(pubkey, p, b.sig);
    var c :| c in issued && Issued(c)
             && p == Payload(c.root, c.since.value, c.until.value, pubkey, |c.pages.items|, c.epoch);
    SameRootSamePages(b.pages.items, c.pages.items);
    assert SameContents(b, c);
  }

  lemma SameRootSamePages(items: seq<Item>, others: seq<Item>)
    requires (forall i :: i in items ==> i.Entry?) && (forall i :: i in others ==> i.Entry?)
    ensures RootOf(Entries(items)) == RootOf(Entries(others)) <==> items == others
  {
    var p, q := Entries(items), Entries(others);
    if p != [] && q != [] && RootOf(p) == RootOf(q) {
      RootBindsList(p, q);
    }
    if RootOf(p) == RootOf(q) {
      assert |items| == |others|;
      forall k | 0 <= k < |p| ensures items[k] == others[k] {
        assert items[k] in items && others[k] in others && p[k] == q[k];
      }
    }
  }

  // ---------- Honest bundles ----------

  ghost predicate DistinctUrls(pages: seq<PageRow>) {
    forall i, j :: 0 <= i < j < |pages| ==> pages[i].url != pages[j].url
  }

  function Wrap(pages: seq<Page>): (items: seq<Item>)
    ensures |items| == |pages| && forall k :: 0 <= k < |pages| ==> items[k] == Entry(pages[k])
  {
    seq(|pages|, k requires 0 <= k < |pages| => Entry(pages[k]))
  }

  /** `b` is what an honest producer with these tables answers to `since`. */
  ghost predicate Honest(b: Bundle, pages: seq<PageRow>, meta: map<string, Meta>, notes: Annotations, since: int,
                         lim: nat)
    requires lim > 0
  {
    var until := Until(pages, meta, since, lim);
    var shipped := PagesOf(Window(pages, meta, since, until), notes);
    && b.schema == BUNDLE_SCHEMA && b.epochIsText
    && b.since == Some(since) && b.until == Some(until)
    && b.pages == Items(Wrap(shipped))
    && b.root == RootOf(shipped)
  }

  lemma WindowSmall(pages: seq<PageRow>, meta: map<string, Meta>, since: int, lim: nat)
    requires InRowidOrder(pages) && lim > 0
    ensures |Window(pages, meta, since, Until(pages, meta, since, lim))| <= lim
  {
    ShippedIsWindow(pages, meta, since, lim);
  }

  lemma {:induction false} FilterDistinct(pages: seq<PageRow>, p: PageRow -> bool)
    requires DistinctUrls(pages)
    ensures DistinctUrls(Filter(pages, p))
    decreases |pages|
  {
    if pages != [] {
      FilterDistinct(pages[1..], p);
      forall j | 0 <= j < |Filter(pages[1..], p)| ensures Filter(pages[1..], p)[j].url != pages[0].url {
        assert Filter(pages[1..], p)[j] in pages[1..];
      }
    }
  }

  /** An honest, properly signed bundle is accepted exactly when its window spans no more rowids
      than a consumer tolerates; `build_bundle` itself never checks that. */
  lemma HonestAcceptedIff(b: Bundle, pages: seq<PageRow>, meta: map<string, Meta>, notes: Annotations,
                          since: int, lim: nat, sigOk: (string, Payload, string) -> bool)
    requires InRowidOrder(pages) && DistinctUrls(pages) && 0 < lim <= MAX_BUNDLE_PAGES
    requires Honest(b, pages, meta, notes, since, lim)
    requires b.pubkey != "" && Strip(b.pubkey) == b.pubkey && b.sig != "" && |b.epoch| <= 64
    requires sigOk(b.pubkey, Payload(b.root, since, b.until.value, b.pubkey, |b.pages.items|, b.epoch), b.sig)
    ensures Acceptable(b, b.pubkey, sigOk)
       <==> Until(pages, meta, since, lim) - since <= MAX_BUNDLE_CURSOR_ADVANCE
  {
    var until := Until(pages, meta, since, lim);
    var rows := Window(pages, meta, since, until);
    UntilAdvances(pages, meta, since, lim);
    WindowSmall(pages, meta, since, lim);
    FilterDistinct(pages, OwedIn(meta, since, until));
    hide Until, Window, Strip;
    assert Entries(b.pages.items) == PagesOf(rows, notes);
  }

  lemma PrivateStretchSpan(pages: seq<PageRow>, meta: map<string, Meta>, since: int, lim: nat, r: PageRow)
    requires InRowidOrder(pages) && lim > 0
    requires r in pages && Shareable(meta, r.url) && r.url != "" && r.rowid > since + MAX_BUNDLE_CURSOR_ADVANCE
    requires forall q :: q in pages && since < q.rowid < r.rowid ==> !Shareable(meta, q.url)
    ensures Until(pages, meta, since, lim) - since > MAX_BUNDLE_CURSOR_ADVANCE
  {
    var all := Shared(Past(pages, since), meta);
    FilterInOrder(pages, After(since));
    FilterInOrder(Past(pages, since), SharedBy(meta));
    UntilSeparates(pages, meta, since, lim);
    assert r in all;
    var k :| 0 <= k < |all| && all[k] == r;
    assert all[0] in all && all[0].rowid >= r.rowid;
    assert all[0] == r;
    assert Take(all, lim)[0] == r;
  }

  /** A long private stretch: when the first page a producer may share lies more than the tolerated
      span past the cursor, every bundle it builds from there is rejected, so the consumer never
      moves on. */
  lemma LongPrivateStretchIsRejected(b: Bundle, pages: seq<PageRow>, meta: map<string, Meta>, notes: Annotations,
                                     since: int, lim: nat,
                                     r: PageRow, sigOk: (string, Payload, string) -> bool)
    requires InRowidOrder(pages) && lim > 0 && Honest(b, pages, meta, notes, since, lim)
    requires r in pages && Shareable(meta, r.url) && r.url != "" && r.rowid > since + MAX_BUNDLE_CURSOR_ADVANCE
    requires forall q :: q in pages && since < q.rowid < r.rowid ==> !Shareable(meta, q.url)
    ensures !Acceptable(b, b.pubkey, sigOk)
  {
    PrivateStretchSpan(pages, meta, since, lim, r);
    hide Until, Shareable, Strip;
  }
}
