/**
 Signed slices: a publisher's append-only hash chain, the check a receiver makes on each slice,
 and the resumable consumer that pulls and merges them.

 The content hash is modelled as a free constructor over the whole slice; signature validity is
 an arbitrary predicate supplied by the caller.
 */
module SliceChain {
  import opened Wrappers
  import opened Seqs
  import opened Strings
  import opened Merkle

  /** `canonical_url_safe`: `None` for a URL without a canonical form. */
  type Canon = string -> Option<string>

  /** The time at which the slice of an index is merged. */
  type Clock = nat -> nat

  /** The hash of a title and snippet, standing in for the page body. */
  datatype BodyHash = HashOfBody(title: string, snippet: string)

  /** An index entry as it travels: absent fields are `None`; `title` and `snippet` ride along outside
      the Merkle leaf. Time stamps are numbers, 0 being the empty stamp. */
  datatype Entry = Entry(
    url: Option<string>, contentHash: Option<BodyHash>, extractor: Option<string>,
    fetchedAt: Option<nat>, finalUrl: Option<string>, title: string, snippet: string)

  /** The five fields that enter the Merkle leaf, with absent ones read as empty. */
  datatype CanonicalEntry = CanonicalEntry(
    url: string, contentHash: Option<BodyHash>, extractor: string, fetchedAt: nat, finalUrl: string)

  function OrEmpty(s: Option<string>): string {
    if s.Some? then s.value else ""
  }

  function Stamp(e: Entry): nat {
    if e.fetchedAt.Some? then e.fetchedAt.value else 0
  }

  function LeafBytes(e: Entry): CanonicalEntry {
    CanonicalEntry(OrEmpty(e.url), e.contentHash, OrEmpty(e.extractor), Stamp(e), OrEmpty(e.finalUrl))
  }

  function CanonicalEntries(entries: seq<Entry>): (c: seq<CanonicalEntry>)
    ensures |c| == |entries| && forall k :: 0 <= k < |c| ==> c[k] == LeafBytes(entries[k])
  {
    seq(|entries|, k requires 0 <= k < |entries| => LeafBytes(entries[k]))
  }

  datatype Slice = Slice(
    author: string, number: int, ts: string, prevHash: Hash, entries: seq<Entry>,
    merkleRoot: Digest<CanonicalEntry>, sig: string)

  /** `""`, or the content hash of a whole slice, signature included. */
  datatype Hash = NoHash | HashOf(slice: Slice)

  // ---------- Building and verifying one slice ----------

  function RootOf(entries: seq<Entry>): Digest<CanonicalEntry> {
    Mth(Leaves(CanonicalEntries(entries)))
  }

  /** `build_slice`; `sign` maps the unsigned slice to its signature. */
  function BuildSlice(author: string, number: int, ts: string, prevHash: Hash, entries: seq<Entry>,
                      sign: Slice -> string): Slice
  {
    var unsigned := Slice(author, number, ts, prevHash, entries, RootOf(entries), "");
    unsigned.(sig := sign(unsigned))
  }

  datatype SliceError = AuthorMismatch | ChainBreak | RootMismatch | NoSignature | BadSignature

  /** `verify_slice`: the first failing check names the error. */
  function VerifySlice(s: Slice, pin: Option<string>, expectedPrev: Option<Hash>,
                       sigOk: Slice -> bool): Result<(), SliceError>
  {
    if pin.Some? && pin.value != "" && s.author != pin.value then Err(AuthorMismatch)
    else if expectedPrev.Some? && s.prevHash != expectedPrev.value then Err(ChainBreak)
    else if RootOf(s.entries) != s.merkleRoot then Err(RootMismatch)
    else if s.sig == "" then Err(NoSignature)
    else if !sigOk(s) then Err(BadSignature)
    else Ok(())
  }

  /** Two entries agree in what is signed: URL, content hash, extractor, time and final URL, an absent
      field being as good as an empty one. Titles and snippets may differ. */
  ghost predicate SameSigned(d: Entry, e: Entry) {
    && (if d.url.Some? then d.url.value else "") == (if e.url.Some? then e.url.value else "")
    && d.contentHash == e.contentHash
    && (if d.extractor.Some? then d.extractor.value else "") == (if e.extractor.Some? then e.extractor.value else "")
    && (if d.fetchedAt.Some? then d.fetchedAt.value else 0) == (if e.fetchedAt.Some? then e.fetchedAt.value else 0)
    && (if d.finalUrl.Some? then d.finalUrl.value else "") == (if e.finalUrl.Some? then e.finalUrl.value else "")
  }

  ghost predicate AllSameSigned(ds: seq<Entry>, es: seq<Entry>) {
    |ds| == |es| && forall k :: 0 <= k < |ds| ==> SameSigned(ds[k], es[k])
  }

  lemma SameRootIff(ds: seq<Entry>, es: seq<Entry>)
    ensures RootOf(ds) == RootOf(es) <==> AllSameSigned(ds, es)
  {
    if RootOf(ds) == RootOf(es) {
      RootBindsList(CanonicalEntries(ds), CanonicalEntries(es));
      forall k | 0 <= k < |ds| ensures SameSigned(ds[k], es[k]) {
        assert CanonicalEntries(ds)[k] == CanonicalEntries(es)[k];
      }
    }
    if AllSameSigned(ds, es) {
      forall k | 0 <= k < |ds| ensures LeafBytes(ds[k]) == LeafBytes(es[k]) {
        assert SameSigned(ds[k], es[k]);
      }
      assert CanonicalEntries(ds) == CanonicalEntries(es);
    }
  }

  /** Two slices that verify have the same Merkle root exactly when they carry as many entries, and entry
      by entry the same URL, content hash, extractor, time and final URL. */
  lemma RootPinsEntries(s: Slice, t: Slice, pin: Option<string>, prev: Option<Hash>, sigOk: Slice -> bool)
    requires VerifySlice(s, pin, prev, sigOk).Ok? && VerifySlice(t, pin, prev, sigOk).Ok?
    ensures s.merkleRoot == t.merkleRoot <==> AllSameSigned(s.entries, t.entries)
  {
    SameRootIff(s.entries, t.entries);
  }

  /** What becomes of a good slice whose entries are altered: the root gives it away exactly when one of
      the five fields was touched, and the signature has to when only titles and snippets were. */
  lemma AlteredEntries(s: Slice, entries: seq<Entry>, pin: Option<string>, prev: Option<Hash>, sigOk: Slice -> bool)
    requires VerifySlice(s, pin, prev, sigOk).Ok?
    ensures var t := s.(entries := entries);
            VerifySlice(t, pin, prev, sigOk)
            == if !AllSameSigned(s.entries, entries) then Err(RootMismatch)
               else if !sigOk(t) then Err(BadSignature)
               else Ok(())
  {
    SameRootIff(s.entries, entries);
  }

  /** What becomes of a good slice in which another field is altered. */
  lemma AlteredHead(s: Slice, author: string, prevHash: Hash, pin: Option<string>, prev: Hash, sigOk: Slice -> bool)
    requires VerifySlice(s, pin, Some(prev), sigOk).Ok?
    ensures var t := s.(author := author);
            VerifySlice(t, pin, Some(prev), sigOk)
            == if pin.Some? && pin.value != "" && author != s.author then Err(AuthorMismatch)
               else if !sigOk(t) then Err(BadSignature)
               else Ok(())
    ensures prevHash != s.prevHash ==> VerifySlice(s.(prevHash := prevHash), pin, Some(prev), sigOk) == Err(ChainBreak)
    ensures VerifySlice(s.(sig := ""), pin, Some(prev), sigOk) == Err(NoSignature)
    ensures s.sig != "" && sigOk(s)
  {
    hide RootOf;
  }

  // ---------- Chains ----------

  function Tip(chain: seq<Slice>): Hash {
    if chain == [] then NoHash else HashOf(chain[|chain| - 1])
  }

  /** Each slice points at the content hash of the one before it, the first at nothing. */
  ghost predicate Linked(chain: seq<Slice>) {
    forall k :: 0 <= k < |chain| ==> chain[k].prevHash == Tip(chain[..k])
  }

  lemma LinkedPrefix(chain: seq<Slice>, n: nat)
    requires Linked(chain) && n <= |chain|
    ensures Linked(chain[..n])
  {
    forall k | 0 <= k < n ensures chain[..n][k].prevHash == Tip(chain[..n][..k]) {
      assert chain[..n][..k] == chain[..k];
    }
  }

  /** The last hash pins the whole history. */
  lemma {:induction false} TipPinsChain(a: seq<Slice>, b: seq<Slice>)
    requires Linked(a) && Linked(b) && Tip(a) == Tip(b)
    ensures a == b
    decreases |a|
  {
    if a != [] {
      var m, n := |a| - 1, |b| - 1;
      LinkedPrefix(a, m);
      LinkedPrefix(b, n);
      assert a[m].prevHash == Tip(a[..m]) && b[n].prevHash == Tip(b[..n]);
      TipPinsChain(a[..m], b[..n]);
      assert a == a[..m] + [a[m]] && b == b[..n] + [b[n]];
    }
  }

  // ---------- The publisher ----------

  /** A row of the local `search_results` table, under the normalised query it was found with. */
  datatype ResultRow = ResultRow(query: string, url: string, title: string, snippet: string, seenAt: nat)

  /** Stable insertion by time stamp: the table's `ORDER BY seen_at ASC`. */
  function InsertBySeen(r: ResultRow, sorted: seq<ResultRow>): seq<ResultRow> {
    if sorted == [] || r.seenAt <= sorted[0].seenAt then [r] + sorted
    else [sorted[0]] + InsertBySeen(r, sorted[1..])
  }

  /** `_read_new_rows`: rows with a URL, strictly newer than the cursor, oldest first. */
  function NewRows(table: seq<ResultRow>, cursor: nat): seq<ResultRow> {
    if table == [] then []
    else
      var rest := NewRows(table[1..], cursor);
      if table[0].seenAt > cursor && table[0].url != "" then InsertBySeen(table[0], rest) else rest
  }

  ghost predicate SortedBySeen(rows: seq<ResultRow>) {
    forall i, j :: 0 <= i < j < |rows| ==> rows[i].seenAt <= rows[j].seenAt
  }

  lemma {:induction false} InsertBySeenKeeps(r: ResultRow, sorted: seq<ResultRow>)
    ensures multiset(InsertBySeen(r, sorted)) == multiset(sorted) + multiset{r}
    decreases |sorted|
  {
    if !(sorted == [] || r.seenAt <= sorted[0].seenAt) {
      InsertBySeenKeeps(r, sorted[1..]);
      assert sorted == [sorted[0]] + sorted[1..];
    }
  }

  lemma {:induction false} InsertBySeenSorts(r: ResultRow, sorted: seq<ResultRow>)
    requires SortedBySeen(sorted)
    ensures var result := InsertBySeen(r, sorted);
            && SortedBySeen(result) && result != []
            && (result[0] == r || (sorted != [] && result[0] == sorted[0]))
    decreases |sorted|
  {
    if !(sorted == [] || r.seenAt <= sorted[0].seenAt) {
      InsertBySeenSorts(r, sorted[1..]);
    }
  }

  /** Exactly the rows past the cursor with a URL, each as often as the table holds it, in order. */
  lemma {:induction false} NewRowsCorrect(table: seq<ResultRow>, cursor: nat)
    ensures SortedBySeen(NewRows(table, cursor))
    ensures forall r :: multiset(NewRows(table, cursor))[r]
                     == if r.seenAt > cursor && r.url != "" then multiset(table)[r] else 0
    decreases |table|
  {
    if table != [] {
      NewRowsCorrect(table[1..], cursor);
      assert table == [table[0]] + table[1..];
      if table[0].seenAt > cursor && table[0].url != "" {
        InsertBySeenKeeps(table[0], NewRows(table[1..], cursor));
        InsertBySeenSorts(table[0], NewRows(table[1..], cursor));
      }
    }
  }

  function EntryOf(r: ResultRow): Entry {
    Entry(Some(r.url), Some(HashOfBody(r.title, r.snippet)), Some("search_results_snippet"),
          Some(r.seenAt), Some(r.url), r.title, r.snippet)
  }

  function EntriesOf(rows: seq<ResultRow>): (entries: seq<Entry>)
    ensures |entries| == |rows| && forall k :: 0 <= k < |rows| ==> entries[k] == EntryOf(rows[k])
  {
    seq(|rows|, k requires 0 <= k < |rows| => EntryOf(rows[k]))
  }

  /** Each entry tells of its row: where the page is, when it was seen, and a hash of its title and snippet,
      which ride along. */
  ghost predicate Describes(entries: seq<Entry>, rows: seq<ResultRow>) {
    && |entries| == |rows|
    && forall k :: 0 <= k < |rows| ==>
         && entries[k].url == Some(rows[k].url) && entries[k].finalUrl == Some(rows[k].url)
         && entries[k].contentHash == Some(HashOfBody(rows[k].title, rows[k].snippet))
         && entries[k].extractor == Some("search_results_snippet") && entries[k].fetchedAt == Some(rows[k].seenAt)
         && entries[k].title == rows[k].title && entries[k].snippet == rows[k].snippet
  }

  lemma EntriesDescribe(rows: seq<ResultRow>)
    ensures Describes(EntriesOf(rows), rows)
  {
  }

  /** A published root commits to the rows, titles and snippets included: two lists of rows have one root
      exactly when they have the same URLs, titles, snippets and times. */
  lemma RootCommitsToRows(rows: seq<ResultRow>, others: seq<ResultRow>)
    ensures RootOf(EntriesOf(rows)) == RootOf(EntriesOf(others))
       <==> |rows| == |others| && forall k :: 0 <= k < |rows| ==>
              rows[k].url == others[k].url && rows[k].title == others[k].title
              && rows[k].snippet == others[k].snippet && rows[k].seenAt == others[k].seenAt
  {
    var ds, es := EntriesOf(rows), EntriesOf(others);
    SameRootIff(ds, es);
    if AllSameSigned(ds, es) {
      forall k | 0 <= k < |rows| ensures rows[k].url == others[k].url && rows[k].title == others[k].title
        && rows[k].snippet == others[k].snippet && rows[k].seenAt == others[k].seenAt
      {
        assert SameSigned(ds[k], es[k]);
      }
    }
    hide RootOf;
  }

  /** The publishing identity: its key, its signing function and what everyone accepts as a
      valid signature. */
  datatype Identity = Identity(author: string, sign: Slice -> string, sigOk: Slice -> bool) {
    ghost predicate Valid() {
      && author != ""
      && forall s: Slice :: s.author == author ==> sign(s) != "" && sigOk(s.(sig := sign(s)))
    }
  }

  /** A chain every link of which a receiver accepts; `pin` is the author key it insists on, if any. */
  ghost predicate AcceptedChain(chain: seq<Slice>, pin: Option<string>, sigOk: Slice -> bool) {
    forall k :: 0 <= k < |chain| ==> VerifySlice(chain[k], pin, Some(Tip(chain[..k])), sigOk).Ok?
  }

  lemma AcceptedIsLinked(chain: seq<Slice>, pin: Option<string>, sigOk: Slice -> bool)
    requires AcceptedChain(chain, pin, sigOk)
    ensures Linked(chain)
  {
    forall k | 0 <= k < |chain| ensures chain[k].prevHash == Tip(chain[..k]) {
      assert VerifySlice(chain[k], pin, Some(Tip(chain[..k])), sigOk).Ok?;
    }
  }

  lemma AcceptedSnoc(chain: seq<Slice>, s: Slice, pin: Option<string>, sigOk: Slice -> bool)
    requires AcceptedChain(chain, pin, sigOk) && VerifySlice(s, pin, Some(Tip(chain)), sigOk).Ok?
    ensures AcceptedChain(chain + [s], pin, sigOk)
  {
    hide VerifySlice;
    var longer := chain + [s];
    assert longer[..|chain|] == chain;
    forall k | 0 <= k < |chain| ensures VerifySlice(longer[k], pin, Some(Tip(longer[..k])), sigOk).Ok? {
      assert longer[..k] == chain[..k];
    }
  }

  /** What `build_slice` returns on top of a chain is accepted as its next link. */
  lemma BuiltSliceAccepted(chain: seq<Slice>, number: int, ts: string, entries: seq<Entry>, id: Identity)
    requires id.Valid() && AcceptedChain(chain, Some(id.author), id.sigOk)
    ensures var s := BuildSlice(id.author, number, ts, Tip(chain), entries, id.sign);
            && s.number == number && s.entries == entries && s.ts == ts && s.author == id.author
            && AcceptedChain(chain + [s], Some(id.author), id.sigOk) && Tip(chain + [s]) == HashOf(s)
  {
    var s := BuildSlice(id.author, number, ts, Tip(chain), entries, id.sign);
    AcceptedSnoc(chain, s, Some(id.author), id.sigOk);
  }

  /** The rows packed so far are in time order, have URLs, and end exactly at the cursor. */
  ghost predicate PackedUpTo(packed: seq<ResultRow>, cursor: nat) {
    && SortedBySeen(packed)
    && cursor == (if packed == [] then 0 else packed[|packed| - 1].seenAt)
    && forall r :: r in packed ==> r.url != "" && r.seenAt > 0
  }

  ghost function CursorAfter(table: seq<ResultRow>, cursor: nat): nat {
    var rows := NewRows(table, cursor);
    if rows == [] then cursor else rows[|rows| - 1].seenAt
  }

  lemma PackedConcat(packed: seq<ResultRow>, rows: seq<ResultRow>, cursor: nat)
    requires PackedUpTo(packed, cursor) && SortedBySeen(rows)
    requires forall k :: 0 <= k < |rows| ==> rows[k].seenAt > cursor && rows[k].url != ""
    ensures PackedUpTo(packed + rows, if rows == [] then cursor else rows[|rows| - 1].seenAt)
  {
    var all := packed + rows;
    forall i, j | 0 <= i < j < |all| ensures all[i].seenAt <= all[j].seenAt {
      if j < |packed| {
        assert all[i] == packed[i] && all[j] == packed[j];
      } else if i < |packed| {
        assert packed[i].seenAt <= cursor;
      }
    }
    forall r | r in all ensures r.url != "" && r.seenAt > 0 {
      var k :| 0 <= k < |all| && all[k] == r;
      assert k < |packed| ==> packed[k] in packed;
    }
  }

  lemma PackedGrows(packed: seq<ResultRow>, table: seq<ResultRow>, cursor: nat)
    requires PackedUpTo(packed, cursor)
    ensures PackedUpTo(packed + NewRows(table, cursor), CursorAfter(table, cursor))
  {
    NewRowsCorrect(table, cursor);
    NewRowsMember(table, cursor);
    hide NewRows, PackedUpTo, SortedBySeen;
    PackedConcat(packed, NewRows(table, cursor), cursor);
  }

  /** The slice files and the saved state of `publisher-state.json`. */
  class Publisher {
    const id: Identity
    var lastSeq: int
    var lastCursor: nat
    var lastHash: Hash
    var slices: seq<Slice>
    /** Every row packed so far, in publication order. */
    ghost var packed: seq<ResultRow>

    ghost predicate Valid()
      reads this
    {
      && id.Valid()
      && lastSeq == |slices| - 1
      && lastHash == Tip(slices)
      && AcceptedChain(slices, Some(id.author), id.sigOk)
      && PackedUpTo(packed, lastCursor)
    }

    constructor (id: Identity)
      requires id.Valid()
      ensures Valid() && this.id == id && slices == [] && packed == [] && lastCursor == 0
    {
      this.id := id;
      lastSeq, lastCursor, lastHash, slices := -1, 0, NoHash, [];
      packed := [];
    }

    /** `publish`: one slice with every row newer than the cursor, or nothing at all. */
    method Publish(table: seq<ResultRow>, ts: string) returns (skipped: bool)
      requires Valid()
      modifies this
      ensures Valid()
      ensures skipped <==> forall r :: r in table && r.url != "" ==> r.seenAt <= old(lastCursor)
      ensures packed == old(packed) + NewRows(table, old(lastCursor))
      ensures skipped ==> unchanged(this)
      ensures !skipped ==>
                && |slices| == |old(slices)| + 1 && slices[..|old(slices)|] == old(slices)
                && slices[|old(slices)|].entries == EntriesOf(NewRows(table, old(lastCursor)))
                && Describes(slices[|old(slices)|].entries, NewRows(table, old(lastCursor)))
                && slices[|old(slices)|].number == |old(slices)| && slices[|old(slices)|].ts == ts
    {
      hide NewRows, BuildSlice, AcceptedChain, PackedUpTo, Tip;
      var newRows := NewRows(table, lastCursor);
      PackedGrows(packed, table, lastCursor);
      NewRowsMember(table, lastCursor);
      if newRows == [] {
        assert packed + newRows == packed;
        return true;
      }
      var s := BuildSlice(id.author, lastSeq + 1, ts, lastHash, EntriesOf(newRows), id.sign);
      BuiltSliceAccepted(slices, lastSeq + 1, ts, EntriesOf(newRows), id);
      EntriesDescribe(newRows);
      lastCursor := newRows[|newRows| - 1].seenAt;
      lastSeq := lastSeq + 1;
      lastHash := HashOf(s);
      slices := slices + [s];
      packed := packed + newRows;
      return false;
    }
  }

  lemma NewRowsMember(table: seq<ResultRow>, cursor: nat)
    ensures forall r :: r in NewRows(table, cursor) <==> r in table && r.seenAt > cursor && r.url != ""
    ensures var rows := NewRows(table, cursor);
            forall k :: 0 <= k < |rows| ==> rows[k].seenAt > cursor && rows[k].url != ""
  {
    NewRowsCorrect(table, cursor);
    forall r ensures r in NewRows(table, cursor) <==> r in table && r.seenAt > cursor && r.url != "" {
      assert r in NewRows(table, cursor) <==> r in multiset(NewRows(table, cursor));
      assert r in table <==> r in multiset(table);
    }
  }

  // ---------- The consumer ----------

  /** What a peer answers to `GET /slices/<seq>`: nothing usable, a document lacking required
      fields, or a slice. */
  datatype Reply = NoReply | Malformed | Got(slice: Slice)

  datatype SyncError = HeadUnreachable | NoSlicesYet | SliceRejected(number: nat)

  datatype SyncOutcome = SyncOutcome(headSeq: int, pulled: nat, verified: nat, error: Option<SyncError>)

  /** The slices one sync accepts: from number `from` up to `head`, stopping at the first reply
      that is missing or does not verify on top of `prev`. */
  function Pulled(from: nat, head: int, fetch: nat -> Reply, prev: Hash, pin: Option<string>,
                  sigOk: Slice -> bool): seq<Slice>
    decreases head - from
  {
    if from > head || !fetch(from).Got? then []
    else
      var s := fetch(from).slice;
      if VerifySlice(s, pin, Some(if from > 0 then prev else NoHash), sigOk).Ok? then
        [s] + Pulled(from + 1, head, fetch, HashOf(s), pin, sigOk)
      else []
  }

  // ---------- The table of search results ----------

  /** A result handed to `record_search_results`. */
  datatype Found = Found(url: string, title: string, snippet: string)

  const SNIPPET_SIZE := 800

  function NewlinesToSpaces(s: string): (r: string)
    ensures |r| == |s|
  {
    if s == "" then "" else [if s[0] == '\n' then ' ' else s[0]] + NewlinesToSpaces(s[1..])
  }

  function CutSnippet(s: string): string {
    Take(NewlinesToSpaces(Strip(s)), SNIPPET_SIZE)
  }

  /** A recorded snippet is the trimmed text on one line, cut at 800 characters. */
  lemma CutSnippetIs(s: string)
    ensures var text, r := Strip(s), CutSnippet(s);
            && |r| == (if |text| <= 800 then |text| else 800)
            && forall k :: 0 <= k < |r| ==> r[k] == if text[k] == '\n' then ' ' else text[k]
  {
    NewlineAt(Strip(s));
  }

  lemma {:induction false} NewlineAt(s: string)
    ensures forall k :: 0 <= k < |s| ==> NewlinesToSpaces(s)[k] == if s[k] == '\n' then ' ' else s[k]
    decreases |s|
  {
    if s != "" {
      NewlineAt(s[1..]);
    }
  }

  function RecordedRow(query: string, f: Found, now: nat, canon: Canon): seq<ResultRow> {
    var c := canon(f.url);
    if c.Some? && c.value != "" then [ResultRow(query, c.value, Strip(f.title), CutSnippet(f.snippet), now)] else []
  }

  /** The rows a list of results becomes: those whose URL has a canonical form, trimmed and cut. */
  function RecordedRows(query: string, results: seq<Found>, now: nat, canon: Canon): seq<ResultRow> {
    if results == [] then []
    else RecordedRow(query, results[0], now, canon) + RecordedRows(query, results[1..], now, canon)
  }

  function NotQuery(query: string): ResultRow -> bool {
    (r: ResultRow) => r.query != query
  }

  /** `record_search_results`: rows of the query replace whatever the query had before; nothing usable
      changes nothing. */
  function Recorded(table: seq<ResultRow>, query: string, results: seq<Found>, now: nat, canon: Canon): seq<ResultRow> {
    var rows := RecordedRows(query, results, now, canon);
    if query == "" || rows == [] then table else Filter(table, NotQuery(query)) + rows
  }

  lemma {:induction false} RecordedStamp(query: string, results: seq<Found>, now: nat, canon: Canon)
    ensures forall r :: r in RecordedRows(query, results, now, canon) ==>
              r.query == query && r.seenAt == now && r.url != ""
    decreases |results|
  {
    if results != [] {
      RecordedStamp(query, results[1..], now, canon);
    }
  }

  lemma RecordedSnoc(query: string, results: seq<Found>, i: nat, now: nat, canon: Canon)
    requires i < |results|
    ensures RecordedRows(query, results[..i + 1], now, canon)
         == RecordedRows(query, results[..i], now, canon) + RecordedRows(query, [results[i]], now, canon)
  {
    assert results[..i + 1] == results[..i] + [results[i]];
    RecordedConcat(results[..i], [results[i]], query, now, canon);
  }

  lemma RecordedOne(query: string, f: Found, now: nat, canon: Canon)
    ensures var c := canon(f.url);
            RecordedRows(query, [f], now, canon)
            == if c.None? || c.value == "" then []
               else [ResultRow(query, c.value, Strip(f.title), CutSnippet(f.snippet), now)]
  {
    assert [f][1..] == [];
  }

  /** The loop that prepares the rows. */
  method Usable(query: string, results: seq<Found>, now: nat, canon: Canon) returns (added: seq<ResultRow>)
    ensures added == RecordedRows(query, results, now, canon)
  {
    added := [];
    for i := 0 to |results|
      invariant added == RecordedRows(query, results[..i], now, canon)
    {
      hide RecordedRows, Strip, CutSnippet;
      RecordedSnoc(query, results, i, now, canon);
      RecordedOne(query, results[i], now, canon);
      var f := results[i];
      var c := canon(f.url);
      if c.Some? && c.value != "" {
        added := added + [ResultRow(query, c.value, Strip(f.title), CutSnippet(f.snippet), now)];
      }
    }
    assert results[..|results|] == results;
  }

  class SearchCache {
    var rows: seq<ResultRow>

    constructor ()
      ensures rows == []
    {
      rows := [];
    }

    method Record(query: string, results: seq<Found>, now: nat, canon: Canon) returns (written: nat)
      modifies this
      ensures rows == Recorded(old(rows), query, results, now, canon)
      ensures written == if query == "" then 0 else |RecordedRows(query, results, now, canon)|
    {
      hide Strip, CutSnippet, Filter;
      if query == "" || results == [] {
        return 0;
      }
      var added := Usable(query, results, now, canon);
      if added == [] {
        return 0;
      }
      rows := Filter(rows, NotQuery(query)) + added;
      written := |added|;
    }
  }

  // ---------- Merging a friend's slices ----------

  /** The results a slice contributes: entries whose URL has a canonical form, which also stands in for
      a missing title. */
  function FoundIn(entries: seq<Entry>, canon: Canon): seq<Found> {
    if entries == [] then []
    else
      var c := canon(OrEmpty(entries[0].url));
      var title := entries[0].title;
      (if c.None? || c.value == "" then []
       else [Found(c.value, if title != "" then title else c.value, entries[0].snippet)])
      + FoundIn(entries[1..], canon)
  }

  /** A friend's entries, as rows of the local table under the friend's own query. */
  function RowsOf(entries: seq<Entry>, friend: string, now: nat, canon: Canon): seq<ResultRow> {
    RecordedRows(friend, FoundIn(entries, canon), now, canon)
  }

  /** How a friend's search shows one of the publisher's rows, if it does: the URL made canonical, on
      sending it on and again on recording it, and the texts trimmed and cut once more. */
  function ShownAs(r: ResultRow, friend: string, now: nat, canon: Canon): seq<ResultRow> {
    var c := canon(r.url);
    if c.None? || c.value == "" then []
    else
      var d := canon(c.value);
      if d.None? || d.value == "" then []
      else [ResultRow(friend, d.value, Strip(if r.title == "" then c.value else r.title), CutSnippet(r.snippet), now)]
  }

  function Shown(rows: seq<ResultRow>, friend: string, now: nat, canon: Canon): seq<ResultRow> {
    if rows == [] then [] else ShownAs(rows[0], friend, now, canon) + Shown(rows[1..], friend, now, canon)
  }

  /** From table to table: packing rows into a slice and merging the slice shows exactly the rows
      published, in order. */
  lemma {:induction false} PublishedRowsArrive(rows: seq<ResultRow>, friend: string, now: nat, canon: Canon)
    ensures RowsOf(EntriesOf(rows), friend, now, canon) == Shown(rows, friend, now, canon)
    decreases |rows|
  {
    if rows != [] {
      PublishedRowsArrive(rows[1..], friend, now, canon);
      assert EntriesOf(rows)[1..] == EntriesOf(rows[1..]);
      hide Strip, CutSnippet;
      var first, later := FoundIn([EntryOf(rows[0])], canon), FoundIn(EntriesOf(rows[1..]), canon);
      FoundStep(EntryOf(rows[0]), EntriesOf(rows[1..]), canon);
      assert EntriesOf(rows) == [EntryOf(rows[0])] + EntriesOf(rows[1..]);
      RecordedConcat(first, later, friend, now, canon);
      OneArrives(rows[0], friend, now, canon);
    }
  }

  lemma FoundStep(e: Entry, rest: seq<Entry>, canon: Canon)
    ensures FoundIn([e] + rest, canon) == FoundIn([e], canon) + FoundIn(rest, canon)
  {
    assert ([e] + rest)[1..] == rest;
    assert [e][1..] == [];
  }

  lemma {:induction false} RecordedConcat(a: seq<Found>, b: seq<Found>, query: string, now: nat, canon: Canon)
    ensures RecordedRows(query, a + b, now, canon)
         == RecordedRows(query, a, now, canon) + RecordedRows(query, b, now, canon)
    decreases |a|
  {
    hide RecordedRow;
    if a == [] {
      assert a + b == b;
    } else {
      RecordedConcat(a[1..], b, query, now, canon);
      assert (a + b)[1..] == a[1..] + b;
    }
  }

  lemma OneArrives(r: ResultRow, friend: string, now: nat, canon: Canon)
    ensures RecordedRows(friend, FoundIn([EntryOf(r)], canon), now, canon) == ShownAs(r, friend, now, canon)
  {
    hide Strip, CutSnippet;
    assert [EntryOf(r)][1..] == [];
    var fs := FoundIn([EntryOf(r)], canon);
    assert FoundIn([], canon) == [] && |fs| <= 1;
    if fs != [] {
      RecordedOne(friend, fs[0], now, canon);
      assert fs == [fs[0]];
    }
  }

  /** A row with a canonical URL and clean texts arrives as it was. */
  lemma CleanRowArrives(r: ResultRow, friend: string, now: nat, canon: Canon)
    requires canon(r.url) == Some(r.url) && r.url != "" && CleanText(r.title)
    requires r.snippet == "" || (CleanText(r.snippet) && |r.snippet| <= 800)
    ensures ShownAs(r, friend, now, canon) == [r.(query := friend, seenAt := now)]
  {
    StripSelf(r.title);
    if r.snippet != "" {
      StripSelf(r.snippet);
      NoNewlines(r.snippet);
    }
    assert CutSnippet(r.snippet) == r.snippet;
    hide Strip, CutSnippet, OneLine, IsSpace;
    CleanNotEmpty(r.title);
  }

  lemma {:induction false} NoNewlines(s: string)
    requires OneLine(s)
    ensures NewlinesToSpaces(s) == s
    decreases |s|
  {
    if s != "" {
      TailOneLine(s, 1);
      assert !IsBreak(s[0]);
      NoNewlines(s[1..]);
    }
  }

  /** Merging a slice replaces every row stored for this friend, unless it contributes none: all of a
      friend's slices share one synthetic query. */
  function MergedTable(table: seq<ResultRow>, s: Slice, friend: string, now: nat, canon: Canon): seq<ResultRow> {
    Recorded(table, friend, FoundIn(s.entries, canon), now, canon)
  }

  /** The table after merging slices one by one, the one at index `i` at time `clock(first + i)`. */
  function MergeAll(table: seq<ResultRow>, slices: seq<Slice>, first: nat, friend: string, clock: Clock,
                    canon: Canon): seq<ResultRow>
  {
    if slices == [] then table
    else
      var n := |slices| - 1;
      MergedTable(MergeAll(table, slices[..n], first, friend, clock, canon), slices[n], friend, clock(first + n), canon)
  }

  function IsQuery(query: string): ResultRow -> bool {
    (r: ResultRow) => r.query == query
  }

  lemma MergeOne(table: seq<ResultRow>, s: Slice, friend: string, now: nat, canon: Canon)
    requires friend != ""
    ensures var after, rows := MergedTable(table, s, friend, now, canon), RowsOf(s.entries, friend, now, canon);
            && Filter(after, IsQuery(friend)) == (if rows == [] then Filter(table, IsQuery(friend)) else rows)
            && Filter(after, NotQuery(friend)) == Filter(table, NotQuery(friend))
  {
    var rows := RowsOf(s.entries, friend, now, canon);
    RecordedStamp(friend, FoundIn(s.entries, canon), now, canon);
    hide Filter, RecordedRows, FoundIn;
    if rows != [] {
      var others := Filter(table, NotQuery(friend));
      FilterConcat(others, rows, IsQuery(friend));
      FilterConcat(others, rows, NotQuery(friend));
      FilterNone(others, IsQuery(friend));
      FilterAll(rows, IsQuery(friend));
      FilterNone(rows, NotQuery(friend));
      FilterAll(others, NotQuery(friend));
    }
  }

  lemma MergeAllStep(table: seq<ResultRow>, slices: seq<Slice>, first: nat, friend: string, clock: Clock, canon: Canon)
    requires slices != []
    ensures var n := |slices| - 1;
            var before := MergeAll(table, slices[..n], first, friend, clock, canon);
            MergeAll(table, slices, first, friend, clock, canon)
              == MergedTable(before, slices[n], friend, clock(first + n), canon)
  {
    hide MergedTable;
  }

  lemma MergeUnfolds(table: seq<ResultRow>, slices: seq<Slice>, first: nat, friend: string, clock: Clock, canon: Canon)
    requires slices != [] && friend != ""
    ensures var n := |slices| - 1;
            var before := MergeAll(table, slices[..n], first, friend, clock, canon);
            var after := MergeAll(table, slices, first, friend, clock, canon);
            var rows := RowsOf(slices[n].entries, friend, clock(first + n), canon);
            && Filter(after, IsQuery(friend)) == (if rows == [] then Filter(before, IsQuery(friend)) else rows)
            && Filter(after, NotQuery(friend)) == Filter(before, NotQuery(friend))
  {
    hide *;
    MergeAllStep(table, slices, first, friend, clock, canon);
    var n := |slices| - 1;
    var before := MergeAll(table, slices[..n], first, friend, clock, canon);
    MergeOne(before, slices[n], friend, clock(first + n), canon);
  }

  /** What stays searchable of a friend after merging is decided by the last slice that contributed
      rows; everybody else's rows stay. */
  lemma {:induction false} EarlierSlicesForgotten(table: seq<ResultRow>, slices: seq<Slice>, k: nat, first: nat,
                                                  friend: string,
                                                  clock: Clock, canon: Canon)
    requires friend != "" && k < |slices|
    requires RowsOf(slices[k].entries, friend, clock(first + k), canon) != []
    requires forall j :: k < j < |slices| ==> RowsOf(slices[j].entries, friend, clock(first + j), canon) == []
    ensures var after := MergeAll(table, slices, first, friend, clock, canon);
            && Filter(after, IsQuery(friend)) == RowsOf(slices[k].entries, friend, clock(first + k), canon)
            && Filter(after, NotQuery(friend)) == Filter(table, NotQuery(friend))
    decreases |slices|
  {
    hide Filter, RowsOf, MergeAll;
    MergeUnfolds(table, slices, first, friend, clock, canon);
    if k < |slices| - 1 {
      EarlierSlicesForgotten(table, slices[..|slices| - 1], k, first, friend, clock, canon);
    } else {
      OthersStay(table, slices[..|slices| - 1], first, friend, clock, canon);
    }
  }

  lemma {:induction false} OthersStay(table: seq<ResultRow>, slices: seq<Slice>, first: nat, friend: string,
                                      clock: Clock, canon: Canon)
    requires friend != ""
    ensures Filter(MergeAll(table, slices, first, friend, clock, canon), NotQuery(friend))
              == Filter(table, NotQuery(friend))
    decreases |slices|
  {
    if slices != [] {
      hide Filter, RowsOf, MergeAll;
      MergeUnfolds(table, slices, first, friend, clock, canon);
      OthersStay(table, slices[..|slices| - 1], first, friend, clock, canon);
    }
  }

  /** The table after merging the slices of a chain from index `first` on. */
  function MergedFrom(table: seq<ResultRow>, chain: seq<Slice>, first: nat, friend: string, clock: Clock,
                      canon: Canon): seq<ResultRow>
    requires first <= |chain|
  {
    MergeAll(table, chain[first..], first, friend, clock, canon)
  }

  lemma MergedFromStarts(table: seq<ResultRow>, chain: seq<Slice>, friend: string, clock: Clock, canon: Canon)
    ensures MergedFrom(table, chain, |chain|, friend, clock, canon) == table
  {
  }

  lemma MergedFromSnoc(table: seq<ResultRow>, chain: seq<Slice>, s: Slice, first: nat, friend: string,
                       clock: Clock, canon: Canon)
    requires first <= |chain|
    ensures MergedFrom(table, chain + [s], first, friend, clock, canon)
         == MergedTable(MergedFrom(table, chain, first, friend, clock, canon), s, friend, clock(|chain|), canon)
  {
    hide MergedTable;
    assert (chain + [s])[first..] == chain[first..] + [s];
    assert (chain[first..] + [s])[..|chain| - first] == chain[first..];
  }

  /** One peer's saved state, and the table its slices are merged into. */
  class Consumer {
    const cache: SearchCache
    const friend: string
    const pin: Option<string>
    const sigOk: Slice -> bool
    const canon: Canon
    var lastSeq: int
    var lastHash: Hash
    /** Every slice merged so far, in order. */
    ghost var merged: seq<Slice>

    ghost predicate Valid()
      reads this
    {
      && lastSeq == |merged| - 1
      && lastHash == Tip(merged)
      && AcceptedChain(merged, pin, sigOk)
    }

    constructor (cache: SearchCache, friend: string, pin: Option<string>, sigOk: Slice -> bool, canon: Canon)
      ensures Valid() && merged == [] && this.cache == cache && this.friend == friend
      ensures this.pin == pin && this.sigOk == sigOk && this.canon == canon
    {
      this.cache, this.friend, this.pin, this.sigOk, this.canon := cache, friend, pin, sigOk, canon;
      lastSeq, lastHash, merged := -1, NoHash, [];
    }

    /** Check the next slice and, when it verifies, merge it and save the new state. */
    method TryMerge(s: Slice, now: nat) returns (ok: bool)
      requires Valid()
      modifies this, cache
      ensures Valid()
      ensures cache.rows == if ok then MergedTable(old(cache.rows), s, friend, now, canon) else old(cache.rows)
      ensures ok <==> VerifySlice(s, pin, Some(Tip(old(merged))), sigOk).Ok?
      ensures merged == if ok then old(merged) + [s] else old(merged)
    {
      hide VerifySlice, AcceptedChain, Recorded, FoundIn;
      // The first slice must point at nothing, whatever the saved hash is.
      var expected := if lastSeq + 1 > 0 then lastHash else NoHash;
      if VerifySlice(s, pin, Some(expected), sigOk).Err? {
        return false;
      }
      AcceptedSnoc(merged, s, pin, sigOk);
      assert (merged + [s])[..|merged|] == merged;
      var written := cache.Record(friend, FoundIn(s.entries, canon), now, canon);
      lastHash, lastSeq := HashOf(s), lastSeq + 1;
      merged := merged + [s];
      return true;
    }

    /** `sync_from_peer` against a peer that answers as `head` and `fetch` say. */
    method SyncFromPeer(head: Option<int>, fetch: nat -> Reply, clock: Clock) returns (outcome: SyncOutcome)
      requires Valid()
      modifies this, cache
      ensures Valid()
      ensures |old(merged)| <= |merged|
      ensures cache.rows == MergedFrom(old(cache.rows), merged, |old(merged)|, friend, clock, canon)
      ensures merged == AfterSync(old(merged), head, fetch, pin, sigOk)
      ensures Furthest(old(merged), merged, head, fetch, pin, sigOk)
      ensures outcome.verified == |merged| - |old(merged)|
      ensures var stop := |merged|;
              var rejected := head.Some? && stop <= head.value && !fetch(stop).NoReply?;
              && outcome.pulled == outcome.verified + (if rejected then 1 else 0)
              && outcome.error == if head.None? then Some(HeadUnreachable)
                                  else if head.value < 0 then Some(NoSlicesYet)
                                  else if rejected then Some(SliceRejected(stop)) else None
    {
      FurthestSync(merged, head, fetch, pin, sigOk);
      hide VerifySlice, AcceptedChain, Pulled, MergedTable, MergedFrom, Furthest;
      MergedFromStarts(cache.rows, merged, friend, clock, canon);
      if head.None? {
        return SyncOutcome(-1, 0, 0, Some(HeadUnreachable));
      }
      var headSeq := head.value;
      PulledUnfolds(merged, headSeq, fetch, pin, sigOk);
      if headSeq < 0 {
        return SyncOutcome(-1, 0, 0, Some(NoSlicesYet));
      }
      if headSeq <= lastSeq {
        return SyncOutcome(headSeq, 0, 0, None);
      }
      var pulled, verified := 0, 0;
      var from := lastSeq + 1;
      while from <= headSeq
        invariant Valid() && from == lastSeq + 1 <= headSeq + 1 && |old(merged)| <= |merged|
        invariant cache.rows == MergedFrom(old(cache.rows), merged, |old(merged)|, friend, clock, canon)
        invariant pulled == verified == |merged| - |old(merged)|
        invariant AfterSync(merged, head, fetch, pin, sigOk) == AfterSync(old(merged), head, fetch, pin, sigOk)
        decreases headSeq - from
      {
        PulledUnfolds(merged, headSeq, fetch, pin, sigOk);
        var reply := fetch(from);
        if reply.NoReply? {
          return SyncOutcome(headSeq, pulled, verified, None);
        }
        pulled := pulled + 1;
        var ok := false;
        if reply.Got? {
          MergedFromSnoc(old(cache.rows), merged, reply.slice, |old(merged)|, friend, clock, canon);
          ok := TryMerge(reply.slice, clock(from));
        }
        if !ok {
          return SyncOutcome(headSeq, pulled, verified, Some(SliceRejected(from)));
        }
        verified, from := verified + 1, from + 1;
      }
      PulledUnfolds(merged, headSeq, fetch, pin, sigOk);
      outcome := SyncOutcome(headSeq, pulled, verified, None);
    }
  }

  /** The merged chain after one sync. */
  ghost function AfterSync(merged: seq<Slice>, head: Option<int>, fetch: nat -> Reply,
                           pin: Option<string>, sigOk: Slice -> bool): seq<Slice>
  {
    if head.None? then merged else merged + Pulled(|merged|, head.value, fetch, Tip(merged), pin, sigOk)
  }

  /** A sync either stops here or accepts one more slice and goes on. */
  lemma PulledUnfolds(merged: seq<Slice>, head: int, fetch: nat -> Reply, pin: Option<string>, sigOk: Slice -> bool)
    ensures var n := |merged|;
            var more := n <= head && fetch(n).Got? && VerifySlice(fetch(n).slice, pin, Some(Tip(merged)), sigOk).Ok?;
            AfterSync(merged, Some(head), fetch, pin, sigOk)
            == if more then AfterSync(merged + [fetch(n).slice], Some(head), fetch, pin, sigOk) else merged
  {
    hide VerifySlice;
    var n := |merged|;
    if n <= head && fetch(n).Got? && VerifySlice(fetch(n).slice, pin, Some(Tip(merged)), sigOk).Ok? {
      var s := fetch(n).slice;
      assert merged + ([s] + Pulled(n + 1, head, fetch, HashOf(s), pin, sigOk))
          == (merged + [s]) + Pulled(n + 1, head, fetch, HashOf(s), pin, sigOk);
    } else {
      assert merged + [] == merged;
    }
  }

  /** Slice `k` of the chain is as delivered, and verified on top of the one before. */
  ghost predicate Delivered(chain: seq<Slice>, k: nat, head: int, fetch: nat -> Reply, pin: Option<string>,
                            sigOk: Slice -> bool)
    requires k < |chain|
  {
    k <= head && fetch(k) == Got(chain[k]) && VerifySlice(chain[k], pin, Some(Tip(chain[..k])), sigOk).Ok?
  }

  /** A sync goes on from what is there, slice by slice as delivered and each verified on top of the one
      before; it stops only past the head, or where no slice comes that verifies. */
  ghost predicate Furthest(before: seq<Slice>, after: seq<Slice>, head: Option<int>, fetch: nat -> Reply,
                           pin: Option<string>, sigOk: Slice -> bool)
  {
    && before <= after
    && (forall k :: |before| <= k < |after| ==>
          head.Some? && Delivered(after, k, head.value, fetch, pin, sigOk))
    && (head.Some? && |after| <= head.value && fetch(|after|).Got? ==>
          VerifySlice(fetch(|after|).slice, pin, Some(Tip(after)), sigOk).Err?)
  }

  lemma FurthestStep(before: seq<Slice>, s: Slice, after: seq<Slice>, head: int, fetch: nat -> Reply,
                     pin: Option<string>, sigOk: Slice -> bool)
    requires |before| <= head && fetch(|before|) == Got(s) && VerifySlice(s, pin, Some(Tip(before)), sigOk).Ok?
    requires Furthest(before + [s], after, Some(head), fetch, pin, sigOk)
    ensures Furthest(before, after, Some(head), fetch, pin, sigOk)
  {
    hide VerifySlice, Tip;
    var n := |before|;
    assert after[n] == (before + [s])[n] == s;
    assert after[..n] == before by {
      assert forall k :: 0 <= k < n ==> after[k] == (before + [s])[k] == before[k];
    }
    assert Delivered(after, n, head, fetch, pin, sigOk);
    hide Delivered;
  }

  lemma {:induction false} FurthestSync(merged: seq<Slice>, head: Option<int>, fetch: nat -> Reply,
                                        pin: Option<string>, sigOk: Slice -> bool)
    ensures Furthest(merged, AfterSync(merged, head, fetch, pin, sigOk), head, fetch, pin, sigOk)
    decreases if head.Some? then head.value - |merged| else 0
  {
    hide VerifySlice, Tip;
    if head.Some? {
      PulledUnfolds(merged, head.value, fetch, pin, sigOk);
      var n := |merged|;
      if n <= head.value && fetch(n).Got? && VerifySlice(fetch(n).slice, pin, Some(Tip(merged)), sigOk).Ok? {
        var s := fetch(n).slice;
        hide AfterSync, Furthest;
        FurthestSync(merged + [s], head, fetch, pin, sigOk);
        FurthestStep(merged, s, AfterSync(merged + [s], head, fetch, pin, sigOk), head.value, fetch, pin, sigOk);
      }
    }
  }

  // ---------- Publisher, consumer and an untrusted network, over whole runs ----------

  /** `orphans` are slices whose file was written by a publish that crashed before it saved its state. */
  datatype World = World(published: seq<Slice>, orphans: seq<Slice>, merged: seq<Slice>)

  /** The publisher adds a slice, or crashes after writing one, or the consumer syncs against whatever the
      network answers. */
  datatype Step =
    | PublishStep(slice: Slice)
    | OrphanStep(slice: Slice)
    | SyncStep(head: Option<int>, fetch: nat -> Reply)

  /** Only these slices carry the publisher's signature. */
  ghost predicate Unforgeable(fetch: nat -> Reply, signed: seq<Slice>, id: Identity) {
    forall k: nat :: fetch(k).Got? && fetch(k).slice.author == id.author && id.sigOk(fetch(k).slice)
                     ==> fetch(k).slice in signed
  }

  ghost predicate Legal(w: World, step: Step, id: Identity) {
    match step
    case PublishStep(s) => VerifySlice(s, Some(id.author), Some(Tip(w.published)), id.sigOk).Ok?
    case OrphanStep(s) => VerifySlice(s, Some(id.author), Some(Tip(w.published)), id.sigOk).Ok?
    case SyncStep(_, fetch) => Unforgeable(fetch, w.published + w.orphans, id)
  }

  ghost function After(w: World, step: Step, id: Identity): World {
    match step
    case PublishStep(s) => w.(published := w.published + [s])
    case OrphanStep(s) => w.(orphans := w.orphans + [s])
    case SyncStep(head, fetch) => w.(merged := AfterSync(w.merged, head, fetch, Some(id.author), id.sigOk))
  }

  ghost predicate LegalRun(w: World, steps: seq<Step>, id: Identity)
    decreases |steps|
  {
    steps == [] || (Legal(w, steps[0], id) && LegalRun(After(w, steps[0], id), steps[1..], id))
  }

  ghost function AfterRun(w: World, steps: seq<Step>, id: Identity): World
    decreases |steps|
  {
    if steps == [] then w else AfterRun(After(w, steps[0], id), steps[1..], id)
  }

  ghost predicate InPrefix(w: World, id: Identity) {
    AcceptedChain(w.published, Some(id.author), id.sigOk) && w.merged <= w.published
  }

  /** A published slice that links to the merged prefix is the very next published slice. */
  lemma NextIsUnique(published: seq<Slice>, n: nat, s: Slice)
    requires Linked(published) && n <= |published| && s in published && s.prevHash == Tip(published[..n])
    ensures n < |published| && s == published[n]
  {
    var j :| 0 <= j < |published| && published[j] == s;
    LinkedPrefix(published, j);
    LinkedPrefix(published, n);
    TipPinsChain(published[..j], published[..n]);
    assert |published[..j]| == |published[..n]|;
  }

  lemma {:induction false} SyncKeepsPrefix(w: World, head: int, fetch: nat -> Reply, id: Identity)
    requires id.author != "" && InPrefix(w, id) && Unforgeable(fetch, w.published, id)
    ensures AfterSync(w.merged, Some(head), fetch, Some(id.author), id.sigOk) <= w.published
    decreases head - |w.merged|
  {
    hide Pulled, AcceptedChain, AfterSync, RootOf, Linked;
    var pin, n := Some(id.author), |w.merged|;
    PulledUnfolds(w.merged, head, fetch, pin, id.sigOk);
    if n <= head && fetch(n).Got? && VerifySlice(fetch(n).slice, pin, Some(Tip(w.merged)), id.sigOk).Ok? {
      var s := fetch(n).slice;
      AcceptedIsLinked(w.published, pin, id.sigOk);
      assert w.merged == w.published[..n];
      NextIsUnique(w.published, n, s);
      SyncKeepsPrefix(w.(merged := w.merged + [s]), head, fetch, id);
    }
  }

  // ---------- Publishes that crash ----------

  /** It was built on some published slice, or on none. */
  ghost predicate BuiltOn(published: seq<Slice>, s: Slice) {
    exists n :: 0 <= n <= |published| && s.prevHash == Tip(published[..n])
  }

  /** The consumer holds published slices, followed by an orphan. */
  ghost predicate EndsInOrphan(w: World) {
    var last := |w.merged| - 1;
    last >= 0 && w.merged[..last] <= w.published && w.merged[last] in w.orphans
  }

  ghost predicate OnTrack(w: World, id: Identity) {
    && AcceptedChain(w.published, Some(id.author), id.sigOk) && Linked(w.merged)
    && (forall o :: o in w.orphans ==> BuiltOn(w.published, o))
    && (w.merged <= w.published || EndsInOrphan(w))
  }

  lemma PublishedIsBuiltOn(published: seq<Slice>, s: Slice)
    requires Linked(published) && s in published
    ensures BuiltOn(published, s)
  {
    var k :| 0 <= k < |published| && published[k] == s;
    assert s.prevHash == Tip(published[..k]);
  }

  lemma BuiltOnMore(published: seq<Slice>, s: Slice, next: Slice)
    requires BuiltOn(published, s)
    ensures BuiltOn(published + [next], s)
  {
    var n :| 0 <= n <= |published| && s.prevHash == Tip(published[..n]);
    assert (published + [next])[..n] == published[..n];
  }

  /** Nothing built on a published slice continues anything but published slices. */
  lemma OnlyPublishedContinue(published: seq<Slice>, merged: seq<Slice>, s: Slice)
    requires Linked(published) && Linked(merged) && BuiltOn(published, s) && s.prevHash == Tip(merged)
    ensures merged <= published
  {
    var n :| 0 <= n <= |published| && s.prevHash == Tip(published[..n]);
    LinkedPrefix(published, n);
    TipPinsChain(merged, published[..n]);
  }

  lemma LinkedSnoc(chain: seq<Slice>, s: Slice)
    requires Linked(chain) && s.prevHash == Tip(chain)
    ensures Linked(chain + [s])
  {
    var longer := chain + [s];
    assert longer[..|chain|] == chain;
    forall k | 0 <= k < |longer| ensures longer[k].prevHash == Tip(longer[..k]) {
      assert longer[..k] == chain[..k];
    }
  }

  lemma NextFollows(w: World, s: Slice)
    requires Linked(w.published) && w.merged <= w.published && s in w.published && s.prevHash == Tip(w.merged)
    ensures |w.merged| < |w.published| && w.published[|w.merged|] == s
  {
    assert w.merged == w.published[..|w.merged|];
    hide Linked;
    NextIsUnique(w.published, |w.merged|, s);
  }

  lemma PrefixOrOrphan(w: World, s: Slice)
    requires w.merged <= w.published
    requires s in w.orphans || (|w.merged| < |w.published| && w.published[|w.merged|] == s)
    ensures var next := w.(merged := w.merged + [s]); next.merged <= w.published || EndsInOrphan(next)
  {
    assert (w.merged + [s])[..|w.merged|] == w.merged;
  }

  /** One more slice accepted: the next published one, or an orphan. */
  lemma AcceptKeepsTrack(w: World, s: Slice, id: Identity)
    requires OnTrack(w, id) && s in w.published + w.orphans && s.prevHash == Tip(w.merged)
    ensures w.merged <= w.published && OnTrack(w.(merged := w.merged + [s]), id)
  {
    AcceptedIsLinked(w.published, Some(id.author), id.sigOk);
    hide AcceptedChain, Linked, BuiltOn, Tip;
    if s in w.published {
      PublishedIsBuiltOn(w.published, s);
    }
    OnlyPublishedContinue(w.published, w.merged, s);
    LinkedSnoc(w.merged, s);
    if s in w.published {
      NextFollows(w, s);
    }
    hide EndsInOrphan;
    PrefixOrOrphan(w, s);
  }

  lemma {:induction false} SyncKeepsTrack(w: World, head: int, fetch: nat -> Reply, id: Identity)
    requires id.author != "" && OnTrack(w, id) && Unforgeable(fetch, w.published + w.orphans, id)
    ensures OnTrack(w.(merged := AfterSync(w.merged, Some(head), fetch, Some(id.author), id.sigOk)), id)
    decreases head - |w.merged|
  {
    hide Pulled, AfterSync, RootOf, OnTrack;
    var pin, n := Some(id.author), |w.merged|;
    PulledUnfolds(w.merged, head, fetch, pin, id.sigOk);
    if n <= head && fetch(n).Got? && VerifySlice(fetch(n).slice, pin, Some(Tip(w.merged)), id.sigOk).Ok? {
      AcceptKeepsTrack(w, fetch(n).slice, id);
      SyncKeepsTrack(w.(merged := w.merged + [fetch(n).slice]), head, fetch, id);
    }
  }

  lemma EndKept(w: World, s: Slice)
    requires w.merged <= w.published || EndsInOrphan(w)
    ensures var next := w.(published := w.published + [s]); next.merged <= next.published || EndsInOrphan(next)
  {
  }

  lemma PublishKeepsTrack(w: World, s: Slice, id: Identity)
    requires OnTrack(w, id) && VerifySlice(s, Some(id.author), Some(Tip(w.published)), id.sigOk).Ok?
    ensures OnTrack(w.(published := w.published + [s]), id)
  {
    AcceptedSnoc(w.published, s, Some(id.author), id.sigOk);
    EndKept(w, s);
    hide AcceptedChain, VerifySlice, BuiltOn, Linked, Tip, EndsInOrphan;
    forall o | o in w.orphans ensures BuiltOn(w.published + [s], o) {
      BuiltOnMore(w.published, o, s);
    }
  }

  lemma OrphanKeepsTrack(w: World, s: Slice, id: Identity)
    requires OnTrack(w, id) && VerifySlice(s, Some(id.author), Some(Tip(w.published)), id.sigOk).Ok?
    ensures OnTrack(w.(orphans := w.orphans + [s]), id)
  {
    TipIsBuiltOn(w.published, s);
    hide AcceptedChain, Linked, RootOf, BuiltOn, Tip;
  }

  lemma TipIsBuiltOn(published: seq<Slice>, s: Slice)
    ensures s.prevHash == Tip(published) ==> BuiltOn(published, s)
  {
    assert published[..|published|] == published;
  }

  lemma StepKeepsTrack(w: World, step: Step, id: Identity)
    requires id.author != "" && OnTrack(w, id) && Legal(w, step, id)
    ensures OnTrack(After(w, step, id), id)
  {
    hide OnTrack, AfterSync, VerifySlice;
    match step
    case PublishStep(s) => PublishKeepsTrack(w, s, id);
    case OrphanStep(s) => OrphanKeepsTrack(w, s, id);
    case SyncStep(head, fetch) =>
      NoHeadNoChange(w.merged, fetch, id);
      if head.Some? {
        SyncKeepsTrack(w, head.value, fetch, id);
      }
  }

  /** Over any run with crashed publishes and a hostile network, the consumer holds a prefix of what was
      published, or such a prefix and one orphan. */
  lemma {:induction false} ConsumerOnTrack(w: World, steps: seq<Step>, id: Identity)
    requires id.author != "" && OnTrack(w, id) && LegalRun(w, steps, id)
    ensures OnTrack(AfterRun(w, steps, id), id)
    decreases |steps|
  {
    if steps != [] {
      hide OnTrack, Legal, After;
      StepKeepsTrack(w, steps[0], id);
      ConsumerOnTrack(After(w, steps[0], id), steps[1..], id);
    }
  }

  lemma LastPublished(w: World)
    requires Linked(w.published) && Linked(w.merged) && w.merged != [] && EndsInOrphan(w)
               && w.merged[|w.merged| - 1] in w.published
    ensures w.merged <= w.published
  {
    var last := |w.merged| - 1;
    assert w.merged[last].prevHash == Tip(w.merged[..last]);
    var s := w.merged[last];
    hide Linked, Tip, EndsInOrphan;
    NextFollows(w.(merged := w.merged[..last]), s);
    PrefixByLast(w.merged, w.published);
  }

  lemma PrefixByLast(a: seq<Slice>, b: seq<Slice>)
    requires 0 < |a| <= |b| && a[..|a| - 1] <= b && a[|a| - 1] == b[|a| - 1]
    ensures a <= b
  {
    assert forall i :: 0 <= i < |a| - 1 ==> a[i] == a[..|a| - 1][i];
  }

  /** It is a prefix exactly when its last slice was published, then or later. */
  lemma PrefixIffPublished(w: World, id: Identity)
    requires OnTrack(w, id)
    ensures w.merged <= w.published <==> w.merged == [] || w.merged[|w.merged| - 1] in w.published
  {
    AcceptedIsLinked(w.published, Some(id.author), id.sigOk);
    hide AcceptedChain, Linked, BuiltOn, EndsInOrphan;
    if w.merged != [] && EndsInOrphan(w) && w.merged[|w.merged| - 1] in w.published {
      LastPublished(w);
    }
    if w.merged != [] && w.merged <= w.published {
      assert w.published[|w.merged| - 1] == w.merged[|w.merged| - 1];
    }
  }

  /** The consumer holds an orphan whose number another slice has taken. */
  ghost predicate Derailed(w: World) {
    w.merged != [] && w.merged[|w.merged| - 1] !in w.published && |w.merged| <= |w.published|
  }

  lemma DerailedSync(w: World, head: int, fetch: nat -> Reply, id: Identity)
    requires id.author != "" && OnTrack(w, id) && Derailed(w) && Unforgeable(fetch, w.published + w.orphans, id)
    ensures AfterSync(w.merged, Some(head), fetch, Some(id.author), id.sigOk) == w.merged
  {
    hide Pulled, AfterSync, RootOf, OnTrack;
    var pin, n := Some(id.author), |w.merged|;
    PulledUnfolds(w.merged, head, fetch, pin, id.sigOk);
    if n <= head && fetch(n).Got? && VerifySlice(fetch(n).slice, pin, Some(Tip(w.merged)), id.sigOk).Ok? {
      AcceptKeepsTrack(w, fetch(n).slice, id);
      assert false;
    }
  }

  /** An orphan is never published once its number is taken. */
  lemma OrphanStaysOrphan(w: World, s: Slice, id: Identity)
    requires OnTrack(w, id) && Derailed(w) && s.prevHash == Tip(w.published)
    ensures s != w.merged[|w.merged| - 1]
  {
    AcceptedIsLinked(w.published, Some(id.author), id.sigOk);
    var last := |w.merged| - 1;
    if s == w.merged[last] {
      assert w.merged[..last] == w.published[..last];
      LinkedPrefix(w.published, last);
      TipPinsChain(w.published, w.published[..last]);
      assert false;
    }
  }

  lemma DerailedStep(w: World, step: Step, id: Identity)
    requires id.author != "" && OnTrack(w, id) && Derailed(w) && Legal(w, step, id)
    ensures var next := After(w, step, id); next.merged == w.merged && Derailed(next)
  {
    hide OnTrack, AfterSync, RootOf;
    match step
    case PublishStep(s) => OrphanStaysOrphan(w, s, id);
    case OrphanStep(_) =>
    case SyncStep(head, fetch) =>
      NoHeadNoChange(w.merged, fetch, id);
      if head.Some? {
        DerailedSync(w, head.value, fetch, id);
      }
  }

  /** From then on it never merges anything again, whatever is published and delivered. */
  lemma {:induction false} DerailedForever(w: World, steps: seq<Step>, id: Identity)
    requires id.author != "" && OnTrack(w, id) && Derailed(w) && LegalRun(w, steps, id)
    ensures AfterRun(w, steps, id).merged == w.merged && Derailed(AfterRun(w, steps, id))
    decreases |steps|
  {
    if steps != [] {
      hide OnTrack, Derailed, Legal, After;
      StepKeepsTrack(w, steps[0], id);
      DerailedStep(w, steps[0], id);
      DerailedForever(After(w, steps[0], id), steps[1..], id);
    }
  }

  /** No publish crashes in the run. */
  ghost predicate NoCrash(steps: seq<Step>) {
    forall step :: step in steps ==> !step.OrphanStep?
  }

  lemma {:induction false} NoCrashNoOrphans(w: World, steps: seq<Step>, id: Identity)
    requires NoCrash(steps)
    ensures AfterRun(w, steps, id).orphans == w.orphans
    decreases |steps|
  {
    if steps != [] {
      NoCrashNoOrphans(After(w, steps[0], id), steps[1..], id);
    }
  }

  /** Whatever the network replays, reorders, drops or invents: as long as no publish crashes, after any
      run the consumer has merged exactly a prefix of what was published, once each and in order. */
  lemma ConsumerHoldsPrefix(w: World, steps: seq<Step>, id: Identity)
    requires id.author != "" && InPrefix(w, id) && w.orphans == [] && NoCrash(steps) && LegalRun(w, steps, id)
    ensures InPrefix(AfterRun(w, steps, id), id)
  {
    AcceptedIsLinked(w.published, Some(id.author), id.sigOk);
    LinkedPrefix(w.published, |w.merged|);
    assert w.merged == w.published[..|w.merged|];
    hide AcceptedChain, LegalRun, AfterRun, NoCrash, Linked;
    ConsumerOnTrack(w, steps, id);
    NoCrashNoOrphans(w, steps, id);
  }

  lemma NoHeadNoChange(merged: seq<Slice>, fetch: nat -> Reply, id: Identity)
    ensures AfterSync(merged, None, fetch, Some(id.author), id.sigOk) == merged
  {
  }

  /** When every slice up to the head is delivered as published, the consumer catches up. */
  lemma {:induction false} DeliveredSyncCatchesUp(w: World, head: nat, fetch: nat -> Reply, id: Identity)
    requires InPrefix(w, id) && |w.merged| <= head + 1 <= |w.published|
    requires forall k: nat :: |w.merged| <= k <= head ==> fetch(k) == Got(w.published[k])
    ensures AfterSync(w.merged, Some(head), fetch, Some(id.author), id.sigOk) == w.published[..head + 1]
    decreases head + 1 - |w.merged|
  {
    var pin, n := Some(id.author), |w.merged|;
    PulledUnfolds(w.merged, head, fetch, pin, id.sigOk);
    hide Pulled, AfterSync, VerifySlice;
    if n <= head {
      assert w.merged == w.published[..n];
      assert VerifySlice(w.published[n], pin, Some(Tip(w.published[..n])), id.sigOk).Ok?;
      DeliveredSyncCatchesUp(w.(merged := w.merged + [w.published[n]]), head, fetch, id);
    }
  }

  // ---------- Which rows get published ----------

  /** A node's table of results, everything it ever published, and its cursor. */
  datatype Shelf = Shelf(table: seq<ResultRow>, packed: seq<ResultRow>, cursor: nat)

  /** Results of a query are recorded, a friend's slice being merged the same way; or the node publishes. */
  datatype ShelfStep = Record(query: string, results: seq<Found>, now: nat) | PublishNow

  ghost function Advance(s: Shelf, step: ShelfStep, canon: Canon): Shelf {
    match step
    case Record(query, results, now) => s.(table := Recorded(s.table, query, results, now, canon))
    case PublishNow => Shelf(s.table, s.packed + NewRows(s.table, s.cursor), CursorAfter(s.table, s.cursor))
  }

  ghost function AdvanceAll(s: Shelf, steps: seq<ShelfStep>, canon: Canon): Shelf
    decreases |steps|
  {
    if steps == [] then s else AdvanceAll(Advance(s, steps[0], canon), steps[1..], canon)
  }

  predicate Publishable(r: ResultRow) {
    r.url != "" && r.seenAt > 0
  }

  /** No row at or before the cursor is in the table more often than it was published. */
  ghost predicate Covered(s: Shelf) {
    forall r :: Publishable(r) && r.seenAt <= s.cursor ==> multiset(s.packed)[r] >= multiset(s.table)[r]
  }

  /** Recorded later than anything published so far. */
  ghost predicate OnTime(s: Shelf, step: ShelfStep) {
    step.Record? ==> step.now > s.cursor
  }

  ghost predicate AllOnTime(s: Shelf, steps: seq<ShelfStep>, canon: Canon)
    decreases |steps|
  {
    steps == [] || (OnTime(s, steps[0]) && AllOnTime(Advance(s, steps[0], canon), steps[1..], canon))
  }

  lemma CursorNeverFalls(table: seq<ResultRow>, cursor: nat)
    ensures CursorAfter(table, cursor) >= cursor
  {
    NewRowsMember(table, cursor);
    hide NewRows;
  }

  /** After a publish every row of the table that can be published has been, at least as often as it is
      there: whatever was re-run, replaced or deleted before. */
  lemma PublishPacksTable(s: Shelf, canon: Canon)
    requires Covered(s)
    ensures var after := Advance(s, PublishNow, canon);
            && Covered(after)
            && forall r :: Publishable(r) ==> multiset(after.packed)[r] >= multiset(after.table)[r]
  {
    NewRowsCorrect(s.table, s.cursor);
    var rows := NewRows(s.table, s.cursor);
    assert multiset(s.packed + rows) == multiset(s.packed) + multiset(rows);
    hide NewRows, CursorAfter;
  }

  lemma {:induction false} FilterCount(table: seq<ResultRow>, p: ResultRow -> bool, r: ResultRow)
    ensures multiset(Filter(table, p))[r] == if p(r) then multiset(table)[r] else 0
    decreases |table|
  {
    if table != [] {
      FilterCount(table[1..], p, r);
      assert table == [table[0]] + table[1..];
    }
  }

  /** How often a row is in the table after a recording. */
  lemma RecordedCount(table: seq<ResultRow>, query: string, results: seq<Found>, now: nat, canon: Canon, r: ResultRow)
    ensures var rows := RecordedRows(query, results, now, canon);
            var after := multiset(Recorded(table, query, results, now, canon))[r];
            if query == "" || rows == [] then after == multiset(table)[r]
            else if r.query == query then after == multiset(rows)[r]
            else after == multiset(table)[r]
  {
    var rows := RecordedRows(query, results, now, canon);
    RecordedStamp(query, results, now, canon);
    FilterCount(table, NotQuery(query), r);
    hide RecordedRows, Filter;
    var kept := Filter(table, NotQuery(query));
    assert multiset(kept + rows) == multiset(kept) + multiset(rows);
    if r.query != query {
      assert r !in rows;
    }
  }

  /** Recording keeps the books straight exactly when it is on time, or adds nothing that was not
      published before: rows stamped in the very second of the last publish are lost unless the same
      rows are already out. */
  lemma RecordKeepsCoveredIff(s: Shelf, query: string, results: seq<Found>, now: nat, canon: Canon)
    requires Covered(s) && query != ""
    ensures var rows := RecordedRows(query, results, now, canon);
            Covered(Advance(s, Record(query, results, now), canon)) <==>
              now > s.cursor || now == 0 || forall r :: r in rows ==> multiset(s.packed)[r] >= multiset(rows)[r]
  {
    var rows := RecordedRows(query, results, now, canon);
    var after := Advance(s, Record(query, results, now), canon);
    RecordedStamp(query, results, now, canon);
    forall r
      ensures multiset(after.table)[r]
           == if rows == [] || r.query != query then multiset(s.table)[r] else multiset(rows)[r]
    {
      RecordedCount(s.table, query, results, now, canon, r);
    }
    hide RecordedRows, Recorded;
    assert forall r :: r !in rows ==> multiset(rows)[r] == 0;
    if Covered(after) && 0 < now <= s.cursor {
      forall r | r in rows ensures multiset(s.packed)[r] >= multiset(rows)[r] {
        assert Publishable(r);
      }
    }
  }

  lemma {:induction false} RunKeepsCovered(s: Shelf, steps: seq<ShelfStep>, canon: Canon)
    requires Covered(s) && AllOnTime(s, steps, canon)
    ensures Covered(AdvanceAll(s, steps, canon))
    decreases |steps|
  {
    if steps != [] {
      match steps[0] {
        case Record(query, results, now) =>
          if query != "" {
            RecordKeepsCoveredIff(s, query, results, now, canon);
          }
        case PublishNow =>
          PublishPacksTable(s, canon);
      }
      hide Covered, Advance;
      RunKeepsCovered(Advance(s, steps[0], canon), steps[1..], canon);
    }
  }

  /** Over any run of recordings, re-run queries, merged slices and publishes in which no recording
      shares a second with an earlier publish: after one more publish, every row of the table that can
      be published is in some slice, as often as in the table. */
  lemma NothingUnpublished(steps: seq<ShelfStep>, canon: Canon)
    requires AllOnTime(Shelf([], [], 0), steps, canon)
    ensures var s := Advance(AdvanceAll(Shelf([], [], 0), steps, canon), PublishNow, canon);
            forall r :: Publishable(r) ==> multiset(s.packed)[r] >= multiset(s.table)[r]
  {
    var start := Shelf([], [], 0);
    assert Covered(start);
    hide Covered, AdvanceAll, AllOnTime, Advance;
    RunKeepsCovered(start, steps, canon);
    PublishPacksTable(AdvanceAll(start, steps, canon), canon);
  }

  lemma {:induction false} LateNeverPacked(s: Shelf, steps: seq<ShelfStep>, canon: Canon, r: ResultRow)
    requires r.seenAt <= s.cursor
    ensures multiset(AdvanceAll(s, steps, canon).packed)[r] == multiset(s.packed)[r]
    decreases |steps|
  {
    if steps != [] {
      if steps[0].PublishNow? {
        NewRowsMember(s.table, s.cursor);
        CursorNeverFalls(s.table, s.cursor);
        var rows := NewRows(s.table, s.cursor);
        assert multiset(s.packed + rows) == multiset(s.packed) + multiset(rows);
        assert r !in rows;
      }
      hide NewRows, CursorAfter, Recorded;
      LateNeverPacked(Advance(s, steps[0], canon), steps[1..], canon, r);
    }
  }

  lemma PublishPacksRow(s: Shelf, canon: Canon, r: ResultRow)
    requires r in s.table && r.url != "" && r.seenAt > s.cursor
    ensures multiset(AdvanceAll(s, [PublishNow], canon).packed)[r] > multiset(s.packed)[r]
  {
    NewRowsMember(s.table, s.cursor);
    var rows := NewRows(s.table, s.cursor);
    hide NewRows, CursorAfter;
    assert multiset(s.packed + rows) == multiset(s.packed) + multiset(rows);
    assert multiset(rows)[r] > 0;
    var after := Advance(s, PublishNow, canon);
    assert [PublishNow][1..] == [];
    assert AdvanceAll(s, [PublishNow], canon) == AdvanceAll(after, [], canon) == after;
  }

  /** A row of the table with a URL will be published, in some continuation, exactly when its stamp lies
      past the cursor; one recorded in the second of the last publish never is, whatever happens. */
  lemma LateRowIsLost(s: Shelf, canon: Canon, r: ResultRow)
    requires r in s.table && r.url != ""
    ensures (exists steps :: multiset(AdvanceAll(s, steps, canon).packed)[r] > multiset(s.packed)[r])
       <==> r.seenAt > s.cursor
  {
    if r.seenAt > s.cursor {
      PublishPacksRow(s, canon, r);
    } else {
      hide AdvanceAll;
      forall steps: seq<ShelfStep> ensures multiset(AdvanceAll(s, steps, canon).packed)[r] == multiset(s.packed)[r] {
        LateNeverPacked(s, steps, canon, r);
      }
    }
  }

  /** Merged rows are rows like any other: a node publishes its friends' pages, signed as its own, in
      its next slice, if it merged them after its last one. */
  lemma FriendsRowsRepublished(s: Shelf, slice: Slice, friend: string, now: nat, canon: Canon)
    requires friend != "" && now > s.cursor
    ensures var merged := s.(table := MergedTable(s.table, slice, friend, now, canon));
            && merged == Advance(s, Record(friend, FoundIn(slice.entries, canon), now), canon)
            && forall r :: r in RowsOf(slice.entries, friend, now, canon) ==>
                 r in NewRows(merged.table, s.cursor) && EntryOf(r) in EntriesOf(NewRows(merged.table, s.cursor))
  {
    var merged := s.(table := MergedTable(s.table, slice, friend, now, canon));
    var rows := RowsOf(slice.entries, friend, now, canon);
    RecordedStamp(friend, FoundIn(slice.entries, canon), now, canon);
    NewRowsMember(merged.table, s.cursor);
    hide NewRows, RecordedRows, FoundIn, Filter;
    forall r | r in rows
      ensures r in NewRows(merged.table, s.cursor) && EntryOf(r) in EntriesOf(NewRows(merged.table, s.cursor))
    {
      assert r in merged.table;
      var added := NewRows(merged.table, s.cursor);
      var k :| 0 <= k < |added| && added[k] == r;
      assert EntriesOf(added)[k] == EntryOf(r);
    }
  }
}
