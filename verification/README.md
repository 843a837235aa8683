# A verified model of swf-node's replication core

swf-node keeps a personal search index and replicates it between nodes that trust each other. This
project models the parts that make replication trustworthy and proves what they promise:

* **Merkle trees** (`Merkle.dfy`): the recursive tree hash and audit paths of sections 2.1 and 2.1.1 of
  RFC 6962, the iterative verifier of section 2.1.3.2 of RFC 9162 as a loop, and the level-by-level root
  of the page bundles. The verifier accepts exactly the true leaf with exactly its own path; both root
  algorithms agree on every non-empty list; a root pins its list, length included.
* **Slice chain** (`SliceChain.dfy`): the publisher, crashes in the middle of a publish included, and the
  resumable consumer of signed slices, against a network that may replay, reorder, drop or invent
  replies; the results table both of them share, and what gets published of it over runs of recordings,
  deletions and publishes.
* **Index pull** (`PageIndex.dfy`, `LocalIndex.dfy`, `IndexPull.dfy`): the window a bundle covers, the
  bundle verifier, ingest into the tables, and the protocol as a state machine whose probe, fetch, ingest
  and cursor write are separate steps, interleaved with whatever the producer and the consumer do, with
  writes that fail and with a network that replays old bundles; with it, for each thing a producer can
  do and for each reply that can arrive, the exact guard under which readers miss nothing, and that a
  quiet producer is read to the end.
* **Signed bundles** (`Bundles.dfy`, `BundlePull.dfy`, `Gossip.dfy`, `Propagation.dfy`): the verifier and
  the append-only store, the transcript sink that chains its batches, the high-water pull with crashes
  between its steps and inserts that fail, the push flood over an arbitrary network in which nodes also
  pull, and the posts that make it up.
* **Event bus** (`EventBus.dfy`): concurrent emits (commit or failed commit, snapshot, put) against one
  subscriber (register, replay, live) with a bounded queue, hanging up and resuming, and the vacuum.
* **Codecs and the limiter**: base 32 and content ids (`Base32.dfy`), percent-encoding and the URL path
  and query normal forms (`Percent.dfy`, `PathForm.dfy`, `QueryForm.dfy`), the peers file and what its two
  hand-written parsers read in any text (`PeersFile.dfy`), the sliding-window limiter (`RateLimit.dfy`).

`Wrappers.dfy`, `Seqs.dfy` and `Strings.dfy` hold shared result types, `Filter`, and Python's `strip`,
`rstrip` and `splitlines`.

Code that changes state is modelled by classes and methods with loops (`Publisher`, `SearchCache`,
`Consumer`, `Index`, `PeerPuller`, `Store`, `Sink`, `Puller`, `Queue`, `Board`, `Limiter`), each tied to
a specification function; protocols with interleaving are state machines over those functions.

## What the model assumes

* Hashes are injective and domain-separated: a digest is a free datatype, a content id and a slice hash
  are free constructors over what is hashed. Canonical JSON is therefore an injective function of its
  fields, and a search query stands for its normalised, hashed form. Signatures, envelope shape, junk
  titles and URL canonicalisation inside indexing are arbitrary predicates or functions.
* The two SELECTs of `build_bundle` see one snapshot of the database; the code opens no transaction.
* Epochs are non-empty and fresh. Rowids of pages grow with insertion, except that re-indexing the
  newest page reuses its number, as a plain SQLite rowid does, and that rebuilding the page table hands
  out numbers from 1 again; a URL has at most one file on disk. The bundles table never deletes, so row
  `i` has rowid `i + 1`. Event ids come from AUTOINCREMENT. URLs in `pages` are distinct.
* Verifying and inserting one bundle is one atomic step, and the roster of authors is fixed and shared.
* A write to the page index or the bundle store goes through or fails as a whole; which ones fail is
  arbitrary. The two look-ups of the ingest loop succeed.
* In the flood no post is lost; in `RateLimit` the clock does not go back, except where the need for
  that is shown.

## Where the code does not do what its documentation says

Each of these comes with the input and the exact condition.

* A cursor pull can miss pages. For every act of a producer under one epoch, `IndexPull.HarmlessIsFair`
  gives the guard that decides whether some reader may miss a page by it. The guard reads the tables
  before the act and the largest rowid handed out so far in the epoch; no table holds that number, and
  after a rebuild that shrank the page table it cannot be recovered from them. It rests on
  `IngestFairIff`, `FetchFairIff`, `ShareFairIff`, `BackfillFairIff` and `ReindexFairIff`.
  `IndexPull.FairIsNeeded` shows a reader that misses a page for every change outside the guard,
  `IndexPull.NothingMissed` that within the guards no run misses one. Reachable failures: a page indexed
  again under a wider `SWF_DEFAULT_SHARE_SCOPE` (`ReindexedUnderNewScopeMisses`), the backfill of
  `docs/TROUBLESHOOTING.md` (`BackfillMisses`), and `reindex_knowledge`, which renumbers every page but
  keeps the epoch (`ReindexKeepingEpochMisses`). What is missed so stays missed (`UnfairChangeIsMissed`).
  A consumer's own `reindex_knowledge` drops the pages it got from peers, whose cursors stay; it is safe
  exactly when every live page it holds is on disk (`OwnRebuildMisses`).
* `verify_bundle` never compares a bundle's `since` with the cursor asked from, and nothing ties its
  `until` to the rowids in use. `IndexPull.ReplyLosesIff` is the exact condition on a reply, honest or
  replayed, on a first pull or a later one: nothing is missed exactly when it ends at a number that has
  been handed out and brings whatever is owed between the cursor asked from and that end, unless the
  consumer holds it. It fails for a bundle that starts past the cursor (`ReplayAheadMisses`), for one from
  before a rebuild (`StaleReplayMisses`), and for an empty one that anybody can have signed by asking for
  rows past the last (`ReplayPastTopMisses`). A bundle that starts at or before the cursor and was signed
  since the last rebuild always meets it (`EarlyReplayKeeps`).
* Ingest passes over a page whose writes fail, and the cursor is written all the same. Of an honest
  bundle nothing is missed exactly when only junk and held pages failed (`IndexPull.FailedWriteLosesIff`);
  a lost page is never asked for again (`IndexPull.LostWriteMisses`). The bundle puller does the same with
  an envelope on which the verifier or the insert raises (`BundlePull.SkipLosesIff`,
  `BundlePull.LostInsertMisses`).
* The mark of the bundle puller has no epoch. A peer whose store is rebuilt starts its rowids again, and
  nothing is lost by it exactly when the new store is as long as the mark and holds nothing needed up to it
  (`BundlePull.RebuiltPeerLosesIff`).
* `build_bundle` never checks the span of its window, so an honest bundle over a long private stretch is
  always rejected (`PageIndex.LongPrivateStretchIsRejected`).
* A peer's page can be served as one's own after a rebuild: exactly when a rebuild leaves a live sharing
  label of the user's without its page (`LocalIndex.ReindexReservesIff`, `LocalIndex.LostFileReshares`).
* Rows recorded in the very second of the last publish, or with an earlier stamp, are never published
  (`SliceChain.LateRowIsLost`, `SliceChain.RecordKeepsCoveredIff`); merging a later slice of a friend
  removes the rows of the earlier ones from search (`SliceChain.EarlierSlicesForgotten`); and merged rows
  are published again in the node's own next slice, signed as its own (`SliceChain.FriendsRowsRepublished`).
* A publish that crashes after writing its slice and before saving its state leaves a signed slice whose
  number is given out again. A consumer that merged it never merges anything afterwards
  (`SliceChain.DerailedForever`); it holds a prefix of what was published exactly when its last slice was
  published (`SliceChain.PrefixIffPublished`).
* `verify_slice` does not compare a slice's own number with the one asked for; order rests on the hash
  link alone, which suffices (`SliceChain.NextIsUnique`).
* Racing sink calls can fork the transcript chain. `Bundles.RacingSinkForksIff` says exactly when, the
  second look of the verifier included; a redacted batch never forks it (`Bundles.RacingRedactedNeverForks`),
  two numbered batches can (`Bundles.RacingNumberedForks`).
* The author-skip that `src/swf/bundles/propagation.py:33-40` describes never fires: authors are written
  `ed25519:<hex>` and node keys in base64url (`Gossip.SkipNeverFires`). So the limitation of lines 41-48
  does not arise, and floods without pulls converge wherever bundles enter (`Gossip.PushAlwaysConverges`).
  Were the formats to be unified, the other path that note hopes for would not exist among the posts, as
  every node would leave such peers out (`Gossip.AuthorsNodeOnlyFromOutside`).
* `src/swf/bundles/puller.py:33-36` says pull and push converge cleanly. A pulled bundle is not posted on,
  so a pull that beats the post ends the flood at that node (`Gossip.PullBeatsPost`); the nodes agree
  exactly when the peers of every node that pulled a bundle have it too (`Gossip.FloodAlwaysConverges`).
* `src/swf/event_bus.py:21-23` says slow subscribers catch up by resuming from the last id.
  `EventBus.ResumeCatchesUpIff` says when they do. It fails without any race once a full queue has turned
  an event away and a later one got through (`EventBus.FullQueueSkips`), with a race even when no queue
  was ever full (`EventBus.OvertakenEventIsSkipped`), after a vacuum, and with neither race nor full queue
  when a commit failed: its event is fanned out all the same, and the next one committed gets its id
  (`EventBus.LostIdIsReused`).
* `canonical_url` is documented as idempotent; its query half is not (`QueryForm.NotAlwaysIdempotent`).

## Model

| member | source | states |
|---|---|---|
| `Merkle.LargestPow2Lt` | src/swf/slice.py:111-116 | the doubling loop stops at the one power of two below n that is at least half of n |
| `Merkle.PathIffMember` | src/swf/slice.py:119-161 | against the root of a list, a leaf and a path lead to that root exactly when the leaf is the one at the index and the path is its audit path |
| `Merkle.VerifyInclusion` | src/swf/slice.py:164-202 | the bit-walking loop, on any arguments, accepts exactly when the index is in range and folding the path by the recursive split gives the root |
| `Merkle.CheckInclusion` | src/swf/slice.py:155-202 | soundness and completeness of the iterative verifier against the true root, malformed indexes included |
| `Merkle.ProofLeadsToRoot` | src/swf/slice.py:141-161 | a proof is made for every leaf there is, and it leads to the root; otherwise the error tells an empty tree from a bad index |
| `Merkle.PathLength` | src/swf/slice.py:141-161 | an audit path has at most ceil(log2 n) hashes |
| `Merkle.LongestPath` | src/swf/slice.py:141-161 | the bound is met: the first leaf's path has exactly ceil(log2 n) hashes |
| `Merkle.PairUpKeepsMth` | src/swf/peer_scraper.py:253-261 | one round of pairing with odd promotion leaves the recursive tree hash unchanged |
| `Merkle.LevelRoot` | src/swf/peer_scraper.py:245-262 | the level-by-level root equals the recursive one on every non-empty list; on none it is the empty string, unlike the recursive one |
| `Merkle.RootBindsList` | src/swf/slice.py:96-130 | equal roots mean equal lists, lengths included |
| `SliceChain.RootPinsEntries` | src/swf/slice.py:269-312 | two slices that verify have one root exactly when they carry as many entries and agree, entry by entry, in URL, content hash, extractor, time and final URL, an absent field being as good as an empty one |
| `SliceChain.AlteredEntries` | src/swf/slice.py:269-312 | what becomes of a good slice whose entries are altered: the root gives it away exactly when one of those five fields was touched, and only the signature can when titles and snippets alone were |
| `SliceChain.AlteredHead` | src/swf/slice.py:269-312 | what becomes of it when its author, its link or its signature is altered, with and without a pinned author |
| `SliceChain.TipPinsChain` | src/swf/slice.py:231-238 | two chains linked from the empty hash with the same last hash are the same chain |
| `SliceChain.BuiltSliceAccepted` | src/swf/slice.py:241-312 | what `build_slice` makes on top of a chain is accepted as its next link |
| `SliceChain.NewRowsCorrect` | src/swf/slice_publish.py:87-139 | the rows read are those past the cursor with a URL, each as often as the table has it, ordered by stamp |
| `SliceChain.Publisher.Publish` | src/swf/slice_publish.py:142-195 | either nothing is new and nothing changes, or one valid slice extends the chain with exactly the new rows, each packed field by field |
| `SliceChain.RootCommitsToRows` | src/swf/slice_publish.py:120-137 | two lists of rows pack into one root exactly when they have the same URLs, titles, snippets and times in order |
| `SliceChain.PublishPacksTable` | src/swf/slice_publish.py:142-195 | if no row up to the cursor is in the table more often than in the slices, a publish puts every stamped row with a URL into them at least as often as the table has it, and keeps it so |
| `SliceChain.RecordKeepsCoveredIff` | src/swf/web/index.py:255-314 | a recording, with its delete of the query's older rows, keeps that so exactly when its stamp is past the cursor or what it writes was published already |
| `SliceChain.NothingUnpublished` | src/swf/slice_publish.py:142-195 | over any run of recordings, re-run queries, merged slices and publishes, each recorded under a stamp past the cursor of its moment: after one more publish nothing in the table is unpublished |
| `SliceChain.LateRowIsLost` | src/swf/slice_publish.py:98-104 | a row of the table is published in some continuation exactly when its stamp is strictly past the cursor, whatever is recorded, deleted or published meanwhile |
| `SliceChain.FriendsRowsRepublished` | src/swf/slice_publish.py:87-139 | rows merged from a friend after the last publish are among the entries of the next slice |
| `SliceChain.Consumer.TryMerge` | src/swf/slice_consume.py:168-195 | one reply is merged, its rows recorded under the friend's query and the state saved exactly when it verifies against the pin and the last hash |
| `SliceChain.Consumer.SyncFromPeer` | src/swf/slice_consume.py:131-203 | for every head and every sequence of replies: slices are merged as delivered, each verified on top of the one before, and the sync stops only past the head or where no slice comes that verifies; what it counts and reports |
| `SliceChain.RecordedCount` | src/swf/web/index.py:255-314 | how often each row is in the table after a recording: as the usable results say for the rows of the query, if there are any, and as before for every other |
| `SliceChain.PublishedRowsArrive` | src/swf/slice_consume.py:84-118 | packing rows into entries and merging the entries gives a friend exactly the rows published, in order, under canonical URLs, titles stripped, snippets stripped and cut at 800 characters |
| `SliceChain.CleanRowArrives` | src/swf/web/index.py:274-287 | a row with a canonical URL and clean texts arrives unchanged |
| `SliceChain.CutSnippetIs` | src/swf/web/index.py:280-286 | a recorded snippet is the trimmed text with line feeds turned into spaces, cut at 800 characters |
| `SliceChain.NextIsUnique` | src/swf/slice.py:269-312 | a slice the author published that links to the merged prefix is the very next published one |
| `SliceChain.SyncKeepsPrefix` | src/swf/slice_consume.py:162-203 | one sync, stopped anywhere, leaves the consumer with a prefix of what was published |
| `SliceChain.ConsumerHoldsPrefix` | src/swf/slice_consume.py:131-203 | over any run of publishes that do not crash and syncs against a hostile network the merged slices are a prefix of the published ones, once each in order |
| `SliceChain.ConsumerOnTrack` | src/swf/slice_publish.py:176-192 | with publishes that crash between writing a slice and saving the state: over any run the merged slices are such a prefix, or one and a single orphan |
| `SliceChain.PrefixIffPublished` | src/swf/slice_consume.py:162-203 | in every such state the merged slices are a prefix exactly when the last of them is a published one |
| `SliceChain.DerailedForever` | src/swf/slice_publish.py:176-192 | a consumer holding an orphan whose number another slice has taken never merges anything again, over any run |
| `SliceChain.DeliveredSyncCatchesUp` | src/swf/slice_consume.py:162-203 | when every slice up to the head is delivered as published, the consumer holds them all |
| `SliceChain.EarlierSlicesForgotten` | src/swf/slice_consume.py:84-118 | after merging, a friend's rows are those of the last slice that contributed any, not the union; everybody else's rows stay |
| `PageIndex.ShippedIsWindow` | src/swf/peer_scraper.py:337-408 | although the private-row window and the shareable-row limit are computed apart, the rows shipped are exactly the shareable rows with a URL and rowid in (since, until] |
| `PageIndex.UntilSeparates` | src/swf/peer_scraper.py:359-408 | `until` lies at or past every shipped row and before every shareable row left behind |
| `PageIndex.UntilAdvances` | src/swf/peer_scraper.py:359-408 | `until` moves exactly when any row lies past the cursor, and passes at least `limit` of them |
| `PageIndex.DrainsInRounds` | src/swf/peer_scraper.py:299-439 | a quiet producer is drained in ceil(rows / limit) rounds, and the rounds together ship every owed row once in order |
| `PageIndex.CheckPages` | src/swf/peer_scraper.py:591-600 | the page loop finds the first non-dict or repeated URL, and nothing exactly when there is none |
| `PageIndex.VerifyBundle` | src/swf/peer_scraper.py:544-638 | accepts exactly the bundles whose head, pages, cursor span, root, signature and epoch are in order, spelled out field by field, and names the first fault of every other document, one that is no object included |
| `PageIndex.AcceptedIsIssued` | src/swf/peer_scraper.py:610-638 | against a network that cannot forge signatures every accepted bundle carries the pages, the span, the root and the epoch of a bundle the producer made |
| `PageIndex.AcceptedRootPinsPages` | src/swf/peer_scraper.py:610-638 | two accepted bundles with one root carry the same pages, the empty bundle included |
| `PageIndex.HonestAcceptedIff` | src/swf/peer_scraper.py:299-439 | an honest signed bundle is accepted exactly when its window spans no more rowids than consumers tolerate |
| `PageIndex.LongPrivateStretchIsRejected` | src/swf/peer_scraper.py:608-609 | past a long enough private stretch every bundle an honest producer builds is rejected |
| `LocalIndex.IngestSafe` | src/swf/peer_scraper.py:1099-1195 | no ingest, whichever writes fail, adds a second row for a URL, revives a tombstone, changes a scope or turns a user-fetched row into a peer's |
| `LocalIndex.IngestCovers` | src/swf/peer_scraper.py:1099-1195 | after an ingest every page of the bundle whose own writes went through is held, was tombstoned or was junk |
| `LocalIndex.IngestHolds` | src/swf/peer_scraper.py:1099-1195 | a URL is held or tombstoned after an ingest exactly when it was before or some clean page for it could be written |
| `LocalIndex.IngestRows` | src/swf/peer_scraper.py:1099-1195 | every added row is made from a page of the bundle that is neither junk nor tombstoned, and an unlabelled URL gets the peer's private label |
| `LocalIndex.IngestAppends` | src/swf/peer_scraper.py:1099-1195 | an ingest appends exactly the new pages that could be written, in the bundle's order, numbered without a gap |
| `LocalIndex.IngestLabels` | src/swf/peer_scraper.py:1148-1175 | a page stored by an ingest is servable exactly when its URL carried an own sharing label before; the labels of held pages stay, and no own label is gained or lost |
| `LocalIndex.IngestCredits` | src/swf/search/migration.py:482-521 | exactly the URLs taken up whose credit could be written are credited to the bundle's producer, held already or not; every other credit stays |
| `LocalIndex.RowsTravel` | src/swf/peer_scraper.py:398-408 | table to table: a consumer that holds none of a bundle's rows and turns none away ends with exactly the producer's rows of that window after its own, in order, with their titles and times, and with their content ids where it had none |
| `LocalIndex.TombstoneIsForever` | src/swf/search/migration.py:291-395 | what the user tombstones is in no bundle ever after, held or labelled before or not, whatever is ingested, fetched, labelled or rebuilt afterwards |
| `LocalIndex.BorrowedNeverServed` | src/swf/peer_scraper.py:337-350 | over any run, rebuilds and backfills that keep the user's own pages included, a page that came from a peer is in no bundle until the user fetches it |
| `LocalIndex.IngestedServedIff` | src/swf/search/migration.py:316-395 | a freshly ingested row is servable exactly when its URL already carried a live user-fetched label with a sharing scope |
| `LocalIndex.FileRowsExact` | src/swf/web/index.py:444-477 | the rebuilt table has a row for every file with a URL and nothing else, in rowid order, and no URL twice unless two files share one |
| `LocalIndex.ReindexReservesIff` | src/swf/web/index.py:444-477 | a rebuild opens the door to re-serving some peer's page exactly when it leaves a live sharing label of the user's without its page |
| `LocalIndex.LostFileReshares` | src/swf/web/index.py:444-477 | a reachable run of a fetch, a rebuild without the file and an ingest that serves a peer's page as one's own |
| `LocalIndex.Index.BuildBundle` | src/swf/peer_scraper.py:299-439 | the loop builds the honest bundle of its window, signed over that very window; every shipped page carries its row's URL, title and time, the host of its URL, no topic and the content id on file |
| `LocalIndex.Index.StoreOne` | src/swf/peer_scraper.py:1117-1195 | one turn of the ingest loop changes the tables as one page should, sidecar row first; a page whose sidecar row or page row fails is passed over |
| `LocalIndex.Index.IngestBundle` | src/swf/peer_scraper.py:1038-1209 | the loop changes the tables as the pages of the bundle do one after another, failed ones passed over, and counts the rows stored |
| `LocalIndex.Index.IndexPage` | src/swf/web/index.py:135-199 | a page with a URL, content, a canonical form and no junk title is replaced under that form, gets a rowid and is labelled user-fetched, a failed label or content id left out; otherwise nothing changes |
| `LocalIndex.FetchedIsOpen` | src/swf/peer_scraper.py:337-350 | a page the user fetched goes out exactly when it is shared and not tombstoned, in the windows that cover its number, with its title, time and content id |
| `LocalIndex.FetchLands` | src/swf/web/index.py:135-199 | a page that is taken in has one row with its title and time and a new highest number |
| `LocalIndex.FetchLabels` | src/swf/web/index.py:181-199 | its label becomes the user's own with the scope asked for, a tombstone kept, and its content id is recorded, each unless its write fails |
| `LocalIndex.FetchLeaves` | src/swf/web/index.py:135-199 | no fetch touches another URL's row, label or content id or any credit, and one without a URL, with a junk title or with no row written changes nothing |
| `LocalIndex.Index.ReindexKnowledge` | src/swf/web/index.py:444-477 | afterwards exactly the URLs on disk have a page, numbered anew from 1; every label stays |
| `IndexPull.FetchedRowid` | src/swf/web/index.py:135-199 | a re-indexed page keeps its rowid when it was the newest row and gets a new highest one otherwise |
| `IndexPull.ShareFairIff` | src/swf/search/migration.py:291-395 | labelling keeps all readers whole exactly when it does not open, to readers that may have passed it, a clean page held under a label that allows it; judged on the tables before |
| `IndexPull.FetchFairIff` | src/swf/web/index.py:135-199 | re-indexing, with its label written or not, keeps all readers whole exactly when the page is not owed, or gets a number nobody has reached, or was owed before; judged before the call |
| `IndexPull.IngestFairIff` | src/swf/peer_scraper.py:1099-1195 | ingesting, whichever writes fail, keeps all readers whole exactly when no page it stores under an opening label gets a number readers have passed |
| `IndexPull.BackfillFairIff` | docs/TROUBLESHOOTING.md:52-64 | the documented backfill does exactly when no clean page without a label is held |
| `IndexPull.ReindexFairIff` | src/swf/web/index.py:444-477 | a rebuild does exactly when no owed page gets a number readers have passed, unless it was owed under one no higher |
| `IndexPull.HarmlessIsFair` | src/swf/peer_scraper.py:337-350 | for every act of a producer: the guard it can check beforehand holds exactly when all of its readers stay whole |
| `IndexPull.ReindexKeepsHeldIff` | src/swf/web/index.py:444-477 | a consumer's rebuild keeps all it holds exactly when every live page is on disk |
| `IndexPull.StepKeepsInv` | src/swf/peer_scraper.py:1274-1442 | every step of the protocol keeps: with the current epoch saved, nothing owed below the cursor is missing, and a bundle in flight is complete for the cursor asked from |
| `IndexPull.NothingMissed` | src/swf/peer_scraper.py:1319-1411 | in every interleaving of guarded changes, same-epoch rebuilds, new epochs, probes, fetches, replayed bundles, ingests whose failed writes are not needed, cursor writes, failures and crashes, no owed row at or below the cursor is missing while the saved epoch is current |
| `IndexPull.CatchesUp` | src/swf/peer_scraper.py:1319-1411 | from any state between pulls, whatever the saved epoch and cursor, as many undisturbed pulls of a quiet producer as the rows left to read fill windows leave the consumer with everything owed |
| `IndexPull.ChangeKeepsInv` | src/swf/peer_scraper.py:1274-1442 | any change of the producer's tables that is fair, and keeps numbers unless it is a rebuild, keeps the invariant |
| `IndexPull.FairIsNeeded` | src/swf/peer_scraper.py:337-350 | for every change that is not fair there is an up-to-date reader that misses a page by it |
| `IndexPull.ReplyLosesIff` | src/swf/peer_scraper.py:601-609 | after any signed bundle of the epoch, on a first pull or a later one and with any failed writes, nothing is missed exactly when it ends at a number handed out and brings whatever is owed from the cursor asked to that end and not held; judged before it is taken |
| `IndexPull.EarlyReplayKeeps` | src/swf/peer_scraper.py:601-609 | a replayed bundle that starts at or before the cursor and was signed since the last rebuild meets that condition |
| `IndexPull.ReplayPastTopMisses` | src/swf/peer_scraper.py:313 | a bundle signed for an empty window past the last row, replayed, moves the cursor past the next page to be numbered |
| `IndexPull.FailedWriteLosesIff` | src/swf/peer_scraper.py:1161-1184 | of an honest bundle nothing is missed exactly when each page whose writes failed is junk or held |
| `IndexPull.LostWriteMisses` | src/swf/peer_scraper.py:1161-1184 | a page whose row cannot be written on the first pull is never got, however often the reader pulls again |
| `IndexPull.ReplayAheadMisses` | src/swf/peer_scraper.py:601-609 | a concrete replayed bundle that moves the cursor past a page never seen |
| `IndexPull.StaleReplayMisses` | src/swf/web/index.py:444-477 | a concrete bundle replayed from before a harmless rebuild that does the same |
| `IndexPull.OwnRebuildMisses` | src/swf/web/index.py:444-477 | for every rebuild of a consumer that drops a live page there is a producer, read up to date, whose page it lacks from then on |
| `IndexPull.UnfairChangeIsMissed` | src/swf/peer_scraper.py:1319-1411 | a row owed under a number the reader has passed, and not held there, stays missing however often the reader pulls |
| `IndexPull.ReindexedUnderNewScopeMisses` | src/swf/web/index.py:105-116 | a page indexed again after the default scope was widened keeps its number, and a reader past it never gets it |
| `IndexPull.BackfillMisses` | docs/TROUBLESHOOTING.md:52-64 | the documented backfill does the same to a reader past an unlabelled page |
| `IndexPull.ReindexKeepingEpochMisses` | src/swf/web/index.py:444-477 | a concrete reindex under the old epoch that breaks it |
| `IndexPull.PeerPuller.PullFromPeer` | src/swf/peer_scraper.py:1274-1442 | one pull: which outcome for which replies, a banned peer included, only a verified bundle of the cursor's epoch is ingested, a rejection names its fault, and the cursor moves after an ingest or to 0 |
| `Bundles.LatestIsMax` | src/swf/bundles/store.py:340-370 | `latest_version` is the highest stored version of the record, none exactly when there is none |
| `Bundles.AcceptedIffNewer` | src/swf/bundles/verify.py:120-211 | a fitting envelope is accepted exactly when it is newer than everything stored of its record |
| `Bundles.RefusalNamesCause` | src/swf/bundles/verify.py:120-211 | acceptance and every refusal, spelled out: each refusal exactly when its check is the first to fail, a stale version meaning that something stored of the record is as new, a recipient outside the reservoir meaning that one named is not in it |
| `Bundles.InsertKeepsVetted` | src/swf/bundles/verify.py:179-191 | an accepted envelope was not stored before and keeps versions increasing with the rowid |
| `Bundles.AcceptRaises` | src/swf/bundles/verify.py:179-191 | offering a fitting envelope leaves its record at least that new, and no record gets older |
| `Bundles.Store.Insert` | src/swf/bundles/store.py:105-166 | inserting is idempotent on the content id and appends otherwise |
| `Bundles.Store.ListWithRowid` | src/swf/bundles/store.py:286-337 | the page is the listing past the cursor, of one kind or of all, cut at the clamped limit |
| `Bundles.ListingExact` | src/swf/bundles/store.py:286-337 | a rowid is listed exactly when it is past the cursor and its row of the kind asked for |
| `Bundles.ListingInOrder` | src/swf/bundles/store.py:286-337 | the listing is in ascending rowid order, each rowid with its own row |
| `Bundles.Store.Post` | src/swf/peer_server.py:1342-1400 | a re-post is accepted unchanged; anything else is stored exactly when it verifies, with the verifier's reason otherwise |
| `Bundles.ResolvesLast` | src/swf/hivemind/sink.py:457-471 | the predecessor the sink looks up is the batch stored last |
| `Bundles.StoreKeepsChainIff` | src/swf/hivemind/sink.py:353-425 | storing a batch keeps the transcript one chain exactly when it names the batch stored last |
| `Bundles.AtomicSinkChains` | src/swf/hivemind/sink.py:474-626 | an undisturbed sink call keeps the chain |
| `Bundles.RedactedLandsLast` | src/swf/hivemind/sink.py:428-454 | a redacted batch is newer than every stored batch and never refused as stale |
| `Bundles.RacingSinkForksIff` | src/swf/hivemind/sink.py:520-583 | a sink call whose version and predecessor come from older stores, verified against the current one, keeps the chain exactly when no batch landed since it looked up the predecessor, or the verifier refuses it as unfit or stale |
| `Bundles.RacingRedactedNeverForks` | src/swf/hivemind/sink.py:428-454 | a racing redacted batch never forks the chain |
| `Bundles.RacingNumberedForks` | src/swf/hivemind/sink.py:520-583 | two numbered batches racing for a new record are both stored, and the chain is forked |
| `Bundles.StoreAlwaysOrdered` | src/swf/bundles/verify.py:183-191 | in every reachable store versions strictly increase with the rowid, and a transcript only the sink writes to is a single `prev_cid` chain |
| `Bundles.Sink.Persist` | src/swf/hivemind/sink.py:474-626 | every outcome with its cause; a refused batch changes nothing; a stored one is appended, carries the record, the content in the clear or sealed, the author, his signature, the version due and the id of the batch stored last, and keeps the chain |
| `BundlePull.AcceptAllRaises` | src/swf/bundles/puller.py:394-425 | after a page every fitting envelope of it that did not raise is matched or surpassed, whatever else the page held |
| `BundlePull.AcceptAllAdds` | src/swf/bundles/puller.py:394-425 | storing a page removes nothing and adds only envelopes of it that did not raise and that the policy lets in |
| `BundlePull.HonestPageIsListing` | src/swf/peer_server.py:642-770 | the page an honest peer answers is its store's listing past the cursor, and `next` its last rowid |
| `BundlePull.HonestPullCatches` | src/swf/bundles/puller.py:374-468 | a pull from an honest, growing peer in which nothing raises leaves nothing behind its new mark |
| `BundlePull.QuietPullReaches` | src/swf/bundles/puller.py:374-468 | how far a pull of a quiet peer gets: the smaller of its length and the mark plus pages times page size, with everything admissible up to there matched or surpassed; enough pages drain it |
| `BundlePull.Puller.SetHighWater` | src/swf/bundles/puller.py:221-240 | the saved mark of one peer moves to the larger value, the others stay |
| `BundlePull.Puller.StorePage` | src/swf/bundles/puller.py:394-431 | a page is verified and inserted one by one, bad and raising envelopes skipped, nothing else added, and the new ones counted |
| `BundlePull.Puller.PullFromPeer` | src/swf/bundles/puller.py:295-514 | the mark never falls; of a quiet, reachable peer with nothing raised it moves up by pages times page size or to the end, and all of that is matched or surpassed here; whatever raises, the store and the mark are those of the page-by-page reading |
| `BundlePull.StepKeepsMarkSound` | src/swf/bundles/puller.py:374-468 | each step, a crash before the mark is written, an envelope that raises and is not needed, and a rebuilt peer without needed rows up to the mark included, keeps the mark sound |
| `BundlePull.SkipLosesIff` | src/swf/bundles/puller.py:400-423 | skipping an envelope keeps the mark sound exactly when the policy turns it away or it is matched or surpassed here |
| `BundlePull.LostInsertMisses` | src/swf/bundles/puller.py:400-423 | a first pull whose only envelope raises moves the mark past it, and no later page has it |
| `BundlePull.RebuiltPeerLosesIff` | src/swf/bundles/puller.py:221-240 | when a peer's store is rebuilt, whatever it takes in later, nothing is lost here exactly when the new store is as long as the mark and holds nothing needed up to it |
| `BundlePull.MarkAlwaysSound` | src/swf/bundles/puller.py:221-240 | over any run the mark never falls, and everything the peer holds up to it that our policy lets in is matched or surpassed here |
| `BundlePull.MarkSoundFromStart` | src/swf/bundles/puller.py:374-468 | from the first pull on, whatever the peer and this node hold: all admissible bundles up to the mark are matched or surpassed here |
| `Gossip.ReceiveSentOnce` | src/swf/peer_server.py:1402-1447 | a receive step posts only what no node had posted on that edge before |
| `Gossip.StepKeepsInv` | src/swf/bundles/propagation.py:227-266 | every handover, delivery and pull keeps: along each edge the receiver is as new or the post is in flight or the sender got the bundle by a pull, and nothing is sent twice |
| `Gossip.RunKeepsInv` | src/swf/bundles/propagation.py:227-266 | the same over whole runs, in which no post is forgotten |
| `Gossip.PostedOnce` | src/swf/bundles/propagation.py:25-33 | over a whole run each bundle is posted along each edge at most once |
| `Gossip.QuietAgreesIff` | src/swf/bundles/propagation.py:25-48 | when a flood has died down in a strongly connected network, all nodes agree on a record's version exactly when the nodes carrying the author's key have what the author published, and the peers of every node that pulled a bundle have that |
| `Gossip.AgreedContent` | src/swf/bundles/verify.py:179-191 | agreement on versions is agreement on envelopes unless an author signed two for one version |
| `Gossip.FloodConverges` | src/swf/peer_server.py:1349-1449 | for keys in any format: from empty stores, with each bundle entering at its author's node, every drained run ends in agreement on a record exactly when the peers of every node that pulled a bundle of it have it |
| `Gossip.FormatsDisjoint` | src/swf/bundles/envelope.py:60-61 | no string is both an author key and a node key |
| `Gossip.SkipNeverFires` | src/swf/bundles/propagation.py:33-48 | in the formats in use leaving the author out leaves nobody out: every known peer is posted to |
| `Gossip.FloodAlwaysConverges` | src/swf/bundles/propagation.py:25-33 | wherever bundles enter and whoever pulls, every drained run from empty stores ends in agreement on a record exactly when the peers of every node that pulled a bundle of it have it |
| `Gossip.PushAlwaysConverges` | src/swf/bundles/propagation.py:25-33 | wherever bundles enter, every drained run without pulls ends in agreement on every record |
| `Gossip.PullBeatsPost` | src/swf/bundles/puller.py:38-42 | a whole run in which a pull beats the post, the flood drains, and a node is left without the bundle |
| `Gossip.AuthorsNodeOnlyFromOutside` | src/swf/bundles/propagation.py:41-48 | were node keys written as authors are: over any run a node whose key is the author's would hold the bundle only if it was handed to that node or that node pulled it |
| `Gossip.DeliveryShrinksWork` | src/swf/bundles/propagation.py:25-33 | every delivery strictly lowers posts in flight plus a full fan-out per missing copy |
| `Gossip.FloodEnds` | src/swf/bundles/propagation.py:25-33 | without new bundles no run is longer than the work at its start |
| `Propagation.PostBundle` | src/swf/bundles/propagation.py:89-160 | a request goes out exactly for an http URL and a body of at most 4 MiB; a missing URL, another scheme and a larger body are told apart in that order, and what the wire did is reported |
| `Propagation.TargetIs` | src/swf/bundles/propagation.py:121-124 | the request goes to the bundles path under the URL, slashes at its end making no difference |
| `Propagation.Propagate` | src/swf/bundles/propagation.py:176-268 | in table order, exactly the peers that are neither excluded nor banned and that a request can be made to are posted to, at the discovered URL or else the stored one, and every peer gets its status with its cause |
| `Propagation.PropagateIsFanout` | src/swf/bundles/propagation.py:210-266 | with the author excluded, the posts made from a node's peers table are the flood's posts from that node |
| `EventBus.StepKeepsInv` | src/swf/event_bus.py:71-213 | every step, a failed commit included, keeps: each committed event has one fate, and what the fan-out passed by the replay query saw |
| `EventBus.AtLeastOnce` | src/swf/event_bus.py:182-213 | in every interleaving a committed event past the resume point is yielded, waiting, still to be put, or was turned away by a full queue |
| `EventBus.OnceOrTwice` | src/swf/event_bus.py:99-213 | at most two copies of any event, at most one of an event not replayed, and at least one when all has drained without overflow |
| `EventBus.ResumeCatchesUpIff` | src/swf/event_bus.py:21-23 | hanging up at any moment after the replay query and resuming at an id makes up for everything exactly when each committed event still waiting, being fanned out or dropped, and not yielded, is newer than that id and not vacuumed |
| `EventBus.SweptForever` | src/swf/event_bus.py:118-172 | over any run an event has left the table exactly when some vacuum of the run took it |
| `EventBus.FullQueueSkips` | src/swf/event_bus.py:105-107 | a whole run without any race: a full queue drops an event, a later one gets through, and resuming from the last id skips the dropped one |
| `EventBus.LostIdIsReused` | src/swf/event_bus.py:82-107 | a whole run without race or full queue: a commit fails after its event got an id, the subscriber receives it, and resuming from it skips the event committed next under the same id |
| `EventBus.OvertakenEventIsSkipped` | src/swf/event_bus.py:99-107 | a concrete race after which resuming from the last id skips an event |
| `EventBus.VacuumSpares` | src/swf/event_bus.py:118-172 | no row that one of the two rules asks for is deleted: fewer than n rows have a larger id, or its stamp is at or past the cutoff |
| `EventBus.VacuumLeaves` | src/swf/event_bus.py:118-172 | what is left of any table: everything from the oldest row on that a rule asks for, and everything when the rules ask for nothing |
| `EventBus.VacuumIsSuffix` | src/swf/event_bus.py:139-172 | what is left is the end of the table; the count rule alone leaves n rows of any table that has as many |
| `EventBus.VacuumExactIff` | src/swf/event_bus.py:139-163 | with clock and ids in step, exactly the rows one of the rules asks for survive, unless the rules ask for nothing of a non-empty table: then nothing is deleted |
| `EventBus.QueueKeepsOldest` | src/swf/event_bus.py:105-107 | a queue nobody reads ends up with its items and the events offered, in order, cut at 512 |
| `EventBus.Board.Emit` | src/swf/event_bus.py:71-107 | the event is committed under a new id and offered once to every subscriber of the moment; a failed insert does nothing, a failed commit still offers it |
| `EventBus.Board.Subscribe` | src/swf/event_bus.py:175-206 | a fresh queue is registered and exactly the rows past the resume point are replayed in id order |
| `EventBus.Board.VacuumEvents` | src/swf/event_bus.py:118-172 | the rows left are those from the oldest on that a rule asks for, the end of the table, and the count returned is how many went; the count rule alone leaves as many as it says |
| `Base32.B32Lower` | src/swf/cid.py:29-42 | for every byte string the bit-buffer loop writes ceil(8n/5) letters of the alphabet whose base-32 value is the input's big-endian value shifted by the pad |
| `Base32.EncodingUnique` | src/swf/cid.py:29-42 | that contract leaves no choice of text |
| `Base32.EncodingInjective` | src/swf/cid.py:29-42 | no two byte strings, of whatever lengths, share an encoding |
| `Base32.CidForContent` | src/swf/cid.py:45-58 | every content id has 59 letters, starts with `bafkrei` and passes `looks_like_cid` |
| `Base32.CidInjective` | src/swf/cid.py:45-58 | different digests give different content ids |
| `Percent.UnquoteQuote` | src/swf/canonical.py:119-127 | decoding undoes encoding whatever is declared safe, `%` excepted |
| `Percent.AlwaysSafeIs` | src/swf/canonical.py:113-117 | with nothing declared safe exactly the unreserved characters of section 2.3 of RFC 3986 stay as they are |
| `PathForm.CollapseSlashes` | src/swf/canonical.py:55-69 | the loop with its flag and its early return both give the collapsed path |
| `PathForm.StripCollapse` | src/swf/canonical.py:55-76 | collapsing and stripping leave exactly the non-empty components, joined by single slashes |
| `PathForm.NormalizePath` | src/swf/canonical.py:121-130 | the result is the encoded join of the decoded components |
| `PathForm.NormalIdempotent` | src/swf/canonical.py:121-130 | normalising a path twice is normalising it once |
| `PathForm.SamePathIff` | src/swf/canonical.py:121-130 | two paths share a normal form exactly when they decode to the same components, both rooted or both not |
| `PathForm.KeptIs` | src/swf/canonical.py:125-127 | a path's normal form leaves as they are exactly the slash and the characters of a segment in section 3.3 of RFC 3986 |
| `QueryForm.SortSorts` | src/swf/canonical.py:110-113 | sorting gives the same pairs in ascending order |
| `QueryForm.TrackingIs` | src/swf/canonical.py:21-53 | the keys dropped: the listed names as written, and whatever starts with `utm_` in any case |
| `QueryForm.ParseEncode` | src/swf/canonical.py:106-118 | printing a pair and parsing the segment gives the pair back, the blank pair excepted |
| `QueryForm.PrintedInjective` | src/swf/canonical.py:113-118 | printed lists of pairs differ unless the lists agree, the lone blank pair excepted |
| `QueryForm.SameQueryIff` | src/swf/canonical.py:106-118 | two queries share a normal form exactly when the same decoded, untracked pairs are kept from both, in whatever order |
| `QueryForm.OrderDoesNotMatter` | src/swf/canonical.py:110-113 | permuting the segments does not change the normal form |
| `QueryForm.IdempotentIff` | src/swf/canonical.py:106-118 | normalising a query twice is normalising it once exactly when no segment is a bare `=`, or that is the one pair kept |
| `QueryForm.NotAlwaysIdempotent` | src/swf/canonical.py:133-137 | `a=1&=` normalises to two different texts in turn |
| `QueryForm.NormalizeQuery` | src/swf/canonical.py:106-118 | the loop prints the normal form |
| `PeersFile.SavePeers` | src/swf/peers.py:67-86 | the text written, for every list of peers |
| `PeersFile.ParsePeersPlain` | src/swf/peers.py:103-134 | the loop yields what reading line by line specifies |
| `PeersFile.LoadPeerUrls` | src/swf/local_friends.py:82-122 | the second parser's loops yield what line-by-line reading of the file specifies, followed by the extras of the environment |
| `PeersFile.ExtrasExact` | src/swf/local_friends.py:115-122 | every non-empty extra is there, without trailing slashes, each once, none that the file has, and nothing else is added |
| `Strings.SplitCommasIs` | src/swf/local_friends.py:118-119 | the extras are cut at every comma and nowhere else |
| `PeersFile.CleanRoundTrip` | src/swf/local_friends.py:94-114 | the saved file of clean peers gives the peers to the first parser and their URLs in order, without trailing slashes, to the second |
| `PeersFile.ParsedIsClean` | src/swf/peers.py:103-134 | whatever the text, every parsed name, URL and key is non-empty, trimmed and on one line |
| `PeersFile.EntriesApart` | src/swf/peers.py:114-118 | in any text an entry's dash starts afresh: the lines before it and those from it on are read apart |
| `PeersFile.EntryIsPeer` | src/swf/peers.py:108-134 | an entry is one peer if the last mentions of its name and its URL are not empty, with the last key mentioned, and no peer otherwise; blank lines, comments and the heading say nothing |
| `PeersFile.EntryIsUrl` | src/swf/local_friends.py:96-114 | for the second parser an entry, or what comes before the first, is the last non-empty URL it gives, without the slashes at its end |
| `PeersFile.SecondFindsAll` | src/swf/local_friends.py:82-114 | whatever the text, the URL of every peer the first parser finds the second finds too |
| `PeersFile.NamelessIsUrlOnly` | src/swf/peers.py:129-134 | not the other way round: an entry without a name is a URL and no peer |
| `PeersFile.RoundTripIff` | src/swf/peers.py:67-134 | a list of peers survives saving and parsing exactly when all its fields are that clean |
| `RateLimit.Limiter.Check` | src/swf/search/friend_responder.py:62-89 | one check prunes, decides and records; a refusal leaves no timestamp |
| `RateLimit.CapHolds` | src/swf/search/friend_responder.py:62-89 | under a forward clock no closed sixty-second window holds more than twenty admissions of one address |
| `RateLimit.RefusedIff` | src/swf/search/friend_responder.py:62-89 | a request is refused exactly when twenty were admitted in the sixty seconds up to it, and the bucket is exactly the admissions still in the window |
| `RateLimit.ClockStepBreaksCap` | src/swf/search/friend_responder.py:62-89 | with the clock set back once, thirty-nine admissions fit in one window |

## Left out

- SliceChain.Consumer.TryMerge: merging and saving the state are one step; a crash between them merges the same slice again, which replaces the same rows.
- SliceChain.Publisher.Publish: the method runs to its end; a crash between its two writes is a step of the run, as the slice it leaves behind.
- LocalIndex.IngestSafe: the look-ups for a tombstone and for a held page (src/swf/peer_scraper.py:1115-1122, 1145-1150) succeed; where the loop takes a failed one for an absent row is not modelled.
- PageIndex.VerifyBundle: the declared root is compared as a digest, not as hex text, and list elements that are no objects carry nothing.
- IndexPull.NothingMissed: holds under the guards of `IndexPull.Enabled`; those on producer changes, on replies and failed writes, and on a consumer's rebuild are shown to be exact. A node that signs an empty epoch because it cannot read its own is not modelled, and the numbers a rebuild hands out are those of an empty table.
- BundlePull.MarkAlwaysSound: a peer's store is not rebuilt while a page of the old one is being stored.
- Gossip.FloodConverges: posts are never lost; a pull takes one bundle of another node, the marks and pages behind it being modelled on their own.
- Propagation.Propagate: what the wire does is an arbitrary function of the target, and a post is one step.
- EventBus.AtLeastOnce: one subscriber is followed at a time, and unsubscribing is not a step; the SSE handler that replays before it subscribes is not modelled.
- EventBus.Board.Emit: the method runs without interleaving; the interleaved steps are the state machine.
- PeersFile.LoadPeerUrls: newlines are as Python's text mode delivers them.
- PathForm.NormalizePath: works on bytes; the replacement of invalid UTF-8 by U+FFFD is not modelled.
- QueryForm.NormalizeQuery: works on bytes, and `sort` is a specification function rather than the library's in-place sort.
- The whole `canonical_url`: scheme, host and the `;params` split of urllib, for which idempotence fails as well.
- HTTP, sockets, discovery, threads, logging, metrics, backoff and the command line: only the protocol steps they trigger are modelled.
- SHA-256, Ed25519, age and the key files: hashes are injective constructors, signatures predicates, encryption a list of recipients.
- SQLite's full-text search, ranking, write-ahead log and missing-database fallbacks: tables are sequences and maps, statements atomic.
- The time stamps of contributor rows; the fallback title of a file without one; the reset of corrupt state files.
- Parsing of `peers.yaml` by PyYAML, which `load_peers` prefers when installed.
- Search policy, local cache, receipts, LAN friend tickets, digests and graph export: they add only single-branch checks.
