/**
 Signed bundle envelopes: the verifier, the append-only store behind it, and the transcript sink that
 chains its batches through `prev_cid`.

 A content id is modelled as a free constructor over the envelope body, signature excluded; shape and
 signature checks are arbitrary predicates of the policy.
 */
module Bundles {
  import opened Wrappers
  import opened Seqs

  datatype Body = Body(
    kind: string, recordId: string, version: int, author: string, signedAt: string,
    prevCid: Option<Cid>, recipients: Option<seq<string>>, payload: string)

  datatype Cid = CidOf(body: Body)

  datatype Envelope = Envelope(body: Body, signature: string)

  /** Versions are counted per kind and record. */
  datatype Key = Key(kind: string, recordId: string)

  function KeyOf(e: Envelope): Key {
    Key(e.body.kind, e.body.recordId)
  }

  function CidFor(e: Envelope): Cid {
    CidOf(e.body)
  }

  // ---------- The store ----------

  /** Rows in insertion order; the row at index `i` has rowid `i + 1`. */
  type Rows = seq<Envelope>

  predicate HasCid(rows: Rows, cid: Cid) {
    exists i :: 0 <= i < |rows| && CidFor(rows[i]) == cid
  }

  /** The stored envelope of a record with the highest version. */
  function Latest(rows: Rows, key: Key): Option<Envelope> {
    if rows == [] then None
    else
      var earlier := Latest(rows[..|rows| - 1], key);
      var e := rows[|rows| - 1];
      if KeyOf(e) == key && (earlier.None? || e.body.version > earlier.value.body.version) then Some(e) else earlier
  }

  function LatestVersion(rows: Rows, key: Key): Option<int> {
    var e := Latest(rows, key);
    if e.None? then None else Some(e.value.body.version)
  }

  lemma {:induction false} LatestIsMax(rows: Rows, key: Key)
    ensures var top := Latest(rows, key);
            && (top.Some? ==> top.value in rows && KeyOf(top.value) == key)
            && forall i :: 0 <= i < |rows| && KeyOf(rows[i]) == key ==>
                 top.Some? && rows[i].body.version <= top.value.body.version
    decreases |rows|
  {
    if rows != [] {
      LatestIsMax(rows[..|rows| - 1], key);
    }
  }

  lemma LatestSnoc(rows: Rows, e: Envelope, key: Key)
    ensures Latest(rows + [e], key) ==
            var earlier := Latest(rows, key);
            if KeyOf(e) == key && (earlier.None? || e.body.version > earlier.value.body.version) then Some(e)
              else earlier
  {
    assert (rows + [e])[..|rows|] == rows;
  }

  // ---------- The verifier ----------

  datatype Reason =
    | ShapeInvalid | KindUnknown | PubkeyMalformed | EncryptionMalformed | AuthorNotAlchemist
    | SignatureInvalid | VersionNotMonotonic | RecipientNotInReservoir

  predicate IsShapeReason(r: Reason) {
    r.ShapeInvalid? || r.KindUnknown? || r.PubkeyMalformed? || r.EncryptionMalformed?
  }

  /** `shape` names what is malformed, if anything; well-shaped envelopes have versions from 0 up. */
  datatype Policy = Policy(shape: Envelope -> Option<Reason>, alchemists: set<string>, sigOk: Envelope -> bool) {
    ghost predicate Valid() {
      forall e: Envelope :: if shape(e).None? then e.body.version >= 0 else IsShapeReason(shape(e).value)
    }
  }

  predicate RecipientsOk(e: Envelope, reservoir: Option<set<string>>) {
    reservoir.Some? && e.body.recipients.Some? ==> forall r :: r in e.body.recipients.value ==> r in reservoir.value
  }

  /** `verify_bundle`: the first failing stage names the reason. */
  function Verify(e: Envelope, rows: Rows, policy: Policy, reservoir: Option<set<string>>): Result<(), Reason> {
    var latest := LatestVersion(rows, KeyOf(e));
    if policy.shape(e).Some? then Err(policy.shape(e).value)
    else if e.body.kind != "search.result" && e.body.author !in policy.alchemists then Err(AuthorNotAlchemist)
    else if !policy.sigOk(e) then Err(SignatureInvalid)
    else if latest.Some? && e.body.version <= latest.value then Err(VersionNotMonotonic)
    else if !RecipientsOk(e, reservoir) then Err(RecipientNotInReservoir)
    else Ok(())
  }

  /** Everything but the version: what no store's contents can change. */
  predicate Fits(e: Envelope, policy: Policy) {
    && policy.shape(e).None?
    && (e.body.kind == "search.result" || e.body.author in policy.alchemists)
    && policy.sigOk(e)
  }

  /** Version of the newest stored envelope of a record, -1 when there is none. */
  function Height(rows: Rows, key: Key): int {
    var v := LatestVersion(rows, key);
    if v.None? then -1 else v.value
  }

  /** Without a reservoir, a fitting envelope is accepted exactly when it is newer than everything stored. */
  lemma AcceptedIffNewer(e: Envelope, rows: Rows, policy: Policy)
    requires policy.Valid()
    ensures Verify(e, rows, policy, None).Ok? <==> Fits(e, policy) && e.body.version > Height(rows, KeyOf(e))
  {
  }

  /** Nothing stored of the same kind and record is as new. */
  ghost predicate Newest(e: Envelope, rows: Rows) {
    forall k :: 0 <= k < |rows| && rows[k].body.kind == e.body.kind && rows[k].body.recordId == e.body.recordId ==>
      rows[k].body.version < e.body.version
  }

  lemma NewestIff(e: Envelope, rows: Rows)
    ensures var v := LatestVersion(rows, KeyOf(e));
            Newest(e, rows) <==> v.None? || v.value < e.body.version
  {
    var top := Latest(rows, KeyOf(e));
    LatestIsMax(rows, KeyOf(e));
    hide Latest;
    if top.Some? {
      var k :| 0 <= k < |rows| && rows[k] == top.value;
    }
  }

  /** A recipient is named that is not in the reservoir given. */
  ghost predicate Outsider(e: Envelope, reservoir: Option<set<string>>) {
    reservoir.Some? && e.body.recipients.Some? && exists r :: r in e.body.recipients.value && r !in reservoir.value
  }

  /** Every refusal names its cause: authorship before signature, signature before version, version
      before recipients, and shape before all of them. */
  lemma RefusalNamesCause(e: Envelope, rows: Rows, policy: Policy, reservoir: Option<set<string>>)
    requires policy.Valid()
    ensures var v := Verify(e, rows, policy, reservoir);
            var listed := e.body.kind == "search.result" || e.body.author in policy.alchemists;
            && (v.Err? && IsShapeReason(v.error) <==> policy.shape(e).Some?)
            && (v == Err(AuthorNotAlchemist) <==> policy.shape(e).None? && !listed)
            && (v == Err(SignatureInvalid) <==> policy.shape(e).None? && listed && !policy.sigOk(e))
            && (v == Err(VersionNotMonotonic) <==>
                  policy.shape(e).None? && listed && policy.sigOk(e) && !Newest(e, rows))
            && (v == Err(RecipientNotInReservoir) <==>
                  policy.shape(e).None? && listed && policy.sigOk(e) && Newest(e, rows) && Outsider(e, reservoir))
            && (v.Ok? <==>
                  policy.shape(e).None? && listed && policy.sigOk(e) && Newest(e, rows) && !Outsider(e, reservoir))
  {
    NewestIff(e, rows);
    hide LatestVersion, Newest;
  }

  /** In rowid order, each record's versions strictly increase. */
  ghost predicate Ordered(rows: Rows) {
    forall i, j :: 0 <= i < j < |rows| && KeyOf(rows[i]) == KeyOf(rows[j]) ==>
      rows[i].body.version < rows[j].body.version
  }

  ghost predicate Vetted(rows: Rows, policy: Policy) {
    Ordered(rows) && forall e :: e in rows ==> Fits(e, policy)
  }

  /** Verify, then insert, in one step: what both `POST /bundles` and the puller do to the store. */
  function Accept(rows: Rows, e: Envelope, policy: Policy): Rows {
    if Verify(e, rows, policy, None).Ok? then rows + [e] else rows
  }

  lemma InsertKeepsVetted(rows: Rows, e: Envelope, policy: Policy, reservoir: Option<set<string>>)
    requires Vetted(rows, policy) && Verify(e, rows, policy, reservoir).Ok?
    ensures Vetted(rows + [e], policy) && !HasCid(rows, CidFor(e))
  {
    LatestIsMax(rows, KeyOf(e));
  }

  lemma AcceptKeepsVetted(rows: Rows, e: Envelope, policy: Policy)
    requires Vetted(rows, policy)
    ensures Vetted(Accept(rows, e, policy), policy)
  {
    if Verify(e, rows, policy, None).Ok? {
      InsertKeepsVetted(rows, e, policy, None);
    }
  }

  /** After offering a fitting envelope the record is at least as new, and no record ever gets older. */
  lemma AcceptRaises(rows: Rows, e: Envelope, policy: Policy)
    requires policy.Valid()
    ensures Fits(e, policy) ==> Height(Accept(rows, e, policy), KeyOf(e)) >= e.body.version
    ensures forall key :: Height(Accept(rows, e, policy), key) >= Height(rows, key)
  {
    forall key ensures Height(Accept(rows, e, policy), key) >= Height(rows, key) {
      LatestSnoc(rows, e, key);
    }
    LatestSnoc(rows, e, KeyOf(e));
  }

  datatype PostOutcome = Created(wasNew: bool) | Refused(reason: Reason)

  function Clamp(n: int, lo: nat, hi: nat): (r: nat)
    requires lo <= hi
    ensures lo <= r <= hi && (lo <= n <= hi ==> r == n)
    ensures (n < lo ==> r == lo) && (n > hi ==> r == hi)
  {
    if n < lo then lo else if n > hi then hi else n
  }

  predicate IsKind(e: Envelope, kind: Option<string>) {
    kind.None? || e.body.kind == kind.value
  }

  /** The rows of one kind, or of any, numbered past `since` and up to `upto`, with their numbers. */
  function Listing(rows: Rows, kind: Option<string>, since: nat, upto: nat): seq<(Envelope, nat)>
    requires upto <= |rows|
  {
    if upto <= since then []
    else Listing(rows, kind, since, upto - 1) + if IsKind(rows[upto - 1], kind) then [(rows[upto - 1], upto)] else []
  }

  ghost predicate Numbers(page: seq<(Envelope, nat)>, rowid: nat) {
    exists k :: 0 <= k < |page| && page[k].1 == rowid
  }

  lemma NumbersSnoc(page: seq<(Envelope, nat)>, last: (Envelope, nat), rowid: nat)
    ensures Numbers(page + [last], rowid) <==> Numbers(page, rowid) || last.1 == rowid
  {
    var longer := page + [last];
    assert longer[|page|] == last;
    if k :| 0 <= k < |page| && page[k].1 == rowid {
      assert longer[k] == page[k];
    }
  }

  /** A listing leaves out nothing that was asked for, and numbers nothing else. */
  lemma {:induction false} ListingExact(rows: Rows, kind: Option<string>, since: nat, upto: nat, rowid: nat)
    requires upto <= |rows|
    ensures Numbers(Listing(rows, kind, since, upto), rowid)
       <==> since < rowid <= upto && (kind.Some? ==> rows[rowid - 1].body.kind == kind.value)
    decreases upto
  {
    if upto > since {
      ListingExact(rows, kind, since, upto - 1, rowid);
      hide Numbers;
      NumbersSnoc(Listing(rows, kind, since, upto - 1), (rows[upto - 1], upto), rowid);
      assert Listing(rows, kind, since, upto - 1) + [] == Listing(rows, kind, since, upto - 1);
    }
  }

  ghost predicate Placed(page: seq<(Envelope, nat)>, rows: Rows, since: nat, upto: nat)
    requires upto <= |rows|
  {
    && (forall k :: 0 <= k < |page| ==> since < page[k].1 <= upto && page[k].0 == rows[page[k].1 - 1])
    && forall j, k :: 0 <= j < k < |page| ==> page[j].1 < page[k].1
  }

  lemma PlacedSnoc(page: seq<(Envelope, nat)>, rows: Rows, since: nat, upto: nat)
    requires since <= upto < |rows| && Placed(page, rows, since, upto)
    ensures Placed(page, rows, since, upto + 1) && Placed(page + [(rows[upto], upto + 1)], rows, since, upto + 1)
  {
  }

  /** It is in rowid order, and each number goes with its own row. */
  lemma {:induction false} ListingInOrder(rows: Rows, kind: Option<string>, since: nat, upto: nat)
    requires upto <= |rows|
    ensures Placed(Listing(rows, kind, since, upto), rows, since, upto)
    decreases upto
  {
    if upto > since {
      ListingInOrder(rows, kind, since, upto - 1);
      PlacedSnoc(Listing(rows, kind, since, upto - 1), rows, since, upto - 1);
      hide IsKind, Placed;
      assert Listing(rows, kind, since, upto - 1) + [] == Listing(rows, kind, since, upto - 1);
    }
  }

  /** Without a kind it is a slice. */
  lemma {:induction false} ListingAll(rows: Rows, since: nat, upto: nat)
    requires since <= upto <= |rows|
    ensures var all := Listing(rows, None, since, upto);
            |all| == upto - since && forall k :: 0 <= k < |all| ==> all[k] == (rows[since + k], since + k + 1)
    decreases upto
  {
    if upto > since {
      ListingAll(rows, since, upto - 1);
    }
  }

  lemma {:induction false} ListingGrows(rows: Rows, kind: Option<string>, since: nat, upto: nat, end: nat)
    requires upto <= end <= |rows|
    ensures Listing(rows, kind, since, upto) <= Listing(rows, kind, since, end)
    decreases end
  {
    if upto < end {
      ListingGrows(rows, kind, since, upto, end - 1);
    }
  }

  lemma ListingStep(rows: Rows, kind: Option<string>, since: nat, next: nat)
    requires since <= next < |rows|
    ensures Listing(rows, kind, since, next + 1)
         == Listing(rows, kind, since, next) + if IsKind(rows[next], kind) then [(rows[next], next + 1)] else []
  {
  }

  lemma ListingStarts(rows: Rows, kind: Option<string>, since: nat)
    ensures since >= |rows| ==> Listing(rows, kind, since, |rows|) == []
    ensures since <= |rows| ==> Listing(rows, kind, since, since) == []
  {
  }

  class Store {
    var rows: Rows

    constructor ()
      ensures rows == []
    {
      rows := [];
    }

    /** `INSERT OR IGNORE` keyed by content id. */
    method Insert(e: Envelope) returns (cid: Cid, wasNew: bool)
      modifies this
      ensures cid == CidFor(e)
      ensures wasNew <==> !HasCid(old(rows), cid)
      ensures rows == if wasNew then old(rows) + [e] else old(rows)
    {
      cid := CidFor(e);
      wasNew := !HasCid(rows, cid);
      if wasNew {
        rows := rows + [e];
      }
    }

    /** `list_with_rowid`: the envelopes after `receivedSince`, of one kind if one is given, oldest
        first, with their rowids. */
    method ListWithRowid(kind: Option<string>, receivedSince: nat, limit: int) returns (page: seq<(Envelope, nat)>)
      ensures page == Take(Listing(rows, kind, receivedSince, |rows|), Clamp(limit, 1, 1000))
    {
      hide Listing, IsKind;
      page := [];
      var lim := Clamp(limit, 1, 1000);
      var next := receivedSince;
      ListingStarts(rows, kind, receivedSince);
      while next < |rows| && |page| < lim
        invariant |page| <= lim && next >= receivedSince
        invariant receivedSince <= |rows| ==> next <= |rows| && page == Listing(rows, kind, receivedSince, next)
        invariant receivedSince > |rows| ==> page == []
      {
        ListingStep(rows, kind, receivedSince, next);
        if IsKind(rows[next], kind) {
          page := page + [(rows[next], next + 1)];
        }
        next := next + 1;
      }
      if receivedSince <= |rows| {
        ListingGrows(rows, kind, receivedSince, next, |rows|);
      }
    }

    /** `POST /bundles`: a re-post of a stored envelope is fine, anything else must verify. */
    method Post(e: Envelope, policy: Policy) returns (outcome: PostOutcome)
      requires Vetted(rows, policy)
      modifies this
      ensures Vetted(rows, policy)
      ensures rows == Accept(old(rows), e, policy)
      ensures outcome == if HasCid(old(rows), CidFor(e)) then Created(false)
                         else (match Verify(e, old(rows), policy, None)
                               case Ok(_) => Created(true)
                               case Err(r) => Refused(r))
    {
      AcceptKeepsVetted(rows, e, policy);
      if HasCid(rows, CidFor(e)) {
        LatestIsMax(rows, KeyOf(e));
        return Created(false);
      }
      var v := Verify(e, rows, policy, None);
      if v.Err? {
        return Refused(v.error);
      }
      var _, wasNew := Insert(e);
      return Created(wasNew);
    }
  }

  // ---------- The transcript sink ----------

  datatype BatchIndex = Index(n: int) | Redacted

  datatype Batch = Batch(recordId: string, index: BatchIndex, content: string)

  const TRANSCRIPT := "transcript.batch"

  function BatchKey(recordId: string): Key {
    Key(TRANSCRIPT, recordId)
  }

  function ResolveVersion(rows: Rows, b: Batch): int {
    match b.index
    case Index(n) => n
    case Redacted =>
      var prior := LatestVersion(rows, BatchKey(b.recordId));
      if prior.None? then 0 else prior.value + 1
  }

  function ResolvePrevCid(rows: Rows, recordId: string): Option<Cid> {
    var prior := Latest(rows, BatchKey(recordId));
    if prior.None? then None else Some(CidFor(prior.value))
  }

  /** What the sink signs with. */
  datatype SinkConfig = SinkConfig(author: string, sign: Body -> string, seal: (string, seq<string>) -> string)

  /** `_build_envelope` */
  function BuildFrom(b: Batch, version: int, prevCid: Option<Cid>, signedAt: string,
                     recipients: Option<seq<string>>, cfg: SinkConfig): Envelope
  {
    var sealed := if recipients.Some? then cfg.seal(b.content, recipients.value) else b.content;
    var body := Body(TRANSCRIPT, b.recordId, version, cfg.author, signedAt, prevCid, recipients, sealed);
    Envelope(body, cfg.sign(body))
  }

  /** The envelope whose version and predecessor are both resolved against `rows`. */
  function BuildEnvelope(b: Batch, rows: Rows, signedAt: string, recipients: Option<seq<string>>,
                         cfg: SinkConfig): Envelope
  {
    BuildFrom(b, ResolveVersion(rows, b), ResolvePrevCid(rows, b.recordId), signedAt, recipients, cfg)
  }

  predicate IsBatchOf(e: Envelope, recordId: string) {
    e.body.kind == "transcript.batch" && e.body.recordId == recordId
  }

  /** A numbered batch keeps its number; a redacted one comes one after the newest stored. */
  ghost predicate NumberedFor(version: int, b: Batch, rows: Rows) {
    match b.index
    case Index(n) => version == n
    case Redacted =>
      && (forall e :: e in rows && IsBatchOf(e, b.recordId) ==> e.body.version < version)
      && ((version == 0 && forall e :: e in rows ==> !IsBatchOf(e, b.recordId))
          || exists e :: e in rows && IsBatchOf(e, b.recordId) && e.body.version + 1 == version)
  }

  /** The predecessor named is the batch of the record stored last; none, when there is none. */
  ghost predicate NamesLast(prevCid: Option<Cid>, recordId: string, rows: Rows) {
    match prevCid
    case None => forall e :: e in rows ==> !IsBatchOf(e, recordId)
    case Some(cid) =>
      exists i :: 0 <= i < |rows| && IsBatchOf(rows[i], recordId) && cid == CidOf(rows[i].body)
                  && forall j :: i < j < |rows| ==> !IsBatchOf(rows[j], recordId)
  }

  /** What a sink call writes down: the record and the content given, in the clear or sealed to every
      recipient, under the sink's own author and signature. */
  ghost predicate Carries(e: Envelope, b: Batch, rows: Rows, signedAt: string, recipients: Option<seq<string>>,
                          cfg: SinkConfig)
  {
    && IsBatchOf(e, b.recordId)
    && e.body.author == cfg.author && e.body.signedAt == signedAt && e.signature == cfg.sign(e.body)
    && e.body.recipients == recipients
    && (recipients.None? ==> e.body.payload == b.content)
    && (recipients.Some? ==> e.body.payload == cfg.seal(b.content, recipients.value))
    && NumberedFor(e.body.version, b, rows)
    && NamesLast(e.body.prevCid, b.recordId, rows)
  }

  lemma PrevNamesLast(rows: Rows, recordId: string)
    requires Ordered(rows)
    ensures NamesLast(ResolvePrevCid(rows, recordId), recordId, rows)
  {
    var top := Latest(rows, BatchKey(recordId));
    LatestIsMax(rows, BatchKey(recordId));
    hide Latest;
    if top.Some? {
      var i :| 0 <= i < |rows| && rows[i] == top.value;
      assert IsBatchOf(rows[i], recordId);
    } else {
      forall e | e in rows ensures !IsBatchOf(e, recordId) {
        var i :| 0 <= i < |rows| && rows[i] == e;
      }
    }
  }

  lemma VersionIsNumbered(rows: Rows, b: Batch)
    ensures NumberedFor(ResolveVersion(rows, b), b, rows)
  {
    var top := Latest(rows, BatchKey(b.recordId));
    LatestIsMax(rows, BatchKey(b.recordId));
    hide Latest;
    forall e | e in rows && IsBatchOf(e, b.recordId)
      ensures top.Some? && e.body.version <= top.value.body.version
    {
      var i :| 0 <= i < |rows| && rows[i] == e;
      assert KeyOf(rows[i]) == BatchKey(b.recordId);
    }
    if top.Some? {
      assert IsBatchOf(top.value, b.recordId);
    }
  }

  lemma BuiltCarries(b: Batch, rows: Rows, signedAt: string, recipients: Option<seq<string>>, cfg: SinkConfig)
    requires Ordered(rows)
    ensures Carries(BuildEnvelope(b, rows, signedAt, recipients, cfg), b, rows, signedAt, recipients, cfg)
  {
    PrevNamesLast(rows, b.recordId);
    VersionIsNumbered(rows, b);
    hide Ordered, NumberedFor, NamesLast, ResolveVersion, ResolvePrevCid;
  }

  function IsOf(key: Key): Envelope -> bool {
    (e: Envelope) => KeyOf(e) == key
  }

  /** The stored batches of one record, in rowid order. */
  function Record(rows: Rows, key: Key): seq<Envelope> {
    Filter(rows, IsOf(key))
  }

  function PrevOf(batches: seq<Envelope>): Option<Cid> {
    if batches == [] then None else Some(CidFor(batches[|batches| - 1]))
  }

  /** The batches form one chain: each names the one stored just before it, the first names none. */
  ghost predicate Chained(batches: seq<Envelope>) {
    forall k :: 0 <= k < |batches| ==> batches[k].body.prevCid == PrevOf(batches[..k])
  }

  lemma RecordSnoc(rows: Rows, e: Envelope, key: Key)
    ensures Record(rows + [e], key) == Record(rows, key) + if KeyOf(e) == key then [e] else []
  {
    FilterConcat(rows, [e], IsOf(key));
  }

  ghost predicate Increasing(batches: seq<Envelope>) {
    forall i, j :: 0 <= i < j < |batches| ==> batches[i].body.version < batches[j].body.version
  }

  lemma {:induction false} RecordIncreases(rows: Rows, key: Key)
    requires Ordered(rows)
    ensures Increasing(Record(rows, key))
    decreases |rows|
  {
    if rows != [] {
      var some, e := rows[..|rows| - 1], rows[|rows| - 1];
      assert rows == some + [e];
      RecordIncreases(some, key);
      RecordSnoc(some, e, key);
      var batches := Record(some, key);
      forall i | 0 <= i < |batches| && KeyOf(e) == key ensures batches[i].body.version < e.body.version {
        assert batches[i] in some;
      }
    }
  }

  lemma {:induction false} LatestIsLast(rows: Rows, key: Key)
    requires Ordered(rows)
    ensures var batches := Record(rows, key);
            Latest(rows, key) == if batches == [] then None else Some(batches[|batches| - 1])
    decreases |rows|
  {
    if rows != [] {
      var n := |rows| - 1;
      var some, e := rows[..n], rows[n];
      assert rows == some + [e];
      LatestIsLast(some, key);
      RecordSnoc(some, e, key);
      LatestSnoc(some, e, key);
      LatestIsMax(some, key);
      hide Filter, Record, Latest;
      if KeyOf(e) == key && Latest(some, key).Some? {
        var i :| 0 <= i < n && some[i] == Latest(some, key).value;
        assert rows[i].body.version < rows[n].body.version;
      }
    }
  }

  lemma ChainSnocIff(batches: seq<Envelope>, e: Envelope)
    requires Chained(batches)
    ensures Chained(batches + [e]) <==> e.body.prevCid == PrevOf(batches)
  {
    var longer, n := batches + [e], |batches|;
    assert longer[n] == e && longer[..n] == batches;
    forall k | 0 <= k < n ensures longer[k] == batches[k] && longer[..k] == batches[..k] {
    }
  }

  /** In an ordered store the predecessor the sink resolves is the batch stored last. */
  lemma ResolvesLast(rows: Rows, recordId: string)
    requires Ordered(rows)
    ensures ResolvePrevCid(rows, recordId) == PrevOf(Record(rows, BatchKey(recordId)))
  {
    LatestIsLast(rows, BatchKey(recordId));
  }

  /** Storing a batch keeps its record a single chain exactly when it names the batch stored last. */
  lemma StoreKeepsChainIff(rows: Rows, e: Envelope)
    requires Chained(Record(rows, KeyOf(e)))
    ensures Chained(Record(rows + [e], KeyOf(e))) <==> e.body.prevCid == PrevOf(Record(rows, KeyOf(e)))
  {
    hide Record, Chained, PrevOf;
    RecordSnoc(rows, e, KeyOf(e));
    ChainSnocIff(Record(rows, KeyOf(e)), e);
  }

  /** A sink call that resolves, verifies and stores without another writer in between keeps the chain. */
  lemma AtomicSinkChains(rows: Rows, b: Batch, signedAt: string, recipients: Option<seq<string>>, cfg: SinkConfig)
    requires Ordered(rows) && Chained(Record(rows, BatchKey(b.recordId)))
    ensures Chained(Record(rows + [BuildEnvelope(b, rows, signedAt, recipients, cfg)], BatchKey(b.recordId)))
  {
    hide Record, Chained, Latest, PrevOf, ResolvePrevCid;
    ResolvesLast(rows, b.recordId);
    StoreKeepsChainIff(rows, BuildEnvelope(b, rows, signedAt, recipients, cfg));
  }

  /** Whatever is stored for a record lands strictly after everything stored before it; a redacted
      batch resolved against the same store is never refused as stale. */
  lemma RedactedLandsLast(rows: Rows, b: Batch, signedAt: string, recipients: Option<seq<string>>, cfg: SinkConfig,
                          policy: Policy, reservoir: Option<set<string>>)
    requires b.index.Redacted?
    ensures var e := BuildEnvelope(b, rows, signedAt, recipients, cfg);
            && (forall i :: 0 <= i < |rows| && KeyOf(rows[i]) == BatchKey(b.recordId) ==>
                 rows[i].body.version < e.body.version)
            && (policy.shape(e).None? ==> Verify(e, rows, policy, reservoir) != Err(VersionNotMonotonic))
  {
    LatestIsMax(rows, BatchKey(b.recordId));
  }

  lemma PrevMovesOn(earlier: seq<Envelope>, later: seq<Envelope>)
    requires Increasing(earlier + later)
    ensures PrevOf(earlier + later) == PrevOf(earlier) <==> later == []
  {
    var all := earlier + later;
    if earlier != [] && later != [] {
      assert all[|earlier| - 1].body.version < all[|all| - 1].body.version;
    }
  }

  lemma RecordEmptyIff(rows: Rows, key: Key)
    ensures Record(rows, key) == [] <==> forall i :: 0 <= i < |rows| ==> KeyOf(rows[i]) != key
  {
    if Record(rows, key) == [] {
      forall i | 0 <= i < |rows| ensures KeyOf(rows[i]) != key {
        assert rows[i] in rows && rows[i] !in Record(rows, key);
      }
    } else {
      FilterNoneIfNoKey(rows, key);
    }
  }

  lemma FilterNoneIfNoKey(rows: Rows, key: Key)
    ensures (forall i :: 0 <= i < |rows| ==> KeyOf(rows[i]) != key) ==> Record(rows, key) == []
  {
    if forall i :: 0 <= i < |rows| ==> KeyOf(rows[i]) != key {
      FilterNone(rows, IsOf(key));
    }
  }

  ghost predicate NoneLanded(seen: Rows, rows: Rows, key: Key) {
    forall i :: |seen| <= i < |rows| ==> KeyOf(rows[i]) != key
  }

  /** An envelope that names the newest batch of an older store, appended to a newer one. */
  lemma StaleLinkForksIff(seen: Rows, rows: Rows, e: Envelope)
    requires Ordered(rows) && seen <= rows && Chained(Record(rows, KeyOf(e)))
    requires e.body.kind == TRANSCRIPT && e.body.prevCid == ResolvePrevCid(seen, e.body.recordId)
    ensures Chained(Record(rows + [e], KeyOf(e))) <==> NoneLanded(seen, rows, KeyOf(e))
  {
    var key := KeyOf(e);
    assert key == BatchKey(e.body.recordId);
    hide *;
    var later := rows[|seen|..];
    assert rows == seen + later;
    PrefixOrdered(seen, rows);
    ResolvesLast(seen, e.body.recordId);
    StoreKeepsChainIff(rows, e);
    RecordConcat(seen, later, key);
    RecordIncreases(rows, key);
    PrevMovesOn(Record(seen, key), Record(later, key));
    RecordEmptyIff(later, key);
    NoneLandedIff(seen, later, key);
  }

  lemma NoneLandedIff(seen: Rows, later: Rows, key: Key)
    ensures NoneLanded(seen, seen + later, key) <==> forall i :: 0 <= i < |later| ==> KeyOf(later[i]) != key
  {
    assert forall k :: 0 <= k < |later| ==> later[k] == (seen + later)[|seen| + k];
  }

  /** The envelope of a sink call whose three reads of the store find it ever newer: the version is
      resolved against `first`, the predecessor against `seen`. */
  function Raced(b: Batch, first: Rows, seen: Rows, signedAt: string, recipients: Option<seq<string>>,
                 cfg: SinkConfig): Envelope
  {
    BuildFrom(b, ResolveVersion(first, b), ResolvePrevCid(seen, b.recordId), signedAt, recipients, cfg)
  }

  /** Sink calls racing: a call that resolves against older stores and then verifies and inserts into
      the current one keeps the transcript one chain exactly when no batch landed since its look at
      the predecessor, or the verifier turns its envelope away: as unfit, or as no longer the newest. */
  lemma RacingSinkForksIff(first: Rows, seen: Rows, rows: Rows, b: Batch, signedAt: string,
                           recipients: Option<seq<string>>, cfg: SinkConfig, policy: Policy)
    requires policy.Valid() && Ordered(rows) && first <= seen <= rows && Chained(Record(rows, BatchKey(b.recordId)))
    ensures var e := Raced(b, first, seen, signedAt, recipients, cfg);
            (Chained(Record(Accept(rows, e, policy), BatchKey(b.recordId))) <==>
              NoneLanded(seen, rows, BatchKey(b.recordId)) || !Fits(e, policy)
                || e.body.version <= Height(rows, BatchKey(b.recordId)))
  {
    var e := Raced(b, first, seen, signedAt, recipients, cfg);
    assert KeyOf(e) == BatchKey(b.recordId);
    AcceptedIffNewer(e, rows, policy);
    StaleLinkForksIff(seen, rows, e);
    hide Record, Chained, Ordered, Height, Fits, ResolvePrevCid, ResolveVersion;
  }

  /** A racing redacted batch never forks the chain: when another batch lands first, it is stale. */
  lemma RacingRedactedNeverForks(first: Rows, seen: Rows, rows: Rows, b: Batch, signedAt: string,
                                 recipients: Option<seq<string>>, cfg: SinkConfig, policy: Policy)
    requires policy.Valid() && Vetted(rows, policy) && first <= seen <= rows
               && Chained(Record(rows, BatchKey(b.recordId)))
    requires b.index.Redacted?
    ensures var e := Raced(b, first, seen, signedAt, recipients, cfg);
            Chained(Record(Accept(rows, e, policy), BatchKey(b.recordId)))
  {
    var key := BatchKey(b.recordId);
    RacingSinkForksIff(first, seen, rows, b, signedAt, recipients, cfg, policy);
    hide Record, Chained, Accept, Fits, Height;
    if i :| |seen| <= i < |rows| && KeyOf(rows[i]) == key {
      StoredNotNegative(rows, i, policy);
      RedactedIsStale(first, rows, i, b);
    }
  }

  lemma StoredNotNegative(rows: Rows, i: nat, policy: Policy)
    requires policy.Valid() && Vetted(rows, policy) && i < |rows|
    ensures rows[i].body.version >= 0
  {
    assert rows[i] in rows;
  }

  lemma RedactedIsStale(first: Rows, rows: Rows, i: nat, b: Batch)
    requires Ordered(rows) && first <= rows && |first| <= i < |rows| && KeyOf(rows[i]) == BatchKey(b.recordId)
    requires rows[i].body.version >= 0 && b.index.Redacted?
    ensures ResolveVersion(first, b) <= Height(rows, BatchKey(b.recordId))
  {
    LatestIsMax(first, BatchKey(b.recordId));
    LatestIsMax(rows, BatchKey(b.recordId));
    hide Latest;
    if Latest(first, BatchKey(b.recordId)).Some? {
      var k :| 0 <= k < |first| && first[k] == Latest(first, BatchKey(b.recordId)).value;
      assert rows[k] == first[k];
    }
  }

  /** A policy that lets in everything with a version and one author's batches. */
  function OpenPolicy(author: string): Policy {
    Policy((e: Envelope) => if e.body.version < 0 then Some(ShapeInvalid) else None, {author}, (e: Envelope) => true)
  }

  /** Two numbered batches racing for a new record: both are stored, and neither names the other. */
  lemma RacingNumberedForks(recordId: string, m: nat, n: nat, one: string, two: string, signedAt: string,
                            cfg: SinkConfig)
    requires m < n
    ensures var policy := OpenPolicy(cfg.author);
            var d := Raced(Batch(recordId, Index(m), one), [], [], signedAt, None, cfg);
            var e := Raced(Batch(recordId, Index(n), two), [], [], signedAt, None, cfg);
            && policy.Valid()
            && Accept(Accept([], d, policy), e, policy) == [d, e]
            && !Chained(Record([d, e], BatchKey(recordId)))
  {
    var policy := OpenPolicy(cfg.author);
    var key := BatchKey(recordId);
    var d := Raced(Batch(recordId, Index(m), one), [], [], signedAt, None, cfg);
    var e := Raced(Batch(recordId, Index(n), two), [], [], signedAt, None, cfg);
    assert KeyOf(d) == KeyOf(e) == key;
    assert [d][..0] == [] && [] + [d] == [d] && [d] + [e] == [d, e];
    assert Latest([d], key) == Some(d);
    assert Record([d], key) == [d];
    assert Chained([d]);
    StaleLinkForksIff([], [d], e);
  }

  lemma PrefixOrdered(seen: Rows, rows: Rows)
    requires seen <= rows && Ordered(rows)
    ensures Ordered(seen)
  {
  }

  lemma RecordConcat(a: Rows, b: Rows, key: Key)
    ensures Record(a + b, key) == Record(a, key) + Record(b, key)
  {
    FilterConcat(a, b, IsOf(key));
  }

  // ---------- Stores over whole runs ----------

  /** Everything that writes to a node's store: peers and clients, and the node's own sink. */
  datatype Write =
    | Offered(e: Envelope)
    | Sunk(b: Batch, signedAt: string, recipients: Option<seq<string>>)

  /** One write, verified and inserted in a single step. */
  function AfterWrite(rows: Rows, w: Write, cfg: SinkConfig, policy: Policy): Rows {
    match w
    case Offered(e) => Accept(rows, e, policy)
    case Sunk(b, signedAt, recipients) => Accept(rows, BuildEnvelope(b, rows, signedAt, recipients, cfg), policy)
  }

  function AfterWrites(rows: Rows, writes: seq<Write>, cfg: SinkConfig, policy: Policy): Rows
    decreases |writes|
  {
    if writes == [] then rows
    else AfterWrite(AfterWrites(rows, writes[..|writes| - 1], cfg, policy), writes[|writes| - 1], cfg, policy)
  }

  /** In every reachable store the versions of each record strictly increase with the rowid; and a
      transcript nobody but the sink writes to is a single chain. */
  lemma {:induction false} StoreAlwaysOrdered(writes: seq<Write>, cfg: SinkConfig, policy: Policy, recordId: string)
    ensures var rows := AfterWrites([], writes, cfg, policy);
            && Vetted(rows, policy)
            && (forall key :: Increasing(Record(rows, key)))
            && ((forall w :: w in writes && w.Offered? ==> KeyOf(w.e) != BatchKey(recordId)) ==>
                 Chained(Record(rows, BatchKey(recordId))))
    decreases |writes|
  {
    var rows := AfterWrites([], writes, cfg, policy);
    if writes != [] {
      var n := |writes| - 1;
      var before := AfterWrites([], writes[..n], cfg, policy);
      StoreAlwaysOrdered(writes[..n], cfg, policy, recordId);
      WriteKeeps(before, writes[n], cfg, policy, recordId);
      assert writes[n] in writes;
      assert forall w :: w in writes[..n] ==> w in writes;
    }
    hide AfterWrites, AfterWrite, Record;
    forall key ensures Increasing(Record(rows, key)) {
      RecordIncreases(rows, key);
    }
  }

  lemma WriteKeeps(rows: Rows, w: Write, cfg: SinkConfig, policy: Policy, recordId: string)
    requires Vetted(rows, policy)
    ensures Vetted(AfterWrite(rows, w, cfg, policy), policy)
    ensures (w.Offered? ==> KeyOf(w.e) != BatchKey(recordId)) && Chained(Record(rows, BatchKey(recordId)))
            ==> Chained(Record(AfterWrite(rows, w, cfg, policy), BatchKey(recordId)))
  {
    var e := if w.Offered? then w.e else BuildEnvelope(w.b, rows, w.signedAt, w.recipients, cfg);
    hide Record, Chained, Verify, Ordered;
    AcceptKeepsVetted(rows, e, policy);
    RecordSnoc(rows, e, BatchKey(recordId));
    if Chained(Record(rows, BatchKey(recordId))) && KeyOf(e) == BatchKey(recordId) && w.Sunk? {
      AtomicSinkChains(rows, w.b, w.signedAt, w.recipients, cfg);
    }
  }

  datatype SinkStatus =
    | Stored(cid: Cid, wasNew: bool)
    | EncryptionNotConfigured
    | InvalidPayload
    | SinkMisconfigured(detail: Reason)
    | Conflict
    | BuildFailed(why: Reason)

  class Sink {
    const store: Store
    const cfg: SinkConfig
    const policy: Policy

    constructor (store: Store, cfg: SinkConfig, policy: Policy)
      ensures this.store == store && this.cfg == cfg && this.policy == policy
    {
      this.store, this.cfg, this.policy := store, cfg, policy;
    }

    /** `persist_transcript_batch`, with no other writer in between. `reservoir` is given when the
        batch is to be encrypted, to every key in it. */
    method Persist(b: Batch, payloadOk: bool, signedAt: string, reservoir: Option<seq<string>>)
      returns (status: SinkStatus)
      requires Vetted(store.rows, policy)
      modifies store
      ensures Vetted(store.rows, policy)
      ensures status.EncryptionNotConfigured? <==> reservoir == Some([])
      ensures status.InvalidPayload? <==> reservoir != Some([]) && !payloadOk
      ensures !status.Stored? ==> store.rows == old(store.rows)
      ensures reservoir != Some([]) && payloadOk ==>
                var e := BuildEnvelope(b, old(store.rows), signedAt, reservoir, cfg);
                && Carries(e, b, old(store.rows), signedAt, reservoir, cfg)
                && store.rows == (if status.Stored? then old(store.rows) + [e] else old(store.rows))
                && (match Verify(e, old(store.rows), policy, None)
                    case Ok(_) => status == Stored(CidFor(e), true)
                    case Err(AuthorNotAlchemist) => status == SinkMisconfigured(AuthorNotAlchemist)
                    case Err(SignatureInvalid) => status == SinkMisconfigured(SignatureInvalid)
                    case Err(VersionNotMonotonic) => status == Conflict
                    case Err(r) => status == BuildFailed(r))
      ensures Chained(Record(old(store.rows), BatchKey(b.recordId))) ==>
                Chained(Record(store.rows, BatchKey(b.recordId)))
    {
      if reservoir == Some([]) {
        return EncryptionNotConfigured;
      }
      if !payloadOk {
        return InvalidPayload;
      }
      var recipients: Option<set<string>> := None;
      if reservoir.Some? {
        recipients := Some(set r | r in reservoir.value);
      }
      var e := BuildEnvelope(b, store.rows, signedAt, reservoir, cfg);
      BuiltCarries(b, store.rows, signedAt, reservoir, cfg);
      hide Carries;
      var v := Verify(e, store.rows, policy, recipients);
      assert v == Verify(e, store.rows, policy, None);
      WriteKeeps(store.rows, Sunk(b, signedAt, reservoir), cfg, policy, b.recordId);
      if v.Err? {
        match v.error {
          case AuthorNotAlchemist => return SinkMisconfigured(v.error);
          case SignatureInvalid => return SinkMisconfigured(v.error);
          case VersionNotMonotonic => return Conflict;
          case _ => return BuildFailed(v.error);
        }
      }
      InsertKeepsVetted(store.rows, e, policy, recipients);
      var cid, wasNew := store.Insert(e);
      return Stored(cid, wasNew);
    }
  }
}
