/** The peers file: the text `save_peers` writes and the two hand-written parsers that read it. */
module PeersFile {
  import opened Wrappers
  import opened Strings

  datatype Peer = Peer(name: string, url: string, pubkey: Option<string>)

  // ---------- Fields ----------

  /** What comes before the first colon: everything when there is none. */
  function Key(s: string): (k: string)
    ensures k <= s && ':' !in k && (|k| < |s| ==> s[|k|] == ':')
  {
    if s == "" || s[0] == ':' then "" else [s[0]] + Key(s[1..])
  }

  predicate HasColon(s: string) {
    |Key(s)| < |s|
  }

  function Value(s: string): string
    requires HasColon(s)
  {
    s[|Key(s)| + 1..]
  }

  // ---------- The writer ----------

  function PeerLines(p: Peer): seq<string> {
    ["  - name: " + p.name, "    url: " + p.url]
    + if p.pubkey.Some? && p.pubkey.value != "" then ["    pubkey: " + p.pubkey.value] else []
  }

  function AllLines(peers: seq<Peer>): seq<string> {
    if peers == [] then [] else AllLines(peers[..|peers| - 1]) + PeerLines(peers[|peers| - 1])
  }

  const TITLE := "# Managed by `swf-peer`." + " Hand-editing is fine."

  const PEERS := "peers:"

  function Header(): seq<string> {
    [TITLE, PEERS]
  }

  function FileLines(peers: seq<Peer>): (lines: seq<string>)
    ensures |lines| > 0
  {
    Header() + if peers == [] then ["  []"] else AllLines(peers)
  }

  /** `"\n".join(lines)` */
  function Join(lines: seq<string>): string {
    if lines == [] then ""
    else if |lines| == 1 then lines[0]
    else lines[0] + "\n" + Join(lines[1..])
  }

  method SavePeers(peers: seq<Peer>) returns (body: string)
    ensures body == Join(FileLines(peers)) + "\n"
  {
    var lines := Header();
    if peers == [] {
      lines := lines + ["  []"];
    }
    for i := 0 to |peers|
      invariant peers == [] ==> lines == Header() + ["  []"]
      invariant peers != [] ==> lines == Header() + AllLines(peers[..i])
    {
      var p := peers[i];
      ghost var before := lines;
      lines := lines + ["  - name: " + p.name];
      lines := lines + ["    url: " + p.url];
      if p.pubkey.Some? && p.pubkey.value != "" {
        lines := lines + ["    pubkey: " + p.pubkey.value];
      }
      assert lines == before + PeerLines(p);
      assert peers[..i + 1][..i] == peers[..i];
    }
    assert peers[..|peers|] == peers;
    body := Join(lines) + "\n";
  }

  // ---------- The first parser ----------

  /** A reader going over the lines, first to last. */
  function Fold<R>(step: (R, string) -> R, r: R, lines: seq<string>): R {
    if lines == [] then r else step(Fold(step, r, lines[..|lines| - 1]), lines[|lines| - 1])
  }

  const NAME := "name"

  const URL := "url"

  const PUBKEY := "pubkey"

  type Dict = map<string, Option<string>>

  function Get(cur: Dict, key: string): Option<string> {
    if key in cur then cur[key] else None
  }

  /** `(cur.get(key) or "").strip()` */
  function Field(cur: Dict, key: string): string {
    var v := Get(cur, key);
    if v.Some? then Strip(v.value) else ""
  }

  function Commit(cur: Dict, peers: seq<Peer>): seq<Peer> {
    if Field(cur, NAME) == "" || Field(cur, URL) == "" then peers
    else peers + [Peer(Field(cur, NAME), Field(cur, URL), Get(cur, PUBKEY))]
  }

  /** The entry being read, if any, and the peers committed so far. */
  datatype Reader = Reader(cur: Option<Dict>, peers: seq<Peer>)

  /** An empty dictionary is as good as none. */
  function Flush(r: Reader): seq<Peer> {
    if r.cur.Some? && r.cur.value != map[] then Commit(r.cur.value, r.peers) else r.peers
  }

  function NonEmpty(s: string): Option<string> {
    if s == "" then None else Some(s)
  }

  function ReadField(r: Reader, s: string): Reader {
    if r.cur.None? || !HasColon(s) then r
    else r.(cur := Some(r.cur.value[Strip(Key(s)) := NonEmpty(Strip(Value(s)))]))
  }

  function ReadLine(r: Reader, line: string): Reader {
    var s := Strip(line);
    if s == "" || s[0] == '#' || s == PEERS then r
    else if "- " <= s then ReadField(Reader(Some(map[]), Flush(r)), s[2..])
    else ReadField(r, s)
  }

  function ParsePlain(text: string): seq<Peer> {
    Flush(Fold(ReadLine, Reader(None, []), SplitLines(text)))
  }

  /** `_parse_peers_plain` */
  method ParsePeersPlain(text: string) returns (peers: seq<Peer>)
    ensures peers == ParsePlain(text)
  {
    var lines := SplitLines(text);
    peers := [];
    var cur: Option<Dict> := None;
    for i := 0 to |lines|
      invariant Reader(cur, peers) == Fold(ReadLine, Reader(None, []), lines[..i])
    {
      assert lines[..i + 1][..i] == lines[..i];
      var s := Strip(lines[i]);
      if s == "" || s[0] == '#' {
        continue;
      }
      if s == PEERS {
        continue;
      }
      if "- " <= s {
        if cur.Some? && cur.value != map[] {
          peers := Commit(cur.value, peers);
        }
        cur := Some(map[]);
        s := s[2..];
      }
      if cur.None? {
        continue;
      }
      if HasColon(s) {
        cur := Some(cur.value[Strip(Key(s)) := NonEmpty(Strip(Value(s)))]);
      }
    }
    assert lines[..|lines|] == lines;
    if cur.Some? && cur.value != map[] {
      peers := Commit(cur.value, peers);
    }
  }

  // ---------- The second parser ----------

  /** The URL being read, if any, and the URLs found so far. */
  datatype UrlReader = UrlReader(url: Option<string>, urls: seq<string>)

  function FlushUrl(r: UrlReader): seq<string> {
    if r.url.Some? then r.urls + [RStripSlash(r.url.value)] else r.urls
  }

  function ReadUrlField(r: UrlReader, s: string): UrlReader {
    if HasColon(s) && Strip(Key(s)) == URL && Strip(Value(s)) != "" then r.(url := Some(Strip(Value(s)))) else r
  }

  function ReadUrlLine(r: UrlReader, line: string): UrlReader {
    var s := Strip(line);
    if s == "" || s[0] == '#' || s == PEERS then r
    else if "- " <= s || "-\n" <= s || s == "-" then
      ReadUrlField(UrlReader(None, FlushUrl(r)), if "- " <= s then s[2..] else "")
    else ReadUrlField(r, s)
  }

  function UrlsOf(text: string): seq<string> {
    FlushUrl(Fold(ReadUrlLine, UrlReader(None, []), SplitLines(text)))
  }

  /** An extra URL is added unless it is empty or already there. */
  function WithExtra(urls: seq<string>, part: string): seq<string> {
    var u := RStripSlash(Strip(part));
    if u != "" && u !in urls then urls + [u] else urls
  }

  function WithExtras(urls: seq<string>, parts: seq<string>): seq<string> {
    if parts == [] then urls else WithExtra(WithExtras(urls, parts[..|parts| - 1]), parts[|parts| - 1])
  }

  ghost predicate NoRepeatsPast(urls: seq<string>, n: nat) {
    forall i, j :: 0 <= i < j < |urls| && j >= n ==> urls[i] != urls[j]
  }

  /** `u` is what one of the parts names. */
  ghost predicate Named(parts: seq<string>, u: string) {
    u != "" && exists k :: 0 <= k < |parts| && RStripSlash(Strip(parts[k])) == u
  }

  lemma NamedSnoc(parts: seq<string>, part: string, u: string)
    ensures Named(parts + [part], u) <==> Named(parts, u) || (u != "" && RStripSlash(Strip(part)) == u)
  {
    hide Strip, RStripSlash;
    var longer := parts + [part];
    assert longer[|parts|] == part;
    if k :| 0 <= k < |parts| && RStripSlash(Strip(parts[k])) == u {
      assert longer[k] == parts[k];
    }
  }

  /** The extras come after the file's own URLs: every non-empty one is there, each once, nothing
      that is in the file is repeated, and nothing else is added. */
  lemma {:induction false} ExtrasExact(urls: seq<string>, parts: seq<string>)
    ensures var all := WithExtras(urls, parts);
            && urls <= all && NoRepeatsPast(all, |urls|)
            && forall u :: u in all <==> u in urls || Named(parts, u)
    decreases |parts|
  {
    if parts != [] {
      var n := |parts| - 1;
      var some, last := parts[..n], parts[n];
      assert parts == some + [last];
      ExtrasExact(urls, some);
      hide Strip, RStripSlash, Named;
      forall u ensures Named(parts, u) <==> Named(some, u) || (u != "" && RStripSlash(Strip(last)) == u) {
        NamedSnoc(some, last, u);
      }
    } else {
      assert forall u :: !Named(parts, u);
    }
  }

  /** `_load_peer_urls`: the URLs of the file, then those of the environment. */
  method LoadPeerUrls(text: string, envExtra: string) returns (urls: seq<string>)
    ensures urls == WithExtras(UrlsOf(text), SplitCommas(Strip(envExtra)))
  {
    urls := FileUrls(text);
    ghost var own := urls;
    var parts := SplitCommas(Strip(envExtra));
    for i := 0 to |parts|
      invariant urls == WithExtras(own, parts[..i])
    {
      assert parts[..i + 1][..i] == parts[..i];
      var u := RStripSlash(Strip(parts[i]));
      if u != "" && u !in urls {
        urls := urls + [u];
      }
    }
    assert parts[..|parts|] == parts;
  }

  /** The line loop of `_load_peer_urls`. */
  method FileUrls(text: string) returns (urls: seq<string>)
    ensures urls == UrlsOf(text)
  {
    var lines := SplitLines(text);
    urls := [];
    var curUrl: Option<string> := None;
    for i := 0 to |lines|
      invariant UrlReader(curUrl, urls) == Fold(ReadUrlLine, UrlReader(None, []), lines[..i])
    {
      assert lines[..i + 1][..i] == lines[..i];
      var s := Strip(lines[i]);
      if s == "" || s[0] == '#' {
        continue;
      }
      if s == PEERS {
        continue;
      }
      if "- " <= s || "-\n" <= s || s == "-" {
        if curUrl.Some? {
          urls := urls + [RStripSlash(curUrl.value)];
        }
        curUrl := None;
        s := if "- " <= s then s[2..] else "";
      }
      if HasColon(s) {
        var k := Strip(Key(s));
        var v := Strip(Value(s));
        if k == URL && v != "" {
          curUrl := Some(v);
        }
      }
    }
    assert lines[..|lines|] == lines;
    if curUrl.Some? {
      urls := urls + [RStripSlash(curUrl.value)];
    }
  }

  // ---------- Cutting what was joined ----------

  ghost predicate Clean(p: Peer) {
    CleanText(p.name) && CleanText(p.url) && (p.pubkey.Some? ==> CleanText(p.pubkey.value))
  }

  lemma {:induction false} FirstLineOf(w: string, rest: string)
    requires OneLine(w) && (rest != "" ==> IsBreak(rest[0]))
    ensures FirstLine(w + rest) == w
    decreases |w|
  {
    hide IsBreak;
    if w == "" {
      assert w + rest == rest;
    } else {
      assert (w + rest)[1..] == w[1..] + rest && !IsBreak(w[0]);
      FirstLineOf(w[1..], rest);
    }
  }

  lemma NewlineBreaks()
    ensures IsBreak('\n')
  {
  }

  lemma SplitFirst(w: string, more: string)
    requires OneLine(w)
    ensures SplitLines(w + ("\n" + more)) == [w] + SplitLines(more)
  {
    NewlineBreaks();
    hide IsBreak, OneLine, FirstLine;
    var rest := "\n" + more;
    FirstLineOf(w, rest);
    assert (w + rest)[|w| + 1..] == more;
  }

  lemma SplitNothing()
    ensures SplitLines("") == []
  {
  }

  lemma JoinStep(lines: seq<string>)
    requires lines != []
    ensures Join(lines) + "\n" == lines[0] + ("\n" + if |lines| == 1 then "" else Join(lines[1..]) + "\n")
  {
  }

  lemma {:induction false} SplitJoined(lines: seq<string>)
    requires lines != [] && forall k :: 0 <= k < |lines| ==> OneLine(lines[k])
    ensures SplitLines(Join(lines) + "\n") == lines
    decreases |lines|
  {
    hide Join, SplitLines, OneLine;
    JoinStep(lines);
    if |lines| == 1 {
      SplitFirst(lines[0], "");
      SplitNothing();
    } else {
      SplitJoined(lines[1..]);
      SplitFirst(lines[0], Join(lines[1..]) + "\n");
    }
  }

  lemma {:induction false} KeyOf(k: string, rest: string)
    requires ':' !in k && (rest != "" ==> rest[0] == ':')
    ensures Key(k + rest) == k
    decreases |k|
  {
    if k == "" {
      assert k + rest == rest;
    } else {
      assert (k + rest)[1..] == k[1..] + rest && k[0] in k;
      KeyOf(k[1..], rest);
    }
  }

  /** A field as the writer prints it. */
  function Printed(k: string, v: string): string {
    k + (": " + v)
  }

  lemma ColonFound(k: string, more: string)
    requires ':' !in k
    ensures var s := k + (":" + more); HasColon(s) && Key(s) == k && Value(s) == more
  {
    var s := k + (":" + more);
    KeyOf(k, ":" + more);
    assert s[|k| + 1..] == more;
  }

  lemma StripSpace(s: string)
    requires CleanText(s)
    ensures Strip(" " + s) == s
  {
    StripIndent(" ", s);
  }

  /** A printed field, read back. */
  lemma FieldRead(k: string, v: string)
    requires CleanText(k) && ':' !in k && CleanText(v)
    ensures HasColon(Printed(k, v)) && Strip(Key(Printed(k, v))) == k && Strip(Value(Printed(k, v))) == v
  {
    hide *;
    ColonThenSpace(k, v);
    ColonFound(k, " " + v);
    StripSelf(k);
    StripSpace(v);
  }

  lemma ColonThenSpace(k: string, v: string)
    ensures Printed(k, v) == k + (":" + (" " + v))
  {
    assert ":" + (" " + v) == ": " + v;
  }

  lemma ReadFieldIs(r: Reader, s: string, k: string, v: string)
    requires r.cur.Some? && HasColon(s) && Strip(Key(s)) == k && Strip(Value(s)) == v && v != ""
    ensures ReadField(r, s) == r.(cur := Some(r.cur.value[k := Some(v)]))
  {
    hide Strip, Key, Value, HasColon;
  }

  lemma ReadPrinted(r: Reader, k: string, v: string)
    requires r.cur.Some? && CleanText(k) && ':' !in k && CleanText(v)
    ensures ReadField(r, Printed(k, v)) == r.(cur := Some(r.cur.value[k := Some(v)]))
  {
    hide *;
    FieldRead(k, v);
    CleanNotEmpty(v);
    ReadFieldIs(r, Printed(k, v), k, v);
  }

  lemma ReadUrlPrinted(u: UrlReader, k: string, v: string)
    requires CleanText(k) && ':' !in k && CleanText(v)
    ensures ReadUrlField(u, Printed(k, v)) == if k == URL then u.(url := Some(v)) else u
  {
    hide IsSpace, IsBreak;
    FieldRead(k, v);
    assert v != "";
    hide Strip, Key, Value, HasColon, Printed, CleanText;
  }

  /** A line that opens an entry, and one that does not. */
  lemma ReadOpening(r: Reader, u: UrlReader, line: string, field: string)
    requires Strip(line) == "- " + field
    ensures ReadLine(r, line) == ReadField(Reader(Some(map[]), Flush(r)), field)
    ensures ReadUrlLine(u, line) == ReadUrlField(UrlReader(None, FlushUrl(u)), field)
  {
    var s := "- " + field;
    assert s[0] == '-' && s[2..] == field && "- " <= s;
    assert s != PEERS;
    hide Strip, ReadField, ReadUrlField, Flush, FlushUrl;
  }

  lemma ReadInside(r: Reader, u: UrlReader, line: string, s: string)
    requires Strip(line) == s && s != "" && s[0] != '#' && s[0] != '-' && s != PEERS
    ensures ReadLine(r, line) == ReadField(r, s) && ReadUrlLine(u, line) == ReadUrlField(u, s)
  {
    hide Strip, ReadField, ReadUrlField, Flush, FlushUrl;
  }

  lemma PrintedEnds(k: string, v: string)
    requires CleanText(k) && CleanText(v)
    ensures var s := Printed(k, v); s != "" && s[0] == k[0] && s[|s| - 1] == v[|v| - 1] && |s| > |k| && s[|k|] == ':'
  {
  }

  lemma NamesAreKeys()
    ensures CleanText(NAME) && CleanText(URL) && CleanText(PUBKEY)
    ensures ':' !in NAME && ':' !in URL && ':' !in PUBKEY
  {
  }

  lemma StripNameLine(name: string)
    requires CleanText(name)
    ensures Strip("  - name: " + name) == "- " + Printed(NAME, name)
  {
    var s := "- " + Printed(NAME, name);
    assert "  - name: " + name == "  " + s;
    assert s[|s| - 1] == name[|name| - 1];
    StripIndent("  ", s);
  }

  lemma ReadName(r: Reader, u: UrlReader, name: string)
    requires CleanText(name)
    ensures ReadLine(r, "  - name: " + name) == Reader(Some(map[NAME := Some(name)]), Flush(r))
    ensures ReadUrlLine(u, "  - name: " + name) == UrlReader(None, FlushUrl(u))
  {
    NamesAreKeys();
    StripNameLine(name);
    hide Strip, Printed, CleanText, ReadLine, ReadUrlLine, ReadField, ReadUrlField, Flush, FlushUrl;
    ReadOpening(r, u, "  - name: " + name, Printed(NAME, name));
    ReadPrinted(Reader(Some(map[]), Flush(r)), NAME, name);
    ReadUrlPrinted(UrlReader(None, FlushUrl(u)), NAME, name);
  }

  lemma StripInside(k: string, v: string)
    requires CleanText(k) && CleanText(v)
    ensures Strip("    " + Printed(k, v)) == Printed(k, v)
  {
    PrintedEnds(k, v);
    StripIndent("    ", Printed(k, v));
  }

  lemma ReadPlain(r: Reader, u: UrlReader, k: string, v: string)
    requires r.cur.Some? && CleanText(v) && (k == URL || k == PUBKEY)
    ensures ReadLine(r, "    " + Printed(k, v)) == r.(cur := Some(r.cur.value[k := Some(v)]))
    ensures ReadUrlLine(u, "    " + Printed(k, v)) == if k == URL then u.(url := Some(v)) else u
  {
    NamesAreKeys();
    PrintedEnds(k, v);
    StripInside(k, v);
    NotPeers(k, v);
    hide Strip, Printed, CleanText, ReadLine, ReadUrlLine, ReadField, ReadUrlField;
    ReadInside(r, u, "    " + Printed(k, v), Printed(k, v));
    ReadPrinted(r, k, v);
    ReadUrlPrinted(u, k, v);
  }

  lemma NotPeers(k: string, v: string)
    requires k == URL || k == PUBKEY
    ensures Printed(k, v) != PEERS
  {
    var s := Printed(k, v);
    assert s[1] == k[1] != 'e';
    assert PEERS[1] == 'e';
  }

  // ---------- Reading whole files ----------

  lemma {:induction false} FoldConcat<R>(step: (R, string) -> R, r: R, a: seq<string>, b: seq<string>)
    ensures Fold(step, r, a + b) == Fold(step, Fold(step, r, a), b)
    decreases |b|
  {
    if b == [] {
      assert a + b == a;
    } else {
      var n := |b| - 1;
      FoldConcat(step, r, a, b[..n]);
      assert (a + b)[..|a + b| - 1] == a + b[..n];
    }
  }

  lemma FoldFew<R>(step: (R, string) -> R, r: R, x: string, y: string, z: string)
    ensures Fold(step, r, [x]) == step(r, x)
    ensures Fold(step, r, [x, y]) == step(step(r, x), y)
    ensures Fold(step, r, [x, y, z]) == step(step(step(r, x), y), z)
  {
    assert [x][..0] == [];
    assert [x, y][..1] == [x];
    assert [x, y, z][..2] == [x, y];
  }

  function DictOf(p: Peer): Dict {
    var d: Dict := map[NAME := Some(p.name)][URL := Some(p.url)];
    if p.pubkey.Some? then d[PUBKEY := p.pubkey] else d
  }

  lemma DictFields(p: Peer)
    ensures var d := DictOf(p);
            && Get(d, NAME) == Some(p.name) && Get(d, URL) == Some(p.url) && Get(d, PUBKEY) == p.pubkey && d != map[]
  {
    assert NAME in DictOf(p);
  }

  lemma CommitWith(d: Dict, p: Peer, peers: seq<Peer>)
    requires Get(d, NAME) == Some(p.name) && Get(d, URL) == Some(p.url) && Get(d, PUBKEY) == p.pubkey
    requires Strip(p.name) == p.name != "" && Strip(p.url) == p.url != ""
    ensures Commit(d, peers) == peers + [p]
  {
    hide Get, Strip, NAME, URL, PUBKEY;
  }

  lemma CommitOf(p: Peer, peers: seq<Peer>)
    requires Clean(p)
    ensures Commit(DictOf(p), peers) == peers + [p] && DictOf(p) != map[]
  {
    DictFields(p);
    StripSelf(p.name);
    StripSelf(p.url);
    CommitWith(DictOf(p), p, peers);
    hide *;
  }

  lemma PeerLinesPrinted(p: Peer)
    requires Clean(p)
    ensures PeerLines(p) == ["  - name: " + p.name, "    " + Printed(URL, p.url)]
                            + if p.pubkey.Some? then ["    " + Printed(PUBKEY, p.pubkey.value)] else []
  {
    hide IsSpace, IsBreak;
    assert "    url: " + p.url == "    " + Printed(URL, p.url);
    if p.pubkey.Some? {
      assert "    pubkey: " + p.pubkey.value == "    " + Printed(PUBKEY, p.pubkey.value);
    }
  }

  lemma NameAndUrl(r: Reader, u: UrlReader, p: Peer)
    requires Clean(p)
    ensures var one, two := "  - name: " + p.name, "    " + Printed(URL, p.url);
            && ReadLine(ReadLine(r, one), two) == Reader(Some(map[NAME := Some(p.name)][URL := Some(p.url)]), Flush(r))
            && ReadUrlLine(ReadUrlLine(u, one), two) == UrlReader(Some(p.url), FlushUrl(u))
  {
    var one, two := "  - name: " + p.name, "    " + Printed(URL, p.url);
    ReadName(r, u, p.name);
    hide ReadLine, ReadUrlLine, Printed, CleanText, Flush, FlushUrl;
    ReadPlain(ReadLine(r, one), ReadUrlLine(u, one), URL, p.url);
  }

  /** The lines of one peer finish the entry before it and leave its own to be committed. */
  lemma ReadPeer(r: Reader, u: UrlReader, p: Peer)
    requires Clean(p)
    ensures Fold(ReadLine, r, PeerLines(p)) == Reader(Some(DictOf(p)), Flush(r))
    ensures Fold(ReadUrlLine, u, PeerLines(p)) == UrlReader(Some(p.url), FlushUrl(u))
  {
    var one, two := "  - name: " + p.name, "    " + Printed(URL, p.url);
    var three := if p.pubkey.Some? then "    " + Printed(PUBKEY, p.pubkey.value) else "";
    hide ReadLine, ReadUrlLine, Fold, Printed, CleanText, PeerLines, Flush, FlushUrl, NAME, URL, PUBKEY;
    PeerLinesPrinted(p);
    NameAndUrl(r, u, p);
    FoldFew(ReadLine, r, one, two, three);
    FoldFew(ReadUrlLine, u, one, two, three);
    if p.pubkey.Some? {
      UrlIsNotKey();
      ReadPlain(ReadLine(ReadLine(r, one), two), ReadUrlLine(ReadUrlLine(u, one), two), PUBKEY, p.pubkey.value);
      assert [one, two] + [three] == [one, two, three];
    } else {
      assert [one, two] + [] == [one, two];
    }
  }

  lemma UrlIsNotKey()
    ensures PUBKEY != URL
  {
    assert |PUBKEY| != |URL|;
  }

  function Trimmed(peers: seq<Peer>): seq<string> {
    if peers == [] then [] else Trimmed(peers[..|peers| - 1]) + [RStripSlash(peers[|peers| - 1].url)]
  }

  ghost predicate AllClean(peers: seq<Peer>) {
    forall k :: 0 <= k < |peers| ==> Clean(peers[k])
  }

  lemma FlushPeer(r: Reader, u: UrlReader, p: Peer)
    requires Clean(p) && r.cur == Some(DictOf(p)) && u.url == Some(p.url)
    ensures Flush(r) == r.peers + [p] && FlushUrl(u) == u.urls + [RStripSlash(p.url)]
  {
    CommitOf(p, r.peers);
    hide DictOf, Commit;
  }

  lemma AllLinesSnoc(init: seq<Peer>, p: Peer)
    ensures AllLines(init + [p]) == AllLines(init) + PeerLines(p)
    ensures Trimmed(init + [p]) == Trimmed(init) + [RStripSlash(p.url)]
  {
    assert (init + [p])[..|init|] == init;
  }

  lemma {:induction false} ReadAll(r: Reader, u: UrlReader, peers: seq<Peer>)
    requires AllClean(peers) && Flush(r) == [] && FlushUrl(u) == []
    ensures Flush(Fold(ReadLine, r, AllLines(peers))) == peers
    ensures FlushUrl(Fold(ReadUrlLine, u, AllLines(peers))) == Trimmed(peers)
    decreases |peers|
  {
    if peers != [] {
      var n := |peers| - 1;
      var init, p := peers[..n], peers[n];
      assert Clean(p) && peers == init + [p];
      hide Fold, DictOf, Flush, FlushUrl, PeerLines, Clean, ReadLine, ReadUrlLine, AllLines, Trimmed;
      ReadAll(r, u, init);
      var r1, u1 := Fold(ReadLine, r, AllLines(init)), Fold(ReadUrlLine, u, AllLines(init));
      AllLinesSnoc(init, p);
      FoldConcat(ReadLine, r, AllLines(init), PeerLines(p));
      FoldConcat(ReadUrlLine, u, AllLines(init), PeerLines(p));
      ReadPeer(r1, u1, p);
      FlushPeer(Fold(ReadLine, r1, PeerLines(p)), Fold(ReadUrlLine, u1, PeerLines(p)), p);
    }
  }

  lemma ReadPeersLine(r: Reader, u: UrlReader)
    ensures ReadLine(r, PEERS) == r && ReadUrlLine(u, PEERS) == u
  {
    PeersIsClean();
    hide *;
    StripSelf(PEERS);
    ReadMarker(r, u, PEERS);
  }

  lemma ReadMarker(r: Reader, u: UrlReader, line: string)
    requires Strip(line) == PEERS
    ensures ReadLine(r, line) == r && ReadUrlLine(u, line) == u
  {
    hide Strip;
  }

  lemma PeersIsClean()
    ensures CleanText(PEERS)
  {
  }

  lemma ReadNoPeers()
    ensures ReadLine(Reader(None, []), "  []") == Reader(None, [])
              && ReadUrlLine(UrlReader(None, []), "  []") == UrlReader(None, [])
  {
    StripNone();
    hide Strip, Key, ReadLine, ReadUrlLine;
    ReadInside(Reader(None, []), UrlReader(None, []), "  []", "[]");
  }

  lemma StripNone()
    ensures Strip("  []") == "[]" && !HasColon("[]")
  {
    assert "  " + "[]" == "  []";
    StripIndent("  ", "[]");
    hide *;
    NoColon("[]");
  }

  lemma NoColon(s: string)
    requires s == "[]"
    ensures !HasColon(s)
  {
    KeyOf(s, "");
    assert s + "" == s;
  }

  lemma Comment(r: Reader, u: UrlReader, line: string)
    requires line != "" && line[0] == '#'
    ensures ReadLine(r, line) == r && ReadUrlLine(u, line) == u
  {
    LStripSolid(line);
    RStripKeepsFirst(line);
  }

  lemma {:induction false} RStripKeepsFirst(s: string)
    requires s != "" && !IsSpace(s[0])
    ensures RStrip(s) != ""
    decreases |s|
  {
    hide IsSpace;
    if IsSpace(s[|s| - 1]) {
      RStripKeepsFirst(s[..|s| - 1]);
    }
  }

  lemma ReadHeader()
    ensures Fold(ReadLine, Reader(None, []), Header()) == Reader(None, [])
    ensures Fold(ReadUrlLine, UrlReader(None, []), Header()) == UrlReader(None, [])
  {
    var r, u := Reader(None, []), UrlReader(None, []);
    HeaderIs();
    hide Header, Fold, ReadLine, ReadUrlLine;
    var one := Header()[0];
    Comment(r, u, one);
    ReadPeersLine(r, u);
    FoldFew(ReadLine, r, one, PEERS, "");
    FoldFew(ReadUrlLine, u, one, PEERS, "");
  }

  lemma HeaderIs()
    ensures |Header()| == 2 && Header()[0] != "" && Header()[0][0] == '#' && Header() == [Header()[0], PEERS]
  {
  }

  lemma {:induction false} LinesAreSingle(peers: seq<Peer>)
    requires AllClean(peers)
    ensures forall k :: 0 <= k < |AllLines(peers)| ==> OneLine(AllLines(peers)[k])
    decreases |peers|
  {
    if peers != [] {
      LinesAreSingle(peers[..|peers| - 1]);
      assert Clean(peers[|peers| - 1]);
      PeerLinesAreSingle(peers[|peers| - 1]);
      hide OneLine;
    }
  }

  lemma PeerLinesAreSingle(p: Peer)
    requires Clean(p)
    ensures forall k :: 0 <= k < |PeerLines(p)| ==> OneLine(PeerLines(p)[k])
  {
    OneLineJoin("  - name: ", p.name);
    OneLineJoin("    url: ", p.url);
    if p.pubkey.Some? {
      OneLineJoin("    pubkey: ", p.pubkey.value);
    }
    hide OneLine;
  }

  lemma OneLineJoin(a: string, b: string)
    requires OneLine(b) && a in {"  - name: ", "    url: ", "    pubkey: "}
    ensures OneLine(a + b)
  {
    assert OneLine(a);
  }

  lemma HeaderIsSingle()
    ensures OneLine(Header()[0]) && OneLine(Header()[1]) && OneLine("  []")
  {
    assert OneLine("# Managed by `swf-peer`.") && OneLine(" Hand-editing is fine.");
  }

  lemma FileIsSingle(peers: seq<Peer>)
    requires AllClean(peers)
    ensures forall k :: 0 <= k < |FileLines(peers)| ==> OneLine(FileLines(peers)[k])
  {
    HeaderIsSingle();
    LinesAreSingle(peers);
    hide OneLine;
  }

  /** Saving clean peers and reading the file back: the first parser gives the peers, the second
      their URLs in order, trailing slashes removed. */
  lemma CleanRoundTrip(peers: seq<Peer>)
    requires AllClean(peers)
    ensures ParsePlain(Join(FileLines(peers)) + "\n") == peers
    ensures UrlsOf(Join(FileLines(peers)) + "\n") == Trimmed(peers)
  {
    FileIsSingle(peers);
    hide OneLine, Clean, Join, Fold, Header, AllLines, ReadLine, ReadUrlLine;
    SplitJoined(FileLines(peers));
    ReadHeader();
    var r, u := Reader(None, []), UrlReader(None, []);
    if peers == [] {
      ReadNoPeers();
      FoldFew(ReadLine, r, "  []", "", "");
      FoldFew(ReadUrlLine, u, "  []", "", "");
      FoldConcat(ReadLine, r, Header(), ["  []"]);
      FoldConcat(ReadUrlLine, u, Header(), ["  []"]);
    } else {
      FoldConcat(ReadLine, r, Header(), AllLines(peers));
      FoldConcat(ReadUrlLine, u, Header(), AllLines(peers));
      ReadAll(r, u, peers);
    }
  }

  // ---------- What a parser can produce at all ----------

  ghost predicate CleanDict(d: Dict) {
    forall k :: k in d && d[k].Some? ==> CleanText(d[k].value)
  }

  ghost predicate CleanReader(r: Reader) {
    (r.cur.Some? ==> CleanDict(r.cur.value)) && AllClean(r.peers)
  }

  lemma FieldClean(d: Dict, k: string)
    requires CleanDict(d)
    ensures Field(d, k) != "" ==> CleanText(Field(d, k))
  {
    if k in d && d[k].Some? {
      StripSelf(d[k].value);
    }
    hide Strip, CleanText;
  }

  lemma FlushClean(r: Reader)
    requires CleanReader(r)
    ensures AllClean(Flush(r))
  {
    if r.cur.Some? {
      FieldClean(r.cur.value, NAME);
      FieldClean(r.cur.value, URL);
    }
    hide Field, CleanText;
  }

  lemma ReadFieldClean(r: Reader, s: string)
    requires CleanReader(r) && OneLine(s)
    ensures CleanReader(ReadField(r, s))
  {
    if r.cur.Some? && HasColon(s) {
      TailOneLine(s, |Key(s)| + 1);
      StripOneLine(Value(s));
    }
    hide Strip, CleanText, Key, OneLine, Clean;
  }

  lemma ReadLineCases(r: Reader, line: string)
    ensures var s := Strip(line);
            || ReadLine(r, line) == r
            || (|s| >= 2 && ReadLine(r, line) == ReadField(Reader(Some(map[]), Flush(r)), s[2..]))
            || ReadLine(r, line) == ReadField(r, s)
  {
    hide Strip, Flush, ReadField;
  }

  lemma NewEntryClean(r: Reader)
    requires CleanReader(r)
    ensures CleanReader(Reader(Some(map[]), Flush(r)))
  {
    FlushClean(r);
    hide Flush, Clean;
  }

  lemma ReadLineClean(r: Reader, line: string)
    requires CleanReader(r) && OneLine(line)
    ensures CleanReader(ReadLine(r, line))
  {
    hide *;
    var s := Strip(line);
    StripOneLine(line);
    ReadLineCases(r, line);
    NewEntryClean(r);
    ReadFieldClean(r, s);
    if |s| >= 2 {
      TailOneLine(s, 2);
      ReadFieldClean(Reader(Some(map[]), Flush(r)), s[2..]);
    }
  }

  lemma {:induction false} ReadLinesClean(r: Reader, lines: seq<string>)
    requires CleanReader(r) && forall k :: 0 <= k < |lines| ==> OneLine(lines[k])
    ensures CleanReader(Fold(ReadLine, r, lines))
    decreases |lines|
  {
    hide CleanReader, OneLine, ReadLine;
    if lines != [] {
      ReadLinesClean(r, lines[..|lines| - 1]);
      ReadLineClean(Fold(ReadLine, r, lines[..|lines| - 1]), lines[|lines| - 1]);
    }
  }

  /** Whatever the text, what the parser yields is clean. */
  lemma ParsedIsClean(text: string)
    ensures AllClean(ParsePlain(text))
  {
    ReadLinesClean(Reader(None, []), SplitLines(text));
    FlushClean(Fold(ReadLine, Reader(None, []), SplitLines(text)));
  }

  /** A list of peers survives saving and reading exactly when every name, URL and key is non-empty,
      trimmed and free of line breaks. */
  lemma RoundTripIff(peers: seq<Peer>)
    ensures ParsePlain(Join(FileLines(peers)) + "\n") == peers <==> AllClean(peers)
  {
    ParsedIsClean(Join(FileLines(peers)) + "\n");
    hide Clean, ParsePlain, FileLines, Join;
    if AllClean(peers) {
      CleanRoundTrip(peers);
    }
  }

  // ---------- What any file means ----------

  /** What a line says, an entry's dash aside: nothing if it is blank, a comment or the heading. */
  function Content(line: string): string {
    var s := Strip(line);
    if s == "" || s[0] == '#' || s == "peers:" then "" else if "- " <= s then s[2..] else s
  }

  predicate Opens(line: string) {
    "- " <= Strip(line)
  }

  predicate Mentions(line: string, key: string) {
    HasColon(Content(line)) && Strip(Key(Content(line))) == key
  }

  predicate Says(line: string, key: string, v: string) {
    Mentions(line, key) && Strip(Value(Content(line))) == v
  }

  /** The last of the lines that mention `key` gives it `v`. */
  ghost predicate LastSays(lines: seq<string>, key: string, v: string) {
    exists m :: 0 <= m < |lines| && Says(lines[m], key, v) && forall k :: m < k < |lines| ==> !Mentions(lines[k], key)
  }

  /** What an entry's lines give `key`: the last mention counts, an empty one as none. */
  ghost predicate Gives(lines: seq<string>, key: string, v: Option<string>) {
    match v
    case Some(x) => x != "" && LastSays(lines, key, x)
    case None => LastSays(lines, key, "") || forall k :: 0 <= k < |lines| ==> !Mentions(lines[k], key)
  }

  lemma LastSaysSnoc(lines: seq<string>, line: string, key: string, v: string)
    ensures LastSays(lines + [line], key, v)
       <==> if Mentions(line, key) then Says(line, key, v) else LastSays(lines, key, v)
  {
    hide Says, Mentions;
    var all := lines + [line];
    assert all[|lines|] == line && forall k :: 0 <= k < |lines| ==> all[k] == lines[k];
    if LastSays(all, key, v) {
      var m :| 0 <= m < |all| && Says(all[m], key, v) && forall k :: m < k < |all| ==> !Mentions(all[k], key);
      SaysMentions(all[m], key, v);
    }
    if Mentions(line, key) && Says(line, key, v) {
      assert Says(all[|lines|], key, v);
    }
    if !Mentions(line, key) && LastSays(lines, key, v) {
      var m :| 0 <= m < |lines| && Says(lines[m], key, v) && forall k :: m < k < |lines| ==> !Mentions(lines[k], key);
      assert Says(all[m], key, v);
    }
  }

  lemma SaysMentions(line: string, key: string, v: string)
    requires Says(line, key, v)
    ensures Mentions(line, key)
  {
  }

  lemma GivesSnoc(lines: seq<string>, line: string, key: string, v: Option<string>)
    ensures Gives(lines + [line], key, v)
       <==> if Mentions(line, key) then v == NonEmpty(Strip(Value(Content(line)))) else Gives(lines, key, v)
  {
    hide Strip, Content, Key, Value, HasColon, LastSays;
    var all := lines + [line];
    LastSaysSnoc(lines, line, key, if v.Some? then v.value else "");
    assert all[|lines|] == line;
    if Mentions(line, key) {
      assert Mentions(all[|lines|], key);
    } else {
      hide Mentions;
      assert forall k :: 0 <= k < |lines| ==> all[k] == lines[k];
    }
  }

  function Parsed(lines: seq<string>): seq<Peer> {
    Flush(Fold(ReadLine, Reader(None, []), lines))
  }

  lemma ReadFieldGets(r: Reader, line: string, key: string)
    requires r.cur.Some?
    ensures var r' := ReadField(r, Content(line));
            && r'.cur.Some? && r'.peers == r.peers
            && Get(r'.cur.value, key)
            == if Mentions(line, key) then NonEmpty(Strip(Value(Content(line)))) else Get(r.cur.value, key)
  {
    hide Strip, Content, Key, Value, HasColon;
  }

  lemma NothingSaid(r: Reader)
    ensures ReadField(r, "") == r
  {
  }

  lemma ReadLineIs(r: Reader, line: string)
    ensures ReadLine(r, line) == ReadField(if Opens(line) then Reader(Some(map[]), Flush(r)) else r, Content(line))
  {
    NothingSaid(r);
    hide Strip, ReadField, Flush;
    var s := Strip(line);
    if Opens(line) {
      assert s[0] == '-';
      assert s != PEERS;
    }
  }

  /** The dictionary of the entry being read gives `key` the value `v`. */
  ghost predicate Reads(r: Reader, key: string, v: Option<string>) {
    r.cur.Some? && r.peers == [] && Get(r.cur.value, key) == v
  }

  lemma OpeningReads(line: string, key: string, v: Option<string>)
    requires Opens(line) && Gives([line], key, v)
    ensures Reads(ReadLine(Reader(None, []), line), key, v)
  {
    hide Opens, Gives, ReadLine, ReadField, Mentions, Content, Strip, Value, HasColon;
    ReadLineIs(Reader(None, []), line);
    ReadFieldGets(Reader(Some(map[]), []), line, key);
    assert [] + [line] == [line];
    GivesSnoc([], line, key, v);
    if !Mentions(line, key) {
      NothingGiven(key, v);
    }
  }

  lemma NextLineReads(init: seq<string>, r: Reader, line: string, key: string, w: Option<string>, v: Option<string>)
    requires !Opens(line) && Gives(init, key, w) && Reads(r, key, w) && Gives(init + [line], key, v)
    requires Mentions(line, key) || w == v
    ensures Reads(ReadLine(r, line), key, v)
  {
    hide Opens, Gives, ReadLine, ReadField, Mentions, Content, Strip, Value, HasColon;
    ReadLineIs(r, line);
    ReadFieldGets(r, line, key);
    GivesSnoc(init, line, key, v);
  }

  /** Inside an entry the dictionary gives each key what the lines give it. */
  lemma {:induction false} EntryGets(e: seq<string>, key: string, v: Option<string>)
    requires e != [] && Opens(e[0]) && forall k :: 1 <= k < |e| ==> !Opens(e[k])
    requires Gives(e, key, v)
    ensures Reads(Fold(ReadLine, Reader(None, []), e), key, v)
    decreases |e|
  {
    var n := |e| - 1;
    var init, line := e[..n], e[n];
    assert e == init + [line];
    hide Opens, Gives, ReadLine, Reads, Mentions;
    if n == 0 {
      assert init == [];
      OpeningReads(line, key, v);
    } else {
      GivesSnoc(init, line, key, v);
      var w := Given(init, key);
      w := if Mentions(line, key) then w else v;
      EntryGets(init, key, w);
      NextLineReads(init, Fold(ReadLine, Reader(None, []), init), line, key, w, v);
    }
  }

  lemma NothingGiven(key: string, v: Option<string>)
    requires Gives([], key, v)
    ensures v == None
  {
  }

  lemma {:induction false} Given(lines: seq<string>, key: string) returns (v: Option<string>)
    ensures Gives(lines, key, v)
    decreases |lines|
  {
    if lines == [] {
      v := None;
    } else {
      var n := |lines| - 1;
      assert lines == lines[..n] + [lines[n]];
      hide Gives, Mentions, Content, Strip, Key, Value;
      v := Given(lines[..n], key);
      v := if Mentions(lines[n], key) then NonEmpty(Strip(Value(Content(lines[n])))) else v;
      GivesSnoc(lines[..n], lines[n], key, v);
    }
  }

  /** One entry is one peer if its lines give it a name and a URL, and no peer otherwise. */
  lemma EntryIsPeer(e: seq<string>, name: Option<string>, url: Option<string>, pubkey: Option<string>)
    requires e != [] && Opens(e[0]) && forall k :: 1 <= k < |e| ==> !Opens(e[k])
    requires Gives(e, "name", name) && Gives(e, "url", url) && Gives(e, "pubkey", pubkey)
    ensures Parsed(e) == if name.Some? && url.Some? then [Peer(name.value, url.value, pubkey)] else []
  {
    EntryGets(e, "name", name);
    EntryGets(e, "url", url);
    EntryGets(e, "pubkey", pubkey);
    GivenIsStripped(e, "name", name);
    GivenIsStripped(e, "url", url);
    hide Gives, Fold, Opens, Strip;
    var d := Fold(ReadLine, Reader(None, []), e).cur.value;
    if d == map[] {
      assert Get(d, "name") == None;
    }
  }

  lemma GivenIsStripped(e: seq<string>, key: string, v: Option<string>)
    requires Gives(e, key, v)
    ensures v.Some? ==> Strip(v.value) == v.value
  {
    hide Strip, Content, Key, Value;
    if v.Some? {
      var m :| 0 <= m < |e| && Says(e[m], key, v.value);
      StripTwice(Value(Content(e[m])));
    }
  }

  function After(pre: seq<Peer>, r: Reader): Reader {
    r.(peers := pre + r.peers)
  }

  lemma FlushAfter(pre: seq<Peer>, r: Reader)
    ensures Flush(After(pre, r)) == pre + Flush(r)
  {
    hide Field, Get;
    if r.cur.Some? {
      var p := Peer(Field(r.cur.value, NAME), Field(r.cur.value, URL), Get(r.cur.value, PUBKEY));
      assert (pre + r.peers) + [p] == pre + (r.peers + [p]);
    }
  }

  lemma ReadLineAfter(pre: seq<Peer>, r: Reader, line: string)
    ensures ReadLine(After(pre, r), line) == After(pre, ReadLine(r, line))
  {
    ReadLineIs(After(pre, r), line);
    ReadLineIs(r, line);
    FlushAfter(pre, r);
    hide ReadLine, Opens, Content, Flush, Strip, Key, Value, HasColon;
  }

  lemma {:induction false} FoldAfter(pre: seq<Peer>, r: Reader, lines: seq<string>)
    ensures Fold(ReadLine, After(pre, r), lines) == After(pre, Fold(ReadLine, r, lines))
    decreases |lines|
  {
    hide ReadLine, After;
    if lines != [] {
      var n := |lines| - 1;
      FoldAfter(pre, r, lines[..n]);
      ReadLineAfter(pre, Fold(ReadLine, r, lines[..n]), lines[n]);
    }
  }

  lemma OpeningResets(r: Reader, line: string)
    requires Opens(line)
    ensures ReadLine(r, line) == After(Flush(r), ReadLine(Reader(None, []), line))
  {
    ReadLineIs(r, line);
    ReadLineIs(Reader(None, []), line);
    assert Flush(r) + [] == Flush(r);
    hide ReadLine, Opens, Content, Flush, Strip, Key, Value, HasColon;
    assert Flush(Reader(None, [])) == [];
  }

  /** An opening line starts afresh: what comes before it and what comes from it on are read apart. */
  lemma EntriesApart(a: seq<string>, b: seq<string>)
    requires b != [] && Opens(b[0])
    ensures Parsed(a + b) == Parsed(a) + Parsed(b)
  {
    var none := Reader(None, []);
    var r := Fold(ReadLine, none, a);
    var rest := b[1..];
    assert b == [b[0]] + rest;
    hide ReadLine, Flush, Opens, After;
    FoldConcat(ReadLine, none, a, b);
    FoldConcat(ReadLine, r, [b[0]], rest);
    FoldConcat(ReadLine, none, [b[0]], rest);
    FoldFew(ReadLine, r, b[0], "", "");
    FoldFew(ReadLine, none, b[0], "", "");
    OpeningResets(r, b[0]);
    FoldAfter(Flush(r), ReadLine(none, b[0]), rest);
    FlushAfter(Flush(r), Fold(ReadLine, ReadLine(none, b[0]), rest));
  }

  /** Nothing is read before the first entry. */
  lemma {:induction false} NoEntriesNoPeers(lines: seq<string>)
    requires forall k :: 0 <= k < |lines| ==> !Opens(lines[k])
    ensures Parsed(lines) == [] && Fold(ReadLine, Reader(None, []), lines) == Reader(None, [])
    decreases |lines|
  {
    if lines != [] {
      var n := |lines| - 1;
      NoEntriesNoPeers(lines[..n]);
      ReadLineIs(Reader(None, []), lines[n]);
      hide ReadLine, Opens, Content;
    }
  }

  // The second parser.

  /** A bare dash opens an entry too. */
  predicate OpensUrl(line: string) {
    "- " <= Strip(line) || Strip(line) == "-"
  }

  ghost predicate OneLines(lines: seq<string>) {
    forall k :: 0 <= k < |lines| ==> OneLine(lines[k])
  }

  /** The line gives a URL that is not empty. */
  predicate HasUrl(line: string) {
    Mentions(line, "url") && Strip(Value(Content(line))) != ""
  }

  predicate SaysUrl(line: string, x: string) {
    x != "" && Says(line, "url", x)
  }

  /** The last of the lines with a URL gives `x`. */
  ghost predicate LastUrl(lines: seq<string>, x: string) {
    exists m :: 0 <= m < |lines| && SaysUrl(lines[m], x) && forall k :: m < k < |lines| ==> !HasUrl(lines[k])
  }

  ghost predicate GivesUrl(lines: seq<string>, v: Option<string>) {
    match v
    case None => forall k :: 0 <= k < |lines| ==> !HasUrl(lines[k])
    case Some(x) => LastUrl(lines, x)
  }

  function ParsedUrls(lines: seq<string>): seq<string> {
    FlushUrl(Fold(ReadUrlLine, UrlReader(None, []), lines))
  }

  function ReadContent(r: UrlReader, line: string): UrlReader {
    if HasUrl(line) then r.(url := Some(Strip(Value(Content(line))))) else r
  }

  lemma NoBreakInside(line: string)
    requires OneLine(line)
    ensures !("-\n" <= Strip(line))
  {
    StripOneLine(line);
    NewlineBreaks();
    hide IsBreak, Strip;
    var s := Strip(line);
    assert |s| >= 2 ==> s[1] != '\n';
  }

  lemma ReadUrlLineIs(r: UrlReader, line: string)
    requires OneLine(line)
    ensures ReadUrlLine(r, line) == ReadContent(if OpensUrl(line) then UrlReader(None, FlushUrl(r)) else r, line)
  {
    NoBreakInside(line);
    hide Strip, FlushUrl, Key, Value, OneLine;
    var s := Strip(line);
    if "- " <= s {
      assert s[0] == '-';
      assert s != PEERS;
    } else if s == "-" {
      NoColonInDash();
    }
    EmptyHasNoColon();
    hide HasColon;
  }

  lemma NoColonInDash()
    ensures !HasColon("-")
  {
    KeyOf("-", "");
    assert "-" + "" == "-";
  }

  lemma EmptyHasNoColon()
    ensures !HasColon("")
  {
  }

  lemma SaysUrlIs(line: string, x: string)
    ensures SaysUrl(line, x) <==> HasUrl(line) && x == Strip(Value(Content(line)))
  {
    hide Strip, Content, Key, Value, HasColon;
  }

  lemma LastUrlSnoc(lines: seq<string>, line: string, x: string)
    ensures LastUrl(lines + [line], x) <==> if HasUrl(line) then SaysUrl(line, x) else LastUrl(lines, x)
  {
    hide SaysUrl, HasUrl, Strip, Content, Value;
    var all := lines + [line];
    assert all[|lines|] == line && forall k :: 0 <= k < |lines| ==> all[k] == lines[k];
    SaysUrlIs(line, x);
    if LastUrl(all, x) {
      var m :| 0 <= m < |all| && SaysUrl(all[m], x) && forall k :: m < k < |all| ==> !HasUrl(all[k]);
      if m < |lines| {
        assert !HasUrl(all[|lines|]) && SaysUrl(lines[m], x);
      }
    }
    if SaysUrl(line, x) {
      assert SaysUrl(all[|lines|], x);
    }
    if !HasUrl(line) && LastUrl(lines, x) {
      var m :| 0 <= m < |lines| && SaysUrl(lines[m], x) && forall k :: m < k < |lines| ==> !HasUrl(lines[k]);
      assert SaysUrl(all[m], x);
    }
  }

  lemma GivesUrlSnoc(lines: seq<string>, line: string, v: Option<string>)
    ensures GivesUrl(lines + [line], v)
       <==> if HasUrl(line) then v == Some(Strip(Value(Content(line)))) else GivesUrl(lines, v)
  {
    hide HasUrl, SaysUrl, Strip, Value, Content, LastUrl;
    var all := lines + [line];
    assert all[|lines|] == line && forall k :: 0 <= k < |lines| ==> all[k] == lines[k];
    if v.Some? {
      LastUrlSnoc(lines, line, v.value);
      SaysUrlIs(line, v.value);
    } else if HasUrl(line) {
      assert HasUrl(all[|lines|]);
    }
  }

  lemma {:induction false} GivenUrl(lines: seq<string>) returns (v: Option<string>)
    ensures GivesUrl(lines, v)
    decreases |lines|
  {
    v := None;
    if lines != [] {
      var n := |lines| - 1;
      assert lines == lines[..n] + [lines[n]];
      hide GivesUrl, HasUrl, Content, Strip, Value;
      v := GivenUrl(lines[..n]);
      v := if HasUrl(lines[n]) then Some(Strip(Value(Content(lines[n])))) else v;
      GivesUrlSnoc(lines[..n], lines[n], v);
    }
  }

  lemma NoUrlGiven(v: Option<string>)
    requires GivesUrl([], v)
    ensures v == None
  {
  }

  lemma LineReadsUrl(init: seq<string>, line: string, w: Option<string>, v: Option<string>)
    requires OneLine(line) && (init == [] || !OpensUrl(line)) && GivesUrl(init, w) && GivesUrl(init + [line], v)
    requires HasUrl(line) || w == v
    requires Fold(ReadUrlLine, UrlReader(None, []), init) == UrlReader(w, [])
    ensures Fold(ReadUrlLine, UrlReader(None, []), init + [line]) == UrlReader(v, [])
  {
    assert (init + [line])[..|init|] == init;
    hide GivesUrl, HasUrl, Content, Strip, Value, ReadUrlLine, OneLine, OpensUrl;
    if init == [] {
      NoUrlGiven(w);
    }
    ReadUrlLineIs(UrlReader(w, []), line);
    GivesUrlSnoc(init, line, v);
  }

  lemma {:induction false} EntryGetsUrl(e: seq<string>, v: Option<string>)
    requires OneLines(e) && (forall k :: 1 <= k < |e| ==> !OpensUrl(e[k])) && GivesUrl(e, v)
    ensures Fold(ReadUrlLine, UrlReader(None, []), e) == UrlReader(v, [])
    decreases |e|
  {
    hide GivesUrl, HasUrl, ReadUrlLine, OneLine, OpensUrl, Content, Strip, Value;
    if e == [] {
      NoUrlGiven(v);
    } else {
      var n := |e| - 1;
      var init, line := e[..n], e[n];
      assert e == init + [line] && OneLines(init) && OneLine(line) && (n == 0 ==> init == []);
      hide Fold, OneLines;
      GivesUrlSnoc(init, line, v);
      var w := GivenUrl(init);
      w := if HasUrl(line) then w else v;
      EntryGetsUrl(init, w);
      LineReadsUrl(init, line, w, v);
    }
  }

  /** One entry is one URL, without the slashes at its end, if its lines give any. So is what comes
      before the first entry. */
  lemma EntryIsUrl(e: seq<string>, v: Option<string>)
    requires OneLines(e) && (forall k :: 1 <= k < |e| ==> !OpensUrl(e[k])) && GivesUrl(e, v)
    ensures ParsedUrls(e) == if v.Some? then [RStripSlash(v.value)] else []
  {
    EntryGetsUrl(e, v);
    hide Fold, GivesUrl, RStripSlash, OpensUrl, OneLine;
  }

  function AfterUrls(pre: seq<string>, r: UrlReader): UrlReader {
    r.(urls := pre + r.urls)
  }

  lemma FlushAfterUrls(pre: seq<string>, r: UrlReader)
    ensures FlushUrl(AfterUrls(pre, r)) == pre + FlushUrl(r)
  {
    hide RStripSlash;
    if r.url.Some? {
      var u := RStripSlash(r.url.value);
      assert (pre + r.urls) + [u] == pre + (r.urls + [u]);
    }
  }

  lemma ReadUrlLineAfter(pre: seq<string>, r: UrlReader, line: string)
    requires OneLine(line)
    ensures ReadUrlLine(AfterUrls(pre, r), line) == AfterUrls(pre, ReadUrlLine(r, line))
  {
    ReadUrlLineIs(AfterUrls(pre, r), line);
    ReadUrlLineIs(r, line);
    FlushAfterUrls(pre, r);
    hide ReadUrlLine, OpensUrl, HasUrl, Content, FlushUrl, Strip, Value, OneLine;
  }

  lemma {:induction false} FoldAfterUrls(pre: seq<string>, r: UrlReader, lines: seq<string>)
    requires OneLines(lines)
    ensures Fold(ReadUrlLine, AfterUrls(pre, r), lines) == AfterUrls(pre, Fold(ReadUrlLine, r, lines))
    decreases |lines|
  {
    hide ReadUrlLine, AfterUrls, OneLine;
    if lines != [] {
      var n := |lines| - 1;
      FoldAfterUrls(pre, r, lines[..n]);
      ReadUrlLineAfter(pre, Fold(ReadUrlLine, r, lines[..n]), lines[n]);
    }
  }

  lemma OpeningResetsUrls(r: UrlReader, line: string)
    requires OneLine(line) && OpensUrl(line)
    ensures ReadUrlLine(r, line) == AfterUrls(FlushUrl(r), ReadUrlLine(UrlReader(None, []), line))
  {
    ReadUrlLineIs(r, line);
    ReadUrlLineIs(UrlReader(None, []), line);
    assert FlushUrl(r) + [] == FlushUrl(r);
    assert FlushUrl(UrlReader(None, [])) == [];
    hide ReadUrlLine, OpensUrl, HasUrl, Content, FlushUrl, Strip, Value, OneLine;
  }

  /** The second parser too starts afresh at an opening line. */
  lemma UrlEntriesApart(a: seq<string>, b: seq<string>)
    requires OneLines(a) && OneLines(b) && b != [] && OpensUrl(b[0])
    ensures ParsedUrls(a + b) == ParsedUrls(a) + ParsedUrls(b)
  {
    hide ReadUrlLine, FlushUrl, OpensUrl, AfterUrls, OneLine;
    var none := UrlReader(None, []);
    var r := Fold(ReadUrlLine, none, a);
    var rest := b[1..];
    assert b == [b[0]] + rest;
    FoldConcat(ReadUrlLine, none, a, b);
    FoldConcat(ReadUrlLine, r, [b[0]], rest);
    FoldConcat(ReadUrlLine, none, [b[0]], rest);
    FoldFew(ReadUrlLine, r, b[0], "", "");
    FoldFew(ReadUrlLine, none, b[0], "", "");
    OpeningResetsUrls(r, b[0]);
    FoldAfterUrls(FlushUrl(r), ReadUrlLine(none, b[0]), rest);
    FlushAfterUrls(FlushUrl(r), Fold(ReadUrlLine, ReadUrlLine(none, b[0]), rest));
  }

  /** Line `m` gives a URL, and none comes after it up to line `n`, where a new entry or the end is. */
  ghost predicate Counts(lines: seq<string>, m: nat, n: nat, x: string) {
    && m < n <= |lines| && SaysUrl(lines[m], x) && (n == |lines| || OpensUrl(lines[n]))
    && forall k :: m < k < n ==> !HasUrl(lines[k])
  }

  lemma {:induction false} CountedIsRead(lines: seq<string>, m: nat, n: nat, x: string)
    requires OneLines(lines) && Counts(lines, m, n, x)
    ensures RStripSlash(x) in ParsedUrls(lines)
    decreases |lines|
  {
    hide SaysUrl, HasUrl, OpensUrl, OneLine, RStripSlash, ParsedUrls;
    if k :| 0 < k < |lines| && OpensUrl(lines[k]) {
      var a, b := lines[..k], lines[k..];
      assert lines == a + b;
      UrlEntriesApart(a, b);
      if m < k {
        CountedIsRead(a, m, if n <= k then n else k, x);
      } else {
        CountedIsRead(b, m - k, n - k, x);
      }
    } else {
      assert n == |lines|;
      EntryIsUrl(lines, Some(x));
    }
  }

  lemma {:induction false} PeerIsCounted(lines: seq<string>, p: Peer) returns (m: nat, n: nat)
    requires p in Parsed(lines)
    ensures Counts(lines, m, n, p.url)
    decreases |lines|
  {
    hide SaysUrl, HasUrl, Opens, OpensUrl, Parsed, Gives;
    if k :| 0 < k < |lines| && Opens(lines[k]) {
      var a, b := lines[..k], lines[k..];
      assert lines == a + b;
      EntriesApart(a, b);
      if p in Parsed(a) {
        m, n := PeerIsCounted(a, p);
        OpensBoth(lines[k]);
      } else {
        m, n := PeerIsCounted(b, p);
        m, n := m + k, n + k;
      }
    } else if lines == [] || !Opens(lines[0]) {
      NoEntriesNoPeers(lines);
      assert false;
    } else {
      var name := Given(lines, "name");
      var url := Given(lines, "url");
      var pubkey := Given(lines, "pubkey");
      EntryIsPeer(lines, name, url, pubkey);
      m := LastUrlCounts(lines, url.value);
      n := |lines|;
    }
  }

  lemma OpensBoth(line: string)
    ensures Opens(line) ==> OpensUrl(line)
  {
  }

  lemma LastUrlCounts(lines: seq<string>, x: string) returns (m: nat)
    requires Gives(lines, "url", Some(x))
    ensures Counts(lines, m, |lines|, x)
  {
    hide Content, Strip, Key, Value, HasColon;
    m :| m < |lines| && Says(lines[m], "url", x) && forall k :: m < k < |lines| ==> !Mentions(lines[k], "url");
  }

  /** Whatever the text: the URL of every peer the first parser finds, the second finds too, without the
      slashes at its end. */
  lemma SecondFindsAll(text: string, p: Peer)
    requires p in ParsePlain(text)
    ensures RStripSlash(p.url) in UrlsOf(text)
  {
    var lines := SplitLines(text);
    hide OneLine, RStripSlash, Counts, Fold;
    assert ParsePlain(text) == Parsed(lines) && UrlsOf(text) == ParsedUrls(lines);
    var m, n := PeerIsCounted(lines, p);
    CountedIsRead(lines, m, n, p.url);
  }

  /** Not the other way round: an entry without a name is a URL, and no peer. */
  lemma NamelessIsUrlOnly(line: string, x: string)
    requires OneLine(line) && Opens(line) && SaysUrl(line, x)
    ensures Parsed([line]) == [] && ParsedUrls([line]) == [RStripSlash(x)]
  {
    SaysUrlIs(line, x);
    assert "name" != "url";
    assert !Mentions(line, "name") by {
      hide Strip, Key, Content, HasColon;
    }
    assert Gives([line], "name", None);
    var url := Given([line], "url");
    var pubkey := Given([line], "pubkey");
    assert [line][0] == line;
    hide Strip, Key, Value, Content, HasColon, RStripSlash, Gives, Parsed, ParsedUrls, OneLine, HasUrl;
    EntryIsPeer([line], None, url, pubkey);
    assert SaysUrl([line][0], x);
    EntryIsUrl([line], Some(x));
  }
}
