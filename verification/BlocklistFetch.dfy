/** The one-slot blocklist cache and the conditional fetch behind it (sections 13.1.2 and 15.4.5 of
    RFC 9110). The server and the clock readings are inputs. */
module BlocklistFetch {
  import opened Basics
  import opened BlocklistRules

  /** Monotonic and wall-clock readings, in nanoseconds. */
  type Tick = int
  type Instant = int

  const BLOCKLIST_REFRESH_INTERVAL: int := 30 * 60 * 1_000_000_000
  const NOT_MODIFIED: nat := 304

  datatype IpFilterCache = IpFilterCache(
    url: string, etag: Option<string>, rules: seq<Rule>, fetchedAt: Tick, lastRefreshed: Instant)

  type Slot = Option<IpFilterCache>

  datatype Request = Request(url: string, ifNoneMatch: Option<string>)

  /** `body` is `None` when reading it fails; lines are already split. */
  datatype Response = SendError | Answer(status: nat, etag: Option<string>, body: Option<seq<string>>)

  type Server = Request -> Response

  /** `Instant::now()` at the freshness check and at the update, and `Utc::now()` at the update. */
  datatype Timing = Timing(checkedAt: Tick, fetchedAt: Tick, now: Instant)

  datatype LoadError = HttpError | HttpStatus(status: nat) | MissingState(url: string) | InvalidConfig

  datatype Resolution = Resolution(rules: seq<Rule>, etag: Option<string>, lastUpdatedAt: Instant, skipped: nat)

  datatype Loaded = Success(resolution: Resolution) | Failure(error: LoadError)

  predicate IsSuccess(status: nat) { 200 <= status < 300 }

  function Elapsed(since: Tick, at: Tick): int { if at < since then 0 else at - since }

  predicate Fresh(slot: Slot, url: string, at: Tick) {
    slot.Some? && slot.value.url == url && Elapsed(slot.value.fetchedAt, at) < BLOCKLIST_REFRESH_INTERVAL
  }

  function SlotEtag(slot: Slot): Option<string> {
    if slot.Some? then slot.value.etag else None
  }

  function RequestFor(slot: Slot, url: string, etag: Option<string>): Request {
    Request(url, etag.Or(SlotEtag(slot)))
  }

  function FromSlot(c: IpFilterCache): Loaded {
    Success(Resolution(c.rules, c.etag, c.lastRefreshed, 0))
  }

  /** `load_blocklist`: the slot afterwards and the answer. */
  function Load(slot: Slot, url: string, etag: Option<string>, server: Server, t: Timing, canon: Canonicalize)
    : (Slot, Loaded)
  {
    if Fresh(slot, url, t.checkedAt) then (slot, FromSlot(slot.value)) else
      var response := server(RequestFor(slot, url, etag));
      if response.SendError? then (slot, Failure(HttpError))
      else if response.status == NOT_MODIFIED then
        if slot.None? then (slot, Failure(MissingState(url)))
        else
          var c := slot.value.(fetchedAt := t.fetchedAt, lastRefreshed := t.now);
          (Some(c), FromSlot(c))
      else if !IsSuccess(response.status) then (slot, Failure(HttpStatus(response.status)))
      else if response.body.None? then (slot, Failure(HttpError))
      else Stored(slot, url, response.etag.Or(etag), ParsedBlocklist(response.body.value, canon), t)
  }

  function Stored(slot: Slot, url: string, tag: Option<string>, parsed: ParseResult, t: Timing): (Slot, Loaded) {
    if parsed.TooManyEntries? then (slot, Failure(InvalidConfig))
    else (Some(IpFilterCache(url, tag, parsed.rules, t.fetchedAt, t.now)),
          Success(Resolution(parsed.rules, tag, t.now, parsed.skipped)))
  }

  // ----- What one load does -----

  /** A list fetched from the requested URL less than half an hour ago is used as it is. */
  lemma WindowAnswers(slot: Slot, url: string, etag: Option<string>, server: Server, t: Timing, canon: Canonicalize)
    requires slot.Some? && slot.value.url == url && t.checkedAt < slot.value.fetchedAt + 1_800_000_000_000
    ensures Load(slot, url, etag, server, t, canon) ==
      (slot, Success(Resolution(slot.value.rules, slot.value.etag, slot.value.lastRefreshed, 0)))
  {
  }

  /** The slot is empty, of another URL or half an hour old. */
  predicate OutsideWindow(slot: Slot, url: string, at: Tick) {
    slot.None? || slot.value.url != url || at >= slot.value.fetchedAt + 1_800_000_000_000
  }

  /** The server's answer to a load: it is asked with the remembered tag, or else with the slot's. */
  function Asked(slot: Slot, url: string, etag: Option<string>, server: Server): Response {
    if etag.Some? then server(Request(url, etag))
    else if slot.Some? then server(Request(url, slot.value.etag))
    else server(Request(url, None))
  }

  /** Outside the window a load fails on the status exactly for a status that is neither 304 nor 200 to
      299, and a failed load leaves the slot. */
  lemma StatusFailsExactly(slot: Slot, url: string, etag: Option<string>, server: Server, t: Timing,
                           canon: Canonicalize)
    requires OutsideWindow(slot, url, t.checkedAt)
    ensures var answer, (next, r) := Asked(slot, url, etag, server), Load(slot, url, etag, server, t, canon);
      && (answer.SendError? ==> r == Failure(HttpError))
      && (answer.Answer? ==>
            (r == Failure(HttpStatus(answer.status)) <==> answer.status != 304 && !(200 <= answer.status <= 299)))
      && (r.Failure? ==> next == slot)
  {
    hide ParsedBlocklist;
  }

  /** Cached rules are replaced only by those of a body sent under a status from 200 to 299, with the tag
      sent beside it or else the remembered one. */
  lemma ReplacedExactly(slot: Slot, url: string, etag: Option<string>, server: Server, t: Timing,
                        canon: Canonicalize)
    requires OutsideWindow(slot, url, t.checkedAt)
    ensures var answer, (next, r) := Asked(slot, url, etag, server), Load(slot, url, etag, server, t, canon);
      var sent := answer.Answer? && 200 <= answer.status <= 299 && answer.body.Some?;
      if sent && ParsedBlocklist(answer.body.value, canon).Parsed? then
        var list := ParsedBlocklist(answer.body.value, canon);
        var tag := if answer.etag.Some? then answer.etag else etag;
        && next == Some(IpFilterCache(url, tag, list.rules, t.fetchedAt, t.now))
        && r == Success(Resolution(list.rules, tag, t.now, list.skipped))
      else if answer.Answer? && answer.status == 304 && slot.Some? then
        && next == Some(slot.value.(fetchedAt := t.fetchedAt, lastRefreshed := t.now))
        && r == Success(Resolution(slot.value.rules, slot.value.etag, t.now, 0))
      else
        && next == slot && r.Failure?
        && (sent ==> r.error == InvalidConfig)
        && (answer.Answer? && answer.status == 304 ==> r.error == MissingState(url))
        && (answer.Answer? && 200 <= answer.status <= 299 && answer.body.None? ==> r.error == HttpError)
  {
    hide ParsedBlocklist;
  }

  // ----- Provenance -----

  /** A list the server sent in full. */
  datatype Download = Download(url: string, lines: seq<string>)

  /** What one load downloads. */
  function Downloaded(slot: Slot, url: string, etag: Option<string>, server: Server, t: Timing): seq<Download> {
    if Fresh(slot, url, t.checkedAt) then [] else
      var response := server(RequestFor(slot, url, etag));
      if response.Answer? && IsSuccess(response.status) && response.body.Some? then [Download(url, response.body.value)]
      else []
  }

  /** `rules` were parsed from a list downloaded from `url`. */
  ghost predicate ParsedFrom(history: seq<Download>, url: string, rules: seq<Rule>, canon: Canonicalize) {
    exists d :: d in history && d.url == url && ParsesTo(d.lines, rules, canon)
  }

  predicate ParsesTo(lines: seq<string>, rules: seq<Rule>, canon: Canonicalize) {
    var parsed := ParsedBlocklist(lines, canon);
    parsed.Parsed? && parsed.rules == rules
  }

  /** The slot holds a list downloaded from the slot's URL. */
  ghost predicate SlotOk(history: seq<Download>, slot: Slot, canon: Canonicalize) {
    slot.Some? ==> ParsedFrom(history, slot.value.url, slot.value.rules, canon)
  }

  lemma ParsedFromMore(history: seq<Download>, more: seq<Download>, url: string, rules: seq<Rule>, canon: Canonicalize)
    requires ParsedFrom(history, url, rules, canon)
    ensures ParsedFrom(history + more, url, rules, canon)
  {
    var d :| d in history && d.url == url && ParsesTo(d.lines, rules, canon);
    assert d in history + more;
  }

  /** With a slot that is empty or of the requested URL, a load answers only with lists downloaded from
      that URL, a 304 included; a failed load leaves the slot alone. */
  lemma LoadProvenance(history: seq<Download>, slot: Slot, url: string, etag: Option<string>, server: Server,
                       t: Timing, canon: Canonicalize)
    requires SlotOk(history, slot, canon)
    requires slot.None? || slot.value.url == url
    ensures var (next, r) := Load(slot, url, etag, server, t, canon);
      var history' := history + Downloaded(slot, url, etag, server, t);
      && SlotOk(history', next, canon) && (next.None? || next.value.url == url)
      && (r.Success? ==> ParsedFrom(history', url, r.resolution.rules, canon))
      && (r.Failure? ==> next == slot)
  {
    var downloads := Downloaded(slot, url, etag, server, t);
    LoadCases(slot, url, etag, server, t, canon);
    hide Load, Downloaded, ParsedFrom;
    if slot.Some? { ParsedFromMore(history, downloads, url, slot.value.rules, canon); }
    if downloads != [] {
      assert downloads[0] in history + downloads;
      DownloadParsed(history + downloads, downloads[0], canon);
      hide ParsedBlocklist;
    }
  }

  /** A load fails and leaves the slot alone, or answers from the slot, or stores what it downloads. */
  lemma LoadCases(slot: Slot, url: string, etag: Option<string>, server: Server, t: Timing, canon: Canonicalize)
    ensures var (next, r) := Load(slot, url, etag, server, t, canon);
      var downloads := Downloaded(slot, url, etag, server, t);
      || (r.Failure? && next == slot)
      || (r.Success? && slot.Some? && next.Some? && next.value.url == slot.value.url
          && next.value.rules == slot.value.rules == r.resolution.rules)
      || (r.Success? && next.Some? && next.value.url == url && |downloads| == 1 && downloads[0].url == url
          && ParsedBlocklist(downloads[0].lines, canon).Parsed?
          && next.value.rules == ParsedBlocklist(downloads[0].lines, canon).rules == r.resolution.rules)
    ensures forall d :: d in Downloaded(slot, url, etag, server, t) ==> d.url == url
  {
    hide ParsedBlocklist, Elapsed;
  }

  lemma DownloadParsed(history: seq<Download>, d: Download, canon: Canonicalize)
    requires d in history
    ensures var parsed := ParsedBlocklist(d.lines, canon); parsed.Parsed? ==>
      ParsedFrom(history, d.url, parsed.rules, canon)
  {
    var parsed := ParsedBlocklist(d.lines, canon);
    hide ParsedBlocklist;
    if parsed.Parsed? { assert ParsesTo(d.lines, parsed.rules, canon); }
  }

  // ----- Servers with strong validators -----

  /** The current representation of a URL: its strong entity tag and its lines. */
  datatype Page = Page(tag: string, lines: seq<string>)

  type Site = string -> Page

  /** The server may fail, but a 304 means the tag sent is current and a body is the current one,
      under its tag. */
  ghost predicate Honest(server: Server, site: Site) {
    forall r :: AnswersFor(server(r), r, site(r.url))
  }

  predicate AnswersFor(response: Response, r: Request, page: Page) {
    response.Answer? ==>
      && (response.status == NOT_MODIFIED ==> r.ifNoneMatch == Some(page.tag))
      && (IsSuccess(response.status) && response.body.Some? ==>
          response.etag == Some(page.tag) && response.body == Some(page.lines))
  }

  /** Over all the states the site goes through, a tag names one list of lines per URL. */
  ghost predicate StrongTags(pages: set<(string, Page)>) {
    forall p, q :: p in pages && q in pages && p.0 == q.0 && p.1.tag == q.1.tag ==> p.1.lines == q.1.lines
  }

  /** The slot holds some page the URL has had, under that page's tag. */
  ghost predicate SlotFrom(pages: set<(string, Page)>, slot: Slot, canon: Canonicalize) {
    slot.Some? ==> exists p ::
      p in pages && p.0 == slot.value.url && slot.value.etag == Some(p.1.tag)
          && ParsesTo(p.1.lines, slot.value.rules, canon)
  }

  /** The tag the profile remembers is absent or the cached one. */
  predicate TagAgrees(slot: Slot, etag: Option<string>) {
    slot.None? || etag.None? || etag == slot.value.etag
  }

  /** Pages of one URL under different tags hold different rules. */
  ghost predicate DistinctLists(pages: set<(string, Page)>, canon: Canonicalize) {
    forall p, q, rules ::
      p in pages && q in pages && p.0 == q.0 && ParsesTo(p.1.lines, rules, canon)
        && ParsesTo(q.1.lines, rules, canon) ==>
        p.1.tag == q.1.tag
  }

  /** Whatever the profile remembers, the slot keeps holding a page the URL has had, under its tag. */
  lemma LoadSlotFrom(pages: set<(string, Page)>, slot: Slot, url: string, etag: Option<string>, server: Server,
                     site: Site, t: Timing, canon: Canonicalize)
    requires (url, site(url)) in pages && Honest(server, site) && SlotFrom(pages, slot, canon)
    ensures SlotFrom(pages, Load(slot, url, etag, server, t, canon).0, canon)
  {
    assert AnswersFor(server(RequestFor(slot, url, etag)), RequestFor(slot, url, etag), site(url));
  }

  /** The load asks the server and is told that the tag it sent is current. */
  predicate Unmodified(slot: Slot, url: string, etag: Option<string>, server: Server) {
    var response := server(RequestFor(slot, url, etag));
    response.Answer? && response.status == NOT_MODIFIED
  }

  /** A load that asks an honest server and succeeds yields the current list, exactly as a fetcher without
      a cache would parse it, if and only if it was sent in full or the tag remembered is the slot's. */
  lemma LoadCurrentExactly(pages: set<(string, Page)>, slot: Slot, url: string, etag: Option<string>, server: Server,
                           site: Site, t: Timing, canon: Canonicalize)
    requires StrongTags(pages) && (url, site(url)) in pages && Honest(server, site)
    requires SlotFrom(pages, slot, canon) && (slot.None? || slot.value.url == url)
    requires !Fresh(slot, url, t.checkedAt) && Load(slot, url, etag, server, t, canon).1.Success?
    ensures var r := Load(slot, url, etag, server, t, canon).1;
      && ((Unmodified(slot, url, etag, server) ==> TagAgrees(slot, etag)) ==>
            ParsesTo(site(url).lines, r.resolution.rules, canon) && r.resolution.etag == Some(site(url).tag))
      && (DistinctLists(pages, canon) && Unmodified(slot, url, etag, server) && !TagAgrees(slot, etag) ==>
            !ParsesTo(site(url).lines, r.resolution.rules, canon))
  {
    var page := site(url);
    assert AnswersFor(server(RequestFor(slot, url, etag)), RequestFor(slot, url, etag), page);
    hide Honest;
    if Unmodified(slot, url, etag, server) {
      var p :| p in pages && p.0 == url && slot.value.etag == Some(p.1.tag)
        && ParsesTo(p.1.lines, slot.value.rules, canon);
      assert (url, page) in pages;
      if TagAgrees(slot, etag) { assert p.1.lines == page.lines; }
    }
  }

  /** A load reports missing state exactly when the slot is empty and the server confirms the tag sent. */
  lemma MissingStateExactly(slot: Slot, url: string, etag: Option<string>, server: Server, t: Timing,
                            canon: Canonicalize)
    ensures Load(slot, url, etag, server, t, canon).1 == Failure(MissingState(url)) <==>
        slot.None? && Unmodified(slot, url, etag, server)
  {
    hide ParsedBlocklist;
  }

  /** An honest server confirms none but the current tag. */
  lemma MissingStateHonest(url: string, etag: Option<string>, server: Server, site: Site, t: Timing,
                           canon: Canonicalize)
    requires Honest(server, site) && Load(None, url, etag, server, t, canon).1 == Failure(MissingState(url))
    ensures etag == Some(site(url).tag)
  {
    MissingStateExactly(None, url, etag, server, t, canon);
    assert AnswersFor(server(RequestFor(None, url, etag)), RequestFor(None, url, etag), site(url));
    hide Honest, Load;
  }

  /** A server of one page: a 304 to its own tag, the page to any other request. */
  function Serving(page: Page): Server {
    (r: Request) =>
      if r.ifNoneMatch == Some(page.tag) then Answer(NOT_MODIFIED, None, None)
      else Answer(200, Some(page.tag), Some(page.lines))
  }

  lemma ServingHonest(page: Page)
    ensures Honest(Serving(page), (_: string) => page)
  {
  }

  /** From an empty slot such a server leads to missing state exactly when the remembered tag is its own, and
      to a filled slot exactly when it is not and the page has no more entries than allowed. */
  lemma ServingFillsExactly(url: string, etag: Option<string>, page: Page, t: Timing, canon: Canonicalize)
    ensures var (next, r) := Load(None, url, etag, Serving(page), t, canon);
      && (r == Failure(MissingState(url)) <==> etag == Some(page.tag))
      && (next.Some? <==> etag != Some(page.tag) && ParsedBlocklist(page.lines, canon).Parsed?)
      && (next.Some? ==> r.Success? && next.value.url == url && ParsesTo(page.lines, r.resolution.rules, canon))
  {
    hide ParsedBlocklist;
  }
}
