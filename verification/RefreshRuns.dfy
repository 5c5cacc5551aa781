/** Runs of edits and refreshes: operators edit the profile, the watcher refreshes on the profile it reads
    back, and a refresh may itself write the profile. */
module RefreshRuns {
  import opened Basics
  import opened BlocklistRules
  import opened BlocklistFetch
  import opened IpFilterRefresh

  /** An operator's edit, a refresh, or a refresh overtaken by an edit that lands after the profile was read
      and before the refresh writes it. */
  datatype Action<Rest> =
    | Edit(profile: Profile<Rest>)
    | Refresh(server: Server, t: Timing, accepted: bool)
    | Overtaken(profile: Profile<Rest>, server: Server, t: Timing, accepted: bool)

  function Act<Rest>(env: Env, sys: System<Rest>, a: Action<Rest>): System<Rest> {
    match a
    case Edit(profile) => sys.(profile := profile)
    case Refresh(server, t, accepted) => Round(env, sys, server, t, accepted)
    case Overtaken(profile, server, t, accepted) => OvertakenRound(env, sys, profile, server, t, accepted)
  }

  /** A refresh writes the whole profile it read, over whatever has been stored since. */
  function OvertakenRound<Rest>(env: Env, sys: System<Rest>, edit: Profile<Rest>, server: Server, t: Timing,
                                accepted: bool): System<Rest>
  {
    var changeset := RoundChangeset(env, sys, server, t);
    System(RoundResult(env, sys, server, t).0,
           if changeset.Some? && accepted then Kept(env, changeset.value) else edit)
  }

  function Run<Rest>(env: Env, sys: System<Rest>, actions: seq<Action<Rest>>): System<Rest> {
    var n := |actions|;
    if n == 0 then sys else Act(env, Run(env, sys, actions[..n - 1]), actions[n - 1])
  }

  // ----- What a refresh writes -----

  /** A changeset carries the normalised list of blocks, the URL that was read, and new metadata; the rest
      of the profile is as it was read. */
  lemma ChangesetIsMetadata<Rest>(env: Env, sys: System<Rest>, server: Server, t: Timing)
    ensures var c, f := RoundChangeset(env, sys, server, t), Seen(env, sys);
      c.Some? ==>
        && c.value.rest == sys.profile.rest
        && c.value.ipFilter.cidrs == f.cidrs && c.value.ipFilter.blocklistUrl == f.blocklistUrl
        && MetadataChanged(f, c.value.ipFilter)
  {
  }

  /** The two profiles agree on all that an operator decides. */
  ghost predicate SameChoices<Rest>(a: Profile<Rest>, b: Profile<Rest>) {
    a.rest == b.rest && a.ipFilter.cidrs == b.ipFilter.cidrs && a.ipFilter.blocklistUrl == b.ipFilter.blocklistUrl
  }

  /** An edit that lands while a refresh is under way survives exactly when the refresh writes nothing or
      decides what the store keeps of the profile that was read. */
  lemma EditSurvivesExactly<Rest>(env: Env, sys: System<Rest>, edit: Profile<Rest>, server: Server, t: Timing,
                                  accepted: bool)
    ensures var after := OvertakenRound(env, sys, edit, server, t, accepted);
      SameChoices(after.profile, edit) <==>
        || RoundChangeset(env, sys, server, t).None? || !accepted
        || SameChoices(edit, Kept(env, sys.profile.(ipFilter := Seen(env, sys))))
  {
    hide Load, Deduped, FailureMessage;
  }

  // ----- Provenance -----

  function RoundDownloads<Rest>(env: Env, sys: System<Rest>, server: Server, t: Timing): seq<Download> {
    var f := Seen(env, sys);
    if f.blocklistUrl.None? then []
    else Downloaded(Cleared(sys.slot, f.blocklistUrl), f.blocklistUrl.value, f.etag, server, t)
  }

  /** Every list received in full over a run. */
  function History<Rest>(env: Env, sys: System<Rest>, actions: seq<Action<Rest>>): seq<Download> {
    var n := |actions|;
    if n == 0 then [] else
      History(env, sys, actions[..n - 1]) +
      (match actions[n - 1]
       case Edit(_) => []
       case _ => RoundDownloads(env, Run(env, sys, actions[..n - 1]), actions[n - 1].server, actions[n - 1].t))
  }

  lemma RoundProvenance<Rest>(env: Env, history: seq<Download>, sys: System<Rest>, server: Server, t: Timing)
    requires SlotOk(history, sys.slot, env.canon)
    ensures var f, history' := Seen(env, sys), history + RoundDownloads(env, sys, server, t);
      && SlotOk(history', RoundResult(env, sys, server, t).0, env.canon)
      && (f.blocklistUrl.Some? && LoadFor(env, sys.slot, f, server, t).1.Success? ==>
            ParsedFrom(history', f.blocklistUrl.value, LoadFor(env, sys.slot, f, server, t).1.resolution.rules,
                env.canon))
  {
    var f := Seen(env, sys);
    hide Load, Downloaded, ParsedFrom;
    if f.blocklistUrl.Some? {
      LoadProvenance(history, Cleared(sys.slot, f.blocklistUrl), f.blocklistUrl.value, f.etag, server, t, env.canon);
    }
  }

  /** Over any run of edits and refreshes, with URLs changing at will, the slot holds a list downloaded
      from the slot's URL. */
  lemma {:induction false} RunProvenance<Rest>(env: Env, profile: Profile<Rest>, actions: seq<Action<Rest>>)
    ensures var start := System(None, profile);
      SlotOk(History(env, start, actions), Run(env, start, actions).slot, env.canon)
  {
    var start := System(None, profile);
    var n := |actions|;
    if n > 0 {
      var front, last := actions[..n - 1], actions[n - 1];
      RunProvenance(env, profile, front);
      var history, sys := History(env, start, front), Run(env, start, front);
      match last {
        case Edit(_) => assert history + [] == history;
        case Refresh(server, t, _) => RoundProvenance(env, history, sys, server, t);
        case Overtaken(_, server, t, _) => RoundProvenance(env, history, sys, server, t);
      }
    }
  }

  /** So the rules the next refresh gives the engine are the inline ones and, if it yields a list, those of
      one downloaded from the URL it asks for, each rule at its first occurrence. */
  lemma RefreshProvenance<Rest>(env: Env, profile: Profile<Rest>, actions: seq<Action<Rest>>, server: Server, t: Timing)
    ensures var sys := Run(env, System(None, profile), actions);
      var f, plan := Seen(env, sys), RoundResult(env, sys, server, t).1;
      && plan.runtime.Some?
      && var inline := if f.cidrs == [] && f.blocklistUrl.None? then [] else env.inline(f.cidrs);
      if f.blocklistUrl.Some? && LoadFor(env, sys.slot, f, server, t).1.Success? then
        exists rules ::
          && plan.runtime.value.rules == Deduped(inline + rules)
          && ParsedFrom(History(env, System(None, profile), actions) + RoundDownloads(env, sys, server, t),
                        f.blocklistUrl.value, rules, env.canon)
      else plan.runtime.value.rules == Deduped(inline)
  {
    var start := System(None, profile);
    var sys := Run(env, start, actions);
    RunProvenance(env, profile, actions);
    RoundProvenance(env, History(env, start, actions), sys, server, t);
    RoundRules(env, sys, server, t);
    hide RoundResult, LoadFor, ParsedFrom, SlotOk, Deduped, Seen, Run, History, PlanFor, RoundDownloads;
    var f := Seen(env, sys);
    if f.blocklistUrl.Some? && LoadFor(env, sys.slot, f, server, t).1.Success? {
      assert LoadedRules(LoadFor(env, sys.slot, f, server, t).1)
        == LoadFor(env, sys.slot, f, server, t).1.resolution.rules;
    }
  }

  lemma RoundRules<Rest>(env: Env, sys: System<Rest>, server: Server, t: Timing)
    ensures var f, runtime := Seen(env, sys), RoundResult(env, sys, server, t).1.runtime;
      var inline := if f.cidrs == [] && f.blocklistUrl.None? then [] else env.inline(f.cidrs);
      && runtime.Some?
      && runtime.value.rules ==
           if f.blocklistUrl.Some? && LoadFor(env, sys.slot, f, server, t).1.Success?
           then Deduped(inline + LoadFor(env, sys.slot, f, server, t).1.resolution.rules) else Deduped(inline)
  {
    hide Load, Deduped;
    assert FilterOf(PlanFor(env, sys.profile.ipFilter)).rules + []
      == FilterOf(PlanFor(env, sys.profile.ipFilter)).rules;
  }

  // ----- Refinement of a fetcher without a cache -----

  /** Edits leave the remembered tag alone and changesets go through. */
  ghost predicate Undisturbed<Rest>(env: Env, sys: System<Rest>, actions: seq<Action<Rest>>) {
    var n := |actions|;
    n > 0 ==>
      && Undisturbed(env, sys, actions[..n - 1])
      && match actions[n - 1]
         case Edit(p) => p.ipFilter.etag == Run(env, sys, actions[..n - 1]).profile.ipFilter.etag
         case Refresh(_, _, accepted) => accepted
         case Overtaken(p, _, _, accepted) =>
           accepted && p.ipFilter.etag == Run(env, sys, actions[..n - 1]).profile.ipFilter.etag
  }

  /** The profile remembers the tag of the slot, or none if that one is empty. */
  predicate TagsInStep<Rest>(sys: System<Rest>) {
    var tag := sys.profile.ipFilter.etag;
    sys.slot.Some? ==> sys.slot.value.etag == tag || (sys.slot.value.etag == Some("") && tag.None?)
  }

  lemma RoundTagsInStep<Rest>(env: Env, sys: System<Rest>, server: Server, t: Timing)
    requires EnvOk(env) && TagsInStep(sys)
    ensures TagsInStep(Round(env, sys, server, t, true))
  {
    var f := Seen(env, sys);
    SeenMetadata(env, sys);
    if f.blocklistUrl.Some? {
      LoadTag(Cleared(sys.slot, f.blocklistUrl), f.blocklistUrl.value, f.etag, server, t, env.canon);
    }
    hide Load, Deduped, FailureMessage;
  }

  lemma LoadTag(slot: Slot, url: string, etag: Option<string>, server: Server, t: Timing, canon: Canonicalize)
    ensures var (next, r) := Load(slot, url, etag, server, t, canon);
      if r.Success? then next.Some? && next.value.etag == r.resolution.etag
          && next.value.lastRefreshed == r.resolution.lastUpdatedAt
      else next == slot
  {
  }

  lemma {:induction false} RunTagsInStep<Rest>(env: Env, profile: Profile<Rest>, actions: seq<Action<Rest>>)
    requires EnvOk(env) && Undisturbed(env, System(None, profile), actions)
    ensures TagsInStep(Run(env, System(None, profile), actions))
  {
    var n := |actions|;
    if n > 0 {
      RunTagsInStep(env, profile, actions[..n - 1]);
      var sys := Run(env, System(None, profile), actions[..n - 1]);
      if !actions[n - 1].Edit? { RoundTagsInStep(env, sys, actions[n - 1].server, actions[n - 1].t); }
    }
  }

  /** Every refresh of the run asks a server that is honest about a site whose pages are listed. */
  ghost predicate Served<Rest>(pages: set<(string, Page)>, env: Env, sys: System<Rest>, actions: seq<Action<Rest>>) {
    var n := |actions|;
    n > 0 ==>
      && Served(pages, env, sys, actions[..n - 1])
      && (!actions[n - 1].Edit? ==>
            var url := Seen(env, Run(env, sys, actions[..n - 1])).blocklistUrl;
            url.Some? ==> exists site :: Honest(actions[n - 1].server, site) && (url.value, site(url.value)) in pages)
  }

  /** Over any run, with sites and URLs changing, edits and refused changesets at will, the slot holds a
      page the slot's URL has had, under that page's tag. */
  lemma {:induction false} RunSlotFrom<Rest>(pages: set<(string, Page)>, env: Env, profile: Profile<Rest>,
                                             actions: seq<Action<Rest>>)
    requires Served(pages, env, System(None, profile), actions)
    ensures SlotFrom(pages, Run(env, System(None, profile), actions).slot, env.canon)
  {
    var n := |actions|;
    if n > 0 {
      var front, last := actions[..n - 1], actions[n - 1];
      RunSlotFrom(pages, env, profile, front);
      var sys := Run(env, System(None, profile), front);
      if !last.Edit? {
        var f := Seen(env, sys);
        hide Load, SlotFrom, Deduped;
        if f.blocklistUrl.Some? {
          var url := f.blocklistUrl.value;
          var site :| Honest(last.server, site) && (url, site(url)) in pages;
          ClearedFrom(pages, sys.slot, f.blocklistUrl, env.canon);
          LoadSlotFrom(pages, Cleared(sys.slot, f.blocklistUrl), url, f.etag, last.server, site, last.t, env.canon);
        } else {
          ClearedFrom(pages, sys.slot, None, env.canon);
        }
      }
    }
  }

  lemma ClearedFrom(pages: set<(string, Page)>, slot: Slot, url: Option<string>, canon: Canonicalize)
    requires SlotFrom(pages, slot, canon)
    ensures SlotFrom(pages, Cleared(slot, url), canon) && SlotFrom(pages, None, canon)
  {
  }

  /** The refresh is told that nothing changed while the profile remembers another tag than the slot's. */
  predicate Misled<Rest>(env: Env, sys: System<Rest>, server: Server)
    requires Seen(env, sys).blocklistUrl.Some?
  {
    var f := Seen(env, sys);
    var slot := Cleared(sys.slot, f.blocklistUrl);
    Unmodified(slot, f.blocklistUrl.value, f.etag, server) && !TagAgrees(slot, f.etag)
  }

  /** The refresh asks the server and yields a list. */
  predicate Reaches<Rest>(env: Env, sys: System<Rest>, server: Server, t: Timing) {
    var f := Seen(env, sys);
    f.blocklistUrl.Some? && !Fresh(Cleared(sys.slot, f.blocklistUrl), f.blocklistUrl.value, t.checkedAt)
    && LoadFor(env, sys.slot, f, server, t).1.Success?
  }

  /** The list the refresh yields is the one the site now has, as a fetcher without a cache would parse it. */
  ghost predicate YieldsCurrent<Rest>(env: Env, sys: System<Rest>, server: Server, site: Site, t: Timing)
    requires Reaches(env, sys, server, t)
  {
    var f := Seen(env, sys);
    ParsesTo(site(f.blocklistUrl.value).lines, LoadFor(env, sys.slot, f, server, t).1.resolution.rules, env.canon)
  }

  /** After any run whatever, a refresh that reaches an honest server and yields a list yields the current
      one unless it is misled; and then it does not, when other tags mean other rules. */
  lemma RefreshCurrentExactly<Rest>(pages: set<(string, Page)>, env: Env, profile: Profile<Rest>,
      actions: seq<Action<Rest>>, server: Server, site: Site, t: Timing)
    requires StrongTags(pages) && Served(pages, env, System(None, profile), actions)
    requires Honest(server, site) && Reaches(env, Run(env, System(None, profile), actions), server, t)
    requires var url := Seen(env, Run(env, System(None, profile), actions)).blocklistUrl.value;
      (url, site(url)) in pages
    ensures var sys := Run(env, System(None, profile), actions);
      && (!Misled(env, sys, server) ==> YieldsCurrent(env, sys, server, site, t))
      && (DistinctLists(pages, env.canon) ==>
            (YieldsCurrent(env, sys, server, site, t) <==> !Misled(env, sys, server)))
  {
    var sys := Run(env, System(None, profile), actions);
    RunSlotFrom(pages, env, profile, actions);
    ClearedFrom(pages, sys.slot, Seen(env, sys).blocklistUrl, env.canon);
    hide Load, StrongTags, Honest, SlotFrom, Served, Run, DistinctLists, ParsesTo, Unmodified, TagAgrees;
    LoadCurrentExactly(pages, Cleared(sys.slot, Seen(env, sys).blocklistUrl), Seen(env, sys).blocklistUrl.value,
                       Seen(env, sys).etag, server, site, t, env.canon);
  }

  /** The cache refines a fetcher without one: after any run with changing sites and URLs in which edits
      leave the tag alone and changesets go through, a refresh that reaches the server and succeeds
      yields the server's current list. */
  lemma CacheRefinesFetcher<Rest>(pages: set<(string, Page)>, env: Env, profile: Profile<Rest>,
      actions: seq<Action<Rest>>, server: Server, site: Site, t: Timing)
    requires EnvOk(env) && StrongTags(pages)
    requires Undisturbed(env, System(None, profile), actions) && Served(pages, env, System(None, profile), actions)
    requires Honest(server, site) && Reaches(env, Run(env, System(None, profile), actions), server, t)
    requires var url := Seen(env, Run(env, System(None, profile), actions)).blocklistUrl.value;
      (url, site(url)) in pages
    ensures YieldsCurrent(env, Run(env, System(None, profile), actions), server, site, t)
  {
    var sys := Run(env, System(None, profile), actions);
    RunTagsInStep(env, profile, actions);
    SeenMetadata(env, sys);
    hide Run, Served, StrongTags, Honest, EnvOk, Unmodified, YieldsCurrent, Reaches, Undisturbed;
    RefreshCurrentExactly(pages, env, profile, actions, server, site, t);
  }

  // ----- Two runs that end in a stale list -----

  /** Two pages, and refreshes each after the window of the one before. */
  predicate TwoPages(env: Env, a: Page, b: Page, t1: Timing, t2: Timing, t3: Timing) {
    && a.tag != b.tag && ParsedBlocklist(a.lines, env.canon).Parsed? && ParsedBlocklist(b.lines, env.canon).Parsed?
    && Elapsed(t1.fetchedAt, t2.checkedAt) >= BLOCKLIST_REFRESH_INTERVAL
    && Elapsed(t2.fetchedAt, t3.checkedAt) >= BLOCKLIST_REFRESH_INTERVAL
  }

  function Fetched(env: Env, url: string, tag: Option<string>, lines: seq<string>, t: Timing): IpFilterCache {
    var parsed := ParsedBlocklist(lines, env.canon);
    IpFilterCache(url, tag, if parsed.Parsed? then parsed.rules else [], t.fetchedAt, t.now)
  }

  lemma FirstPage<Rest>(env: Env, profile: Profile<Rest>, url: string, a: Page, t: Timing)
    requires EnvOk(env) && Seen(env, System(None, profile)).blocklistUrl == Some(url) && profile.ipFilter.etag.None?
    requires ParsedBlocklist(a.lines, env.canon).Parsed?
    ensures var sys := Round(env, System(None, profile), Serving(a), t, true);
      && sys.slot == Some(Fetched(env, url, Some(a.tag), a.lines, t))
      && Seen(env, sys).blocklistUrl == Some(url) && sys.profile.ipFilter.etag == NonEmpty(Some(a.tag))
  {
    SeenMetadata(env, System(None, profile));
    UrlStays(env, System(None, profile), Serving(a), t, true);
    hide Deduped, FailureMessage, ParsedBlocklist, EnvOk, Blank, Elapsed, WithoutBlank;
  }

  /** A server that sends a list in full and no tag. */
  function Untagged(lines: seq<string>): Server {
    (_: Request) => Answer(200, None, Some(lines))
  }

  /** The list is sent in full, under the tag of the answer or else the one remembered. */
  predicate SendsInFull<Rest>(env: Env, sys: System<Rest>, url: string, server: Server, tag: Option<string>,
                              lines: seq<string>)
  {
    && Seen(env, sys).blocklistUrl == Some(url) && sys.slot.Some? && sys.slot.value.url == url
    && var etag := sys.profile.ipFilter.etag;
    server(RequestFor(sys.slot, url, etag)) == Answer(200, tag, Some(lines))
  }

  lemma OtherPage<Rest>(env: Env, sys: System<Rest>, url: string, server: Server, tag: Option<string>,
                        lines: seq<string>, t: Timing, accepted: bool)
    requires EnvOk(env) && SendsInFull(env, sys, url, server, tag, lines)
    requires !Fresh(sys.slot, url, t.checkedAt) && ParsedBlocklist(lines, env.canon).Parsed?
    ensures var next := Round(env, sys, server, t, accepted);
      && next.slot == Some(Fetched(env, url, tag.Or(sys.profile.ipFilter.etag), lines, t))
      && Seen(env, next).blocklistUrl == Some(url)
      && (!accepted ==> next.profile == sys.profile)
      && (tag.None? ==> NonEmpty(next.profile.ipFilter.etag) == NonEmpty(sys.profile.ipFilter.etag))
      && (accepted && sys.profile.ipFilter.etag.None? ==> NonEmpty(next.profile.ipFilter.etag) == NonEmpty(tag))
  {
    SeenMetadata(env, sys);
    UrlStays(env, sys, server, t, accepted);
    hide Deduped, FailureMessage, ParsedBlocklist, EnvOk;
  }

  lemma FetchedFields(env: Env, url: string, tag: Option<string>, lines: seq<string>, t: Timing)
    ensures var c := Fetched(env, url, tag, lines, t);
      && c.url == url && c.etag == tag && c.fetchedAt == t.fetchedAt
      && (ParsedBlocklist(lines, env.canon).Parsed? ==> c.rules == ParsedBlocklist(lines, env.canon).rules)
  {
    hide ParsedBlocklist;
  }

  lemma NotFresh(env: Env, url: string, tag: Option<string>, lines: seq<string>, t: Timing, later: Timing)
    requires Elapsed(t.fetchedAt, later.checkedAt) >= BLOCKLIST_REFRESH_INTERVAL
    ensures !Fresh(Some(Fetched(env, url, tag, lines, t)), url, later.checkedAt)
  {
    hide ParsedBlocklist, Elapsed;
  }

  /** After page `a`, page `b` is sent in full: whichever tag is sent, it is not b's. */
  lemma PageSent<Rest>(env: Env, sys: System<Rest>, url: string, a: Page, b: Page)
    requires Seen(env, sys).blocklistUrl == Some(url) && sys.slot.Some? && sys.slot.value.url == url && a.tag != b.tag
    requires sys.slot.value.etag == Some(a.tag) && sys.profile.ipFilter.etag == NonEmpty(Some(a.tag))
    ensures SendsInFull(env, sys, url, Serving(b), Some(b.tag), b.lines)
  {
  }

  lemma UntaggedSent<Rest>(env: Env, sys: System<Rest>, url: string, b: Page)
    requires Seen(env, sys).blocklistUrl == Some(url) && sys.slot.Some? && sys.slot.value.url == url
    ensures SendsInFull(env, sys, url, Untagged(b.lines), None, b.lines)
  {
  }

  /** Page `a` is served while the slot holds something else: a 304 if a's tag is sent, else the page. */
  lemma FirstPageAgain<Rest>(env: Env, sys: System<Rest>, url: string, a: Page, t: Timing)
    requires EnvOk(env) && Seen(env, sys).blocklistUrl == Some(url) && sys.slot.Some? && sys.slot.value.url == url
    requires !Fresh(sys.slot, url, t.checkedAt) && ParsedBlocklist(a.lines, env.canon).Parsed?
    ensures Reaches(env, sys, Serving(a), t)
    ensures var sent := sys.profile.ipFilter.etag.Or(sys.slot.value.etag);
      && LoadFor(env, sys.slot, Seen(env, sys), Serving(a), t).1.resolution.rules
         == (if sent == Some(a.tag) then sys.slot.value.rules else ParsedBlocklist(a.lines, env.canon).rules)
      && (Misled(env, sys, Serving(a)) <==>
            sys.profile.ipFilter.etag == Some(a.tag) && sys.slot.value.etag != Some(a.tag))
  {
    SeenMetadata(env, sys);
    hide Deduped, ParsedBlocklist, EnvOk;
  }

  /** Page `a` is fetched and noted; page `b` replaces it but the changeset is refused; page `a` is served
      again. If a's tag is one the store keeps, the server confirms it and the refresh yields b's rules. */
  lemma RefusedChangesetMisleads<Rest>(env: Env, profile: Profile<Rest>, url: string, a: Page, b: Page, t1: Timing,
                                       t2: Timing, t3: Timing)
    requires EnvOk(env) && Seen(env, System(None, profile)).blocklistUrl == Some(url) && profile.ipFilter.etag.None?
    requires TwoPages(env, a, b, t1, t2, t3)
    ensures var sys := Run(env, System(None, profile), [Refresh(Serving(a), t1, true), Refresh(Serving(b), t2, false)]);
      && Honest(Serving(a), (_: string) => a) && Reaches(env, sys, Serving(a), t3)
      && (Misled(env, sys, Serving(a)) <==> a.tag != "")
      && LoadFor(env, sys.slot, Seen(env, sys), Serving(a), t3).1.resolution.rules
         == ParsedBlocklist(if a.tag != "" then b.lines else a.lines, env.canon).rules
  {
    var start := System(None, profile);
    var first: Action<Rest> := Refresh(Serving(a), t1, true);
    var second: Action<Rest> := Refresh(Serving(b), t2, false);
    var one := Round(env, start, Serving(a), t1, true);
    var two := Round(env, one, Serving(b), t2, false);
    assert Run(env, start, [first, second]) == two by { RunOfTwo(env, start, first, second); }
    hide Round, EnvOk, ParsedBlocklist, LoadFor, Reaches, Misled, Fetched, Fresh, SendsInFull, Run, Honest;
    ServingHonest(a);
    FirstPage(env, profile, url, a, t1);
    FetchedFields(env, url, Some(a.tag), a.lines, t1);
    PageSent(env, one, url, a, b);
    NotFresh(env, url, Some(a.tag), a.lines, t1, t2);
    OtherPage(env, one, url, Serving(b), Some(b.tag), b.lines, t2, false);
    FetchedFields(env, url, Some(b.tag), b.lines, t2);
    NotFresh(env, url, Some(b.tag), b.lines, t2, t3);
    FirstPageAgain(env, two, url, a, t3);
  }

  /** Page `a` is fetched and noted; then `b` is sent without a tag and cached under a's; page `a` is served
      again. Every changeset is stored, yet if a's tag is one the store keeps, the refresh yields b's rules. */
  lemma UntaggedAnswerMisleads<Rest>(env: Env, profile: Profile<Rest>, url: string, a: Page, b: Page, t1: Timing,
                                     t2: Timing, t3: Timing)
    requires EnvOk(env) && Seen(env, System(None, profile)).blocklistUrl == Some(url) && profile.ipFilter.etag.None?
    requires TwoPages(env, a, b, t1, t2, t3)
    ensures var sys := Run(env, System(None, profile),
                           [Refresh(Serving(a), t1, true), Refresh(Untagged(b.lines), t2, true)]);
      && Reaches(env, sys, Serving(a), t3)
      && LoadFor(env, sys.slot, Seen(env, sys), Serving(a), t3).1.resolution.rules
         == ParsedBlocklist(if a.tag != "" then b.lines else a.lines, env.canon).rules
  {
    var start := System(None, profile);
    var first: Action<Rest> := Refresh(Serving(a), t1, true);
    var second: Action<Rest> := Refresh(Untagged(b.lines), t2, true);
    var one := Round(env, start, Serving(a), t1, true);
    var two := Round(env, one, Untagged(b.lines), t2, true);
    assert Run(env, start, [first, second]) == two by { RunOfTwo(env, start, first, second); }
    hide Round, EnvOk, ParsedBlocklist, LoadFor, Reaches, Misled, Fetched, Fresh, SendsInFull, Run;
    FirstPage(env, profile, url, a, t1);
    FetchedFields(env, url, Some(a.tag), a.lines, t1);
    UntaggedSent(env, one, url, b);
    NotFresh(env, url, Some(a.tag), a.lines, t1, t2);
    OtherPage(env, one, url, Untagged(b.lines), None, b.lines, t2, true);
    FetchedFields(env, url, one.profile.ipFilter.etag, b.lines, t2);
    NotFresh(env, url, one.profile.ipFilter.etag, b.lines, t2, t3);
    FirstPageAgain(env, two, url, a, t3);
  }

  lemma RunOfTwo<Rest>(env: Env, sys: System<Rest>, a: Action<Rest>, b: Action<Rest>)
    ensures Run(env, sys, [a, b]) == Act(env, Act(env, sys, a), b)
  {
    hide Act;
    assert [a, b][..1] == [a] && [a][..0] == [];
    assert Run(env, sys, [a]) == Act(env, sys, a);
  }
}
