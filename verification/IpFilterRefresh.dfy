/** Refreshing the IP filter of the engine profile: inline rules, the fetched blocklist and the metadata
    written back to the configuration.

    `refresh_ip_filter` is described by `Refreshed`; the class runs it statement by statement. */
module IpFilterRefresh {
  import opened Basics
  import opened BlocklistRules
  import opened BlocklistFetch
  import opened Text

  datatype IpFilterConfig = IpFilterConfig(
    cidrs: seq<string>, blocklistUrl: Option<string>, etag: Option<string>, lastUpdatedAt: Option<Instant>,
    lastError: Option<string>)

  /** An engine profile; everything but its IP filter is opaque. */
  datatype Profile<Rest> = Profile(ipFilter: IpFilterConfig, rest: Rest)

  datatype RuntimeFilter = RuntimeFilter(
    rules: seq<Rule>, blocklistUrl: Option<string>, etag: Option<string>, lastUpdatedAt: Option<Instant>)

  datatype Warning = SkippedEntries(count: nat, url: string) | FetchFailed(message: string) | PersistFailed

  /** The part of an engine plan the refresh works on. */
  datatype Plan = Plan(effective: IpFilterConfig, runtime: Option<RuntimeFilter>, warnings: seq<Warning>)

  /** Code outside this model: canonicalisation of one entry, profile normalisation, the ranges of the
      inline entries, and what the settings store keeps of a timestamp. */
  datatype Env = Env(
    canon: Canonicalize, normalize: IpFilterConfig -> IpFilterConfig, inline: seq<string> -> seq<Rule>,
    keep: Instant -> Instant)

  predicate Blank(text: string) { Trim(text) == "" }

  function WithoutBlank(url: Option<string>): Option<string> {
    if url.Some? && Blank(url.value) then None else url
  }

  ghost predicate SameMetadata(a: IpFilterConfig, b: IpFilterConfig) {
    a.etag == b.etag && a.lastUpdatedAt == b.lastUpdatedAt && a.lastError == b.lastError
  }

  /** Normalising a profile clears a blank URL and leaves the rest of the filter's metadata alone. */
  ghost predicate EnvOk(env: Env) {
    forall f :: SameMetadata(env.normalize(f), f) && env.normalize(f).blocklistUrl == WithoutBlank(f.blocklistUrl)
  }

  /** `EngineRuntimePlan::from_profile`, as far as the filter goes. */
  function PlanFor(env: Env, filter: IpFilterConfig): Plan {
    var effective := env.normalize(filter);
    var runtime :=
      if effective.cidrs == [] && effective.blocklistUrl.None? then None
      else Some(RuntimeFilter(env.inline(effective.cidrs), effective.blocklistUrl, effective.etag,
          effective.lastUpdatedAt));
    Plan(effective, runtime, [])
  }

  const NO_FILTER := RuntimeFilter([], None, None, None)

  function FilterOf(plan: Plan): RuntimeFilter {
    if plan.runtime.Some? then plan.runtime.value else NO_FILTER
  }

  function Describe(e: LoadError): string {
    match e
    case HttpError => "http operation failed"
    case HttpStatus(_) => "http response status error"
    case MissingState(_) => "missing state"
    case InvalidConfig => "invalid configuration"
  }

  function FailureMessage(url: string, e: LoadError): (r: string)
    ensures r != ""
  {
    "blocklist fetch failed for " + url + ": " + Describe(e)
  }

  /** The texts of the application's error type behind the URL. */
  lemma FailureTexts(url: string, status: nat)
    ensures FailureMessage(url, HttpError) == "blocklist fetch failed for " + url + ": " + Describe(HttpError)
    ensures Describe(HttpError) == "http operation failed"
    ensures Describe(HttpStatus(status)) == "http response status error"
    ensures Describe(MissingState(url)) == "missing state"
    ensures Describe(InvalidConfig) == "invalid configuration"
  {
  }

  /** The slot a refresh starts from: one of another URL is dropped. */
  function Cleared(slot: Slot, url: Option<string>): Slot {
    if slot.Some? && Some(slot.value.url) != url then None else slot
  }

  /** What a load makes of the filter's metadata. */
  function Noted(filter: IpFilterConfig, url: string, r: Loaded): IpFilterConfig {
    match r
    case Success(res) => filter.(etag := res.etag, lastUpdatedAt := Some(res.lastUpdatedAt), lastError := None)
    case Failure(e) => filter.(lastError := Some(FailureMessage(url, e)))
  }

  function LoadWarnings(url: string, r: Loaded): seq<Warning> {
    match r
    case Success(res) => if res.skipped > 0 then [SkippedEntries(res.skipped, url)] else []
    case Failure(e) => [FetchFailed(FailureMessage(url, e))]
  }

  function LoadedRules(r: Loaded): seq<Rule> {
    if r.Success? then r.resolution.rules else []
  }

  /** The load a refresh performs, if the plan has a blocklist. */
  function LoadFor(env: Env, slot: Slot, filter: IpFilterConfig, server: Server, t: Timing): (Slot, Loaded)
    requires filter.blocklistUrl.Some?
  {
    Load(Cleared(slot, filter.blocklistUrl), filter.blocklistUrl.value, filter.etag, server, t, env.canon)
  }

  /** The slot and the plan after a refresh, its metadata not yet persisted. */
  function Refreshed(env: Env, slot: Slot, plan: Plan, server: Server, t: Timing): (Slot, Plan) {
    var previous := plan.effective;
    if previous.blocklistUrl.None? then
      (None, Plan(previous.(lastError := None),
                  Some(RuntimeFilter(Deduped(FilterOf(plan).rules), None, None, None)), plan.warnings))
    else
      var url := previous.blocklistUrl.value;
      var (next, r) := LoadFor(env, slot, previous, server, t);
      var noted := Noted(previous, url, r);
      (next, Plan(noted,
                  Some(RuntimeFilter(Deduped(FilterOf(plan).rules + LoadedRules(r)), Some(url), noted.etag,
                      noted.lastUpdatedAt)),
                  plan.warnings + LoadWarnings(url, r)))
  }

  /** The runtime filter and the metadata after a refresh: of the loaded list after a success, the ones
      remembered and an error text after a failure, none without a URL. */
  lemma RefreshOutcomes(env: Env, slot: Slot, plan: Plan, server: Server, t: Timing)
    ensures var (next, after) := Refreshed(env, slot, plan, server, t);
      var f, inline := plan.effective, if plan.runtime.Some? then plan.runtime.value.rules else [];
      if f.blocklistUrl.None? then
        && next.None? && after.warnings == plan.warnings && after.effective == f.(lastError := None)
        && after.runtime == Some(RuntimeFilter(Deduped(inline), None, None, None))
      else
        var url := f.blocklistUrl.value;
        var kept := if slot.Some? && slot.value.url == url then slot else None;
        var (loaded, r) := Load(kept, url, f.etag, server, t, env.canon);
        && next == loaded
        && match r
           case Success(list) =>
             && after.runtime == Some(RuntimeFilter(Deduped(inline + list.rules), Some(url), list.etag,
                                                    Some(list.lastUpdatedAt)))
             && after.effective == f.(etag := list.etag, lastUpdatedAt := Some(list.lastUpdatedAt), lastError := None)
             && after.warnings ==
                plan.warnings + if list.skipped == 0 then [] else [SkippedEntries(list.skipped, url)]
           case Failure(e) =>
             && after.runtime == Some(RuntimeFilter(Deduped(inline), Some(url), f.etag, f.lastUpdatedAt))
             && after.effective == f.(lastError := Some(FailureMessage(url, e)))
             && after.warnings == plan.warnings + [FetchFailed(FailureMessage(url, e))]
  {
    hide Load, Deduped, FailureMessage;
    assert FilterOf(plan).rules + [] == FilterOf(plan).rules && plan.warnings + [] == plan.warnings;
    if plan.effective.blocklistUrl.Some? {
      var r := LoadFor(env, slot, plan.effective, server, t).1;
      if r.Success? && r.resolution.skipped == 0 { assert LoadWarnings(plan.effective.blocklistUrl.value, r) == []; }
    }
  }

  predicate MetadataChanged(previous: IpFilterConfig, updated: IpFilterConfig) {
    previous.etag != updated.etag || previous.lastUpdatedAt != updated.lastUpdatedAt
        || previous.lastError != updated.lastError
  }

  /** The changeset a refresh issues. */
  function Changeset<Rest>(profile: Profile<Rest>, previous: IpFilterConfig,
      updated: IpFilterConfig): Option<Profile<Rest>> {
    if MetadataChanged(previous, updated) then Some(profile.(ipFilter := updated)) else None
  }

  /** A column of microseconds drops the nanoseconds of the clock. */
  function KeepMicros(t: Instant): Instant { t - t % 1000 }

  /** The settings store keeps timestamps to the microsecond. */
  ghost predicate MicrosStore(env: Env) {
    forall t :: env.keep(t) == KeepMicros(t)
  }

  /** A text column holds no empty text. */
  function NonEmpty(text: Option<string>): Option<string> {
    if text == Some("") then None else text
  }

  function KeptTime(env: Env, at: Option<Instant>): Option<Instant> {
    if at.Some? then Some(env.keep(at.value)) else None
  }

  /** What the settings store keeps of a profile (`set_engine_ip_filter`). */
  function Kept<Rest>(env: Env, p: Profile<Rest>): Profile<Rest> {
    var f := p.ipFilter;
    p.(ipFilter := f.(blocklistUrl := NonEmpty(f.blocklistUrl), etag := NonEmpty(f.etag),
                      lastUpdatedAt := KeptTime(env, f.lastUpdatedAt), lastError := NonEmpty(f.lastError)))
  }

  // ----- One round of the loop -----

  /** The cache slot and the stored profile. */
  datatype System<Rest> = System(slot: Slot, profile: Profile<Rest>)

  /** The filter a refresh reads from the stored profile. */
  function Seen<Rest>(env: Env, sys: System<Rest>): IpFilterConfig { env.normalize(sys.profile.ipFilter) }

  /** What is read of the URL is never blank, and the tag, the time and the error are the stored ones. */
  lemma SeenMetadata<Rest>(env: Env, sys: System<Rest>)
    requires EnvOk(env)
    ensures var f := Seen(env, sys);
      && SameMetadata(f, sys.profile.ipFilter) && f.blocklistUrl == WithoutBlank(sys.profile.ipFilter.blocklistUrl)
      && f.blocklistUrl != Some("") && WithoutBlank(f.blocklistUrl) == f.blocklistUrl
  {
    assert Blank("");
    assert SameMetadata(env.normalize(sys.profile.ipFilter), sys.profile.ipFilter);
  }

  /** A changeset that is stored leaves the URL that will be read as it was. */
  lemma UrlStays<Rest>(env: Env, sys: System<Rest>, server: Server, t: Timing, accepted: bool)
    requires EnvOk(env)
    ensures Seen(env, Round(env, sys, server, t, accepted)).blocklistUrl == Seen(env, sys).blocklistUrl
  {
    SeenMetadata(env, sys);
    SeenMetadata(env, Round(env, sys, server, t, accepted));
    hide Load, Deduped, FailureMessage, Blank, EnvOk;
  }

  function RoundResult<Rest>(env: Env, sys: System<Rest>, server: Server, t: Timing): (Slot, Plan) {
    Refreshed(env, sys.slot, PlanFor(env, sys.profile.ipFilter), server, t)
  }

  function RoundChangeset<Rest>(env: Env, sys: System<Rest>, server: Server, t: Timing): Option<Profile<Rest>> {
    Changeset(sys.profile, Seen(env, sys), RoundResult(env, sys, server, t).1.effective)
  }

  /** `update_engine_profile` on the stored profile. */
  function Round<Rest>(env: Env, sys: System<Rest>, server: Server, t: Timing, accepted: bool): System<Rest> {
    var changeset := RoundChangeset(env, sys, server, t);
    System(RoundResult(env, sys, server, t).0,
           if changeset.Some? && accepted then Kept(env, changeset.value) else sys.profile)
  }

  // ----- The service -----

  class SettingsStore<Rest> {
    const env: Env
    var profile: Profile<Rest>
    var changesets: seq<Profile<Rest>>

    constructor (env: Env, profile: Profile<Rest>)
      ensures this.env == env && this.profile == profile && changesets == []
    {
      this.env := env;
      this.profile := profile;
      changesets := [];
    }

    /** `apply_changeset`; `accepted` is whether the transaction goes through. */
    method ApplyChangeset(update: Profile<Rest>, accepted: bool) returns (ok: bool)
      modifies this
      ensures changesets == old(changesets) + [update] && ok == accepted
      ensures profile == if accepted then Kept(env, update) else old(profile)
    {
      changesets := changesets + [update];
      if accepted { profile := Kept(env, update); }
      ok := accepted;
    }
  }

  class Refresher<Rest> {
    const env: Env
    const config: SettingsStore?<Rest>
    var engineProfile: Profile<Rest>
    var ipFilterCache: Slot

    constructor (env: Env, profile: Profile<Rest>, config: SettingsStore?<Rest>)
      ensures this.env == env && this.config == config && engineProfile == profile && ipFilterCache == None
    {
      this.env := env;
      this.config := config;
      engineProfile := profile;
      ipFilterCache := None;
    }

    method SetIpFilterCache(cache: IpFilterCache)
      modifies this`ipFilterCache
      ensures ipFilterCache == Some(cache)
    {
      ipFilterCache := Some(cache);
    }

    method ClearIpFilterCache()
      modifies this`ipFilterCache
      ensures ipFilterCache == None
    {
      ipFilterCache := None;
    }

    method LoadBlocklist(url: string, etag: Option<string>, server: Server, t: Timing) returns (r: Loaded)
      modifies this`ipFilterCache
      ensures (ipFilterCache, r) == Load(old(ipFilterCache), url, etag, server, t, env.canon)
    {
      var cached := ipFilterCache;
      if cached.Some? && cached.value.url == url
          && Elapsed(cached.value.fetchedAt, t.checkedAt) < BLOCKLIST_REFRESH_INTERVAL {
        var cache := cached.value;
        return Success(Resolution(cache.rules, cache.etag, cache.lastRefreshed, 0));
      }
      var request := Request(url, None);
      var tag := etag.Or(if cached.Some? then cached.value.etag else None);
      if tag.Some? {
        request := request.(ifNoneMatch := tag);
      }
      var response := server(request);
      if response.SendError? {
        return Failure(HttpError);
      }
      if response.status == NOT_MODIFIED {
        if cached.Some? {
          var cache := cached.value;
          SetIpFilterCache(IpFilterCache(cache.url, cache.etag, cache.rules, t.fetchedAt, t.now));
          return Success(Resolution(cache.rules, cache.etag, t.now, 0));
        }
        return Failure(MissingState(url));
      }
      if !IsSuccess(response.status) {
        return Failure(HttpStatus(response.status));
      }
      if response.body.None? {
        return Failure(HttpError);
      }
      var parsed := ParseBlocklist(response.body.value, env.canon);
      if parsed.TooManyEntries? {
        return Failure(InvalidConfig);
      }
      var merged := response.etag.Or(etag);
      SetIpFilterCache(IpFilterCache(url, merged, parsed.rules, t.fetchedAt, t.now));
      r := Success(Resolution(parsed.rules, merged, t.now, parsed.skipped));
    }

    method PersistIpFilterMetadata(config: SettingsStore<Rest>, previous: IpFilterConfig, updated: IpFilterConfig,
                                   accepted: bool) returns (ok: bool)
      requires config.env == env
      modifies config
      ensures var changeset := Changeset(engineProfile, previous, updated);
        && config.changesets == old(config.changesets) + (if changeset.Some? then [changeset.value] else [])
        && config.profile == (if changeset.Some? && accepted then Kept(env, changeset.value) else old(config.profile))
        && (ok <==> changeset.None? || accepted)
    {
      if previous.etag == updated.etag && previous.lastUpdatedAt == updated.lastUpdatedAt
         && previous.lastError == updated.lastError {
        return true;
      }
      var profile := engineProfile;
      profile := profile.(ipFilter := updated);
      ok := config.ApplyChangeset(profile, accepted);
    }

    /** The first half of `refresh_ip_filter`: rules and metadata. The plan is mutated in place in the
        original; here the new plan is returned. */
    method ResolveIpFilter(plan: Plan, server: Server, t: Timing) returns (plan': Plan)
      modifies this`ipFilterCache
      ensures (ipFilterCache, plan') == Refreshed(env, old(ipFilterCache), plan, server, t)
    {
      hide Load, Merged, Deduped, FailureMessage;
      var previous := plan.effective;
      var runtimeFilter := if plan.runtime.Some? then plan.runtime.value else RuntimeFilter([], None, None, None);
      var rules := runtimeFilter.rules;
      ghost var inline := rules;
      var etag := previous.etag;
      var lastUpdatedAt := previous.lastUpdatedAt;
      var warnings: seq<Warning> := [];
      var lastError: Option<string> := None;

      var cached := ipFilterCache;
      if cached.Some? && Some(cached.value.url) != previous.blocklistUrl {
        ClearIpFilterCache();
      }
      runtimeFilter := runtimeFilter.(blocklistUrl := previous.blocklistUrl);

      if previous.blocklistUrl.Some? {
        var url := previous.blocklistUrl.value;
        var r := LoadBlocklist(url, etag, server, t);
        match r {
          case Success(resolution) =>
            rules := MergeRules(rules, resolution.rules);
            DedupeMerge(inline, resolution.rules);
            etag := resolution.etag;
            lastUpdatedAt := Some(resolution.lastUpdatedAt);
            if resolution.skipped > 0 { warnings := warnings + [SkippedEntries(resolution.skipped, url)]; }
          case Failure(err) =>
            var message := FailureMessage(url, err);
            warnings := warnings + [FetchFailed(message)];
            lastError := Some(message);
            assert inline + [] == inline;
        }
        runtimeFilter := runtimeFilter.(etag := etag, lastUpdatedAt := lastUpdatedAt);
      } else {
        ClearIpFilterCache();
        runtimeFilter := runtimeFilter.(etag := None, lastUpdatedAt := None);
        assert plan.warnings + warnings == plan.warnings;
      }

      var deduped := DedupeRules(rules);
      runtimeFilter := runtimeFilter.(rules := deduped);
      var effective := plan.effective.(etag := etag, lastUpdatedAt := lastUpdatedAt, lastError := lastError);
      plan' := Plan(effective, Some(runtimeFilter), plan.warnings + warnings);
      ghost var expected := Refreshed(env, old(ipFilterCache), plan, server, t);
      assert ipFilterCache == expected.0;
      assert plan'.effective == expected.1.effective;
      assert plan'.warnings == expected.1.warnings;
      assert plan'.runtime == expected.1.runtime;
    }

    method RefreshIpFilter(plan: Plan, server: Server, t: Timing, accepted: bool) returns (plan': Plan)
      requires config != null ==> config.env == env
      modifies this`ipFilterCache, config
      ensures var (slot, refreshed) := Refreshed(env, old(ipFilterCache), plan, server, t);
        var changeset := Changeset(engineProfile, plan.effective, refreshed.effective);
        && ipFilterCache == slot
        && (config != null ==>
              && config.changesets == old(config.changesets) + (if changeset.Some? then [changeset.value] else [])
              && config.profile ==
                 (if changeset.Some? && accepted then Kept(env, changeset.value) else old(config.profile)))
        && plan' == refreshed.(warnings := refreshed.warnings +
              if config != null && changeset.Some? && !accepted then [PersistFailed] else [])
    {
      hide Refreshed, Kept;
      plan' := ResolveIpFilter(plan, server, t);
      assert plan'.warnings + [] == plan'.warnings;
      if config != null {
        var ok := PersistIpFilterMetadata(config, plan.effective, plan'.effective, accepted);
        if !ok { plan' := plan'.(warnings := plan'.warnings + [PersistFailed]); }
      }
    }

    /** `update_engine_profile` up to the refresh; the plan goes on to the engine. On the profile just
        read back from the store this is one round of the loop. */
    method UpdateEngineProfile(profile: Profile<Rest>, server: Server, t: Timing, accepted: bool) returns (plan: Plan)
      requires config != null ==> config.env == env
      modifies this, config
      ensures engineProfile == profile
      ensures var sys := System(old(ipFilterCache), profile);
        var (slot, refreshed) := RoundResult(env, sys, server, t);
        var changeset := RoundChangeset(env, sys, server, t);
        && ipFilterCache == slot
        && plan == refreshed.(warnings := refreshed.warnings +
              if config != null && changeset.Some? && !accepted then [PersistFailed] else [])
        && (config != null ==>
              && config.changesets == old(config.changesets) + (if changeset.Some? then [changeset.value] else [])
              && (profile == old(config.profile) ==>
                  System(ipFilterCache, config.profile) == Round(env, sys, server, t, accepted)))
    {
      hide Refreshed, Kept;
      engineProfile := profile;
      plan := PlanFor(env, profile.ipFilter);
      plan := RefreshIpFilter(plan, server, t, accepted);
    }
  }
}
