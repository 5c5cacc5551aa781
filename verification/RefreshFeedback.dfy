/** The loop between the refresh and the settings store: a refresh that writes wakes the watcher, which
    refreshes again. When the loop comes to rest, and when it never does. */
module RefreshFeedback {
  import opened Basics
  import opened BlocklistRules
  import opened BlocklistFetch
  import opened IpFilterRefresh
  import opened RefreshRuns

  // ----- The feedback loop -----

  /** The store gives back the slot's tag and time as they are. */
  predicate StoreKeeps(env: Env, c: IpFilterCache) {
    c.etag != Some("") && env.keep(c.lastRefreshed) == c.lastRefreshed
  }

  /** The slot is of the profile's URL, and the profile holds what the store keeps of the slot's tag and
      time, and no error. */
  predicate InStep<Rest>(env: Env, sys: System<Rest>) {
    var f := sys.profile.ipFilter;
    && sys.slot.Some? && Seen(env, sys).blocklistUrl == Some(sys.slot.value.url) && f.lastError.None?
    && f.etag == NonEmpty(sys.slot.value.etag) && f.lastUpdatedAt == Some(env.keep(sys.slot.value.lastRefreshed))
  }

  /** A refresh that obtains a list and persists its metadata leaves the system in step. */
  lemma SuccessInStep<Rest>(env: Env, sys: System<Rest>, server: Server, t: Timing)
    requires EnvOk(env) && Seen(env, sys).blocklistUrl.Some?
    requires LoadFor(env, sys.slot, Seen(env, sys), server, t).1.Success?
    requires RoundChangeset(env, sys, server, t).Some?
    ensures var next := Round(env, sys, server, t, true);
      next.slot.Some? && InStep(env, next)
  {
    var f := Seen(env, sys);
    var url := f.blocklistUrl.value;
    SeenMetadata(env, sys);
    UrlStays(env, sys, server, t, true);
    LoadTag(Cleared(sys.slot, f.blocklistUrl), url, f.etag, server, t, env.canon);
    LoadUrl(Cleared(sys.slot, f.blocklistUrl), url, f.etag, server, t, env.canon);
    hide Load, Deduped, FailureMessage, EnvOk;
  }

  lemma LoadUrl(slot: Slot, url: string, etag: Option<string>, server: Server, t: Timing, canon: Canonicalize)
    requires slot.None? || slot.value.url == url
    ensures var next := Load(slot, url, etag, server, t, canon).0; next.None? || next.value.url == url
  {
  }

  /** Inside the window a refresh asks no server, and it issues a changeset exactly when the store does not
      keep the slot's tag and time. */
  lemma FreshRound<Rest>(env: Env, sys: System<Rest>, server: Server, t: Timing)
    requires EnvOk(env) && InStep(env, sys) && Fresh(sys.slot, sys.slot.value.url, t.checkedAt)
    ensures RoundDownloads(env, sys, server, t) == []
    ensures RoundChangeset(env, sys, server, t).None? <==> StoreKeeps(env, sys.slot.value)
    ensures Round(env, sys, server, t, true).slot == sys.slot && InStep(env, Round(env, sys, server, t, true))
    ensures StoreKeeps(env, sys.slot.value) ==> Round(env, sys, server, t, true) == sys
  {
    SeenMetadata(env, sys);
    UrlStays(env, sys, server, t, true);
    hide Deduped, FailureMessage, ParsedBlocklist, EnvOk;
  }

  /** A list obtained from the server carries the reading of the clock. */
  lemma ServerReading(slot: Slot, url: string, etag: Option<string>, server: Server, t: Timing, canon: Canonicalize)
    requires !Fresh(slot, url, t.checkedAt) && Load(slot, url, etag, server, t, canon).1.Success?
    ensures var next := Load(slot, url, etag, server, t, canon).0; next.Some? && next.value.lastRefreshed == t.now
  {
  }

  /** A refresh that asks the server, obtains a list and has its changeset stored leaves the slot with the
      clock's reading, and the profile with what the store keeps of it. */
  lemma ReachedInStep<Rest>(env: Env, sys: System<Rest>, server: Server, t: Timing)
    requires EnvOk(env) && Reaches(env, sys, server, t) && RoundChangeset(env, sys, server, t).Some?
    ensures var next := Round(env, sys, server, t, true);
      && InStep(env, next) && next.slot.value.lastRefreshed == t.now
      && next.slot.value.etag == LoadFor(env, sys.slot, Seen(env, sys), server, t).1.resolution.etag
      && next.slot.value.url == Seen(env, sys).blocklistUrl.value
  {
    var f := Seen(env, sys);
    SuccessInStep(env, sys, server, t);
    ServerReading(Cleared(sys.slot, f.blocklistUrl), f.blocklistUrl.value, f.etag, server, t, env.canon);
    LoadUrl(Cleared(sys.slot, f.blocklistUrl), f.blocklistUrl.value, f.etag, server, t, env.canon);
    LoadTag(Cleared(sys.slot, f.blocklistUrl), f.blocklistUrl.value, f.etag, server, t, env.canon);
    hide Load, Deduped, FailureMessage, EnvOk;
  }

  /** After such a refresh the next one inside the window writes nothing exactly when the store keeps the
      clock's reading and the list came under another tag than an empty one: with a store of microseconds,
      exactly when the reading is a whole number of them besides. */
  lemma SettlesExactly<Rest>(env: Env, sys: System<Rest>, server: Server, t: Timing, server': Server, t': Timing)
    requires EnvOk(env) && Reaches(env, sys, server, t) && RoundChangeset(env, sys, server, t).Some?
    requires Fresh(Round(env, sys, server, t, true).slot, Seen(env, sys).blocklistUrl.value, t'.checkedAt)
    ensures var next := Round(env, sys, server, t, true);
      var tag := LoadFor(env, sys.slot, Seen(env, sys), server, t).1.resolution.etag;
      && (RoundChangeset(env, next, server', t').None? <==> tag != Some("") && env.keep(t.now) == t.now)
      && (MicrosStore(env) ==>
            (RoundChangeset(env, next, server', t').None? <==> tag != Some("") && t.now % 1000 == 0))
  {
    var next := Round(env, sys, server, t, true);
    ReachedInStep(env, sys, server, t);
    MicrosKept(env, t.now);
    hide Round, RoundChangeset, Reaches, Seen, EnvOk, MicrosStore, LoadFor;
    FreshRound(env, next, server', t');
  }

  lemma MicrosKept(env: Env, t: Instant)
    ensures MicrosStore(env) ==> (env.keep(t) == t <==> t % 1000 == 0)
  {
  }

  ghost predicate AcceptedInWindow<Rest>(slot: Slot, rounds: seq<Action<Rest>>)
    requires slot.Some?
  {
    forall i :: 0 <= i < |rounds| ==>
      rounds[i].Refresh? && rounds[i].accepted && Fresh(slot, slot.value.url, rounds[i].t.checkedAt)
  }

  lemma {:induction false} FeedbackState<Rest>(env: Env, sys: System<Rest>, rounds: seq<Action<Rest>>)
    requires EnvOk(env) && InStep(env, sys) && AcceptedInWindow(sys.slot, rounds)
    ensures Run(env, sys, rounds).slot == sys.slot && InStep(env, Run(env, sys, rounds))
    ensures StoreKeeps(env, sys.slot.value) ==> Run(env, sys, rounds) == sys
  {
    var n := |rounds|;
    if n > 0 {
      var last := rounds[n - 1];
      assert last.Refresh? && last.accepted && Fresh(sys.slot, sys.slot.value.url, last.t.checkedAt);
      FeedbackState(env, sys, rounds[..n - 1]);
      hide EnvOk, RoundChangeset, InStep, Fresh, Round, StoreKeeps;
      FreshRound(env, Run(env, sys, rounds[..n - 1]), last.server, last.t);
    }
  }

  /** The round issues a changeset. */
  ghost predicate WritesAt<Rest>(env: Env, sys: System<Rest>, rounds: seq<Action<Rest>>, i: nat)
    requires i < |rounds| && rounds[i].Refresh?
  {
    RoundChangeset(env, Run(env, sys, rounds[..i]), rounds[i].server, rounds[i].t).Some?
  }

  /** The loop over any number of rounds inside the window: with a tag and a time the store keeps, the
      system never changes again; otherwise every round writes again. */
  lemma FeedbackExactly<Rest>(env: Env, sys: System<Rest>, rounds: seq<Action<Rest>>)
    requires EnvOk(env) && InStep(env, sys) && AcceptedInWindow(sys.slot, rounds)
    ensures StoreKeeps(env, sys.slot.value) ==> Run(env, sys, rounds) == sys
    ensures forall i :: 0 <= i < |rounds| ==> (WritesAt(env, sys, rounds, i) <==> !StoreKeeps(env, sys.slot.value))
  {
    FeedbackState(env, sys, rounds);
    forall i | 0 <= i < |rounds| ensures WritesAt(env, sys, rounds, i) <==> !StoreKeeps(env, sys.slot.value) {
      FeedbackState(env, sys, rounds[..i]);
      assert Fresh(sys.slot, sys.slot.value.url, rounds[i].t.checkedAt);
      hide EnvOk, RoundChangeset, InStep, Fresh, Round, Run, StoreKeeps;
      FreshRound(env, Run(env, sys, rounds[..i]), rounds[i].server, rounds[i].t);
    }
  }

  /** A first fetch, its changeset stored. */
  function AfterFetch<Rest>(env: Env, profile: Profile<Rest>, page: Page, t: Timing): System<Rest> {
    Round(env, System(None, profile), Serving(page), t, true)
  }

  lemma FirstFetch<Rest>(env: Env, profile: Profile<Rest>, url: string, page: Page, t: Timing)
    requires EnvOk(env) && Seen(env, System(None, profile)).blocklistUrl == Some(url) && profile.ipFilter.etag.None?
    requires ParsedBlocklist(page.lines, env.canon).Parsed?
    ensures Reaches(env, System(None, profile), Serving(page), t)
    ensures RoundChangeset(env, System(None, profile), Serving(page), t).Some?
    ensures LoadFor(env, None, Seen(env, System(None, profile)), Serving(page), t).1.resolution.etag == Some(page.tag)
  {
    SeenMetadata(env, System(None, profile));
    hide Deduped, FailureMessage, ParsedBlocklist, EnvOk;
  }

  /** A first fetch into a store of microseconds, and any number of rounds inside the window after it, while
      no operator and no server changes anything: every round writes if the page has an empty tag or the
      clock read a fraction of a microsecond, and none does otherwise. */
  lemma FirstFetchSettlesExactly<Rest>(env: Env, profile: Profile<Rest>, url: string, page: Page, t: Timing,
                                       rounds: seq<Action<Rest>>)
    requires EnvOk(env) && MicrosStore(env) && ParsedBlocklist(page.lines, env.canon).Parsed?
    requires Seen(env, System(None, profile)).blocklistUrl == Some(url) && profile.ipFilter.etag.None?
    requires AfterFetch(env, profile, page, t).slot.Some?
    requires AcceptedInWindow(AfterFetch(env, profile, page, t).slot, rounds)
    ensures forall i :: 0 <= i < |rounds| ==>
        (WritesAt(env, AfterFetch(env, profile, page, t), rounds, i) <==> page.tag == "" || t.now % 1000 != 0)
  {
    hide Round, RoundChangeset, AcceptedInWindow, WritesAt, Reaches, EnvOk, ParsedBlocklist, LoadFor;
    FirstFetch(env, profile, url, page, t);
    ReachedInStep(env, System(None, profile), Serving(page), t);
    MicrosKept(env, t.now);
    FeedbackExactly(env, AfterFetch(env, profile, page, t), rounds);
  }

  /** A reading of the clock one nanosecond past a microsecond. */
  const READING: Instant := 1_714_564_800_000_000_001

  /** At that reading every later round writes; and a nanosecond earlier it still does if the server sends
      an empty tag. */
  lemma NeverSettlesExamples<Rest>(env: Env, profile: Profile<Rest>, url: string, page: Page, t: Timing,
                                   rounds: seq<Action<Rest>>)
    requires EnvOk(env) && MicrosStore(env) && ParsedBlocklist(page.lines, env.canon).Parsed?
    requires Seen(env, System(None, profile)).blocklistUrl == Some(url) && profile.ipFilter.etag.None?
    requires t.now == READING || (t.now == READING - 1 && page.tag == "")
    requires AfterFetch(env, profile, page, t).slot.Some?
    requires AcceptedInWindow(AfterFetch(env, profile, page, t).slot, rounds)
    ensures forall i :: 0 <= i < |rounds| ==> WritesAt(env, AfterFetch(env, profile, page, t), rounds, i)
  {
    hide AfterFetch, AcceptedInWindow, WritesAt, EnvOk, ParsedBlocklist;
    FirstFetchSettlesExactly(env, profile, url, page, t, rounds);
  }

  // ----- Pending wake-ups -----

  /** The system and the notifications that the watcher has yet to take up. */
  datatype Loop<Rest> = Loop(sys: System<Rest>, pending: nat)

  /** A committed edit notifies; a wake-up takes one notification, refreshes, and notifies if its changeset
      is stored. Without a notification the watcher waits. */
  datatype Step<Rest> = Commit(profile: Profile<Rest>) | Wake(server: Server, t: Timing, accepted: bool)

  predicate Writes<Rest>(env: Env, sys: System<Rest>, server: Server, t: Timing, accepted: bool) {
    RoundChangeset(env, sys, server, t).Some? && accepted
  }

  function Take<Rest>(env: Env, l: Loop<Rest>, s: Step<Rest>): Loop<Rest> {
    match s
    case Commit(profile) => Loop(l.sys.(profile := profile), l.pending + 1)
    case Wake(server, t, accepted) =>
      if l.pending == 0 then l
      else Loop(Round(env, l.sys, server, t, accepted),
                l.pending - 1 + if Writes(env, l.sys, server, t, accepted) then 1 else 0)
  }

  function TakeAll<Rest>(env: Env, l: Loop<Rest>, steps: seq<Step<Rest>>): Loop<Rest> {
    var n := |steps|;
    if n == 0 then l else Take(env, TakeAll(env, l, steps[..n - 1]), steps[n - 1])
  }

  /** How many of the wake-ups find a notification and write nothing. */
  function QuietWakes<Rest>(env: Env, l: Loop<Rest>, steps: seq<Step<Rest>>): nat {
    var n := |steps|;
    if n == 0 then 0 else
      var before := TakeAll(env, l, steps[..n - 1]);
      QuietWakes(env, l, steps[..n - 1]) +
        match steps[n - 1]
        case Commit(_) => 0
        case Wake(server, t, accepted) =>
          if before.pending > 0 && !Writes(env, before.sys, server, t, accepted) then 1 else 0
  }

  function Commits<Rest>(steps: seq<Step<Rest>>): nat {
    var n := |steps|;
    if n == 0 then 0 else Commits(steps[..n - 1]) + if steps[n - 1].Commit? then 1 else 0
  }

  /** Over any run, what is pending is what was, with one more for every edit and one less for every
      wake-up that wrote nothing: a wake-up that writes pays for the next. */
  lemma {:induction false} PendingCounts<Rest>(env: Env, l: Loop<Rest>, steps: seq<Step<Rest>>)
    ensures TakeAll(env, l, steps).pending + QuietWakes(env, l, steps) == l.pending + Commits(steps)
  {
    hide Round, Writes;
    var n := |steps|;
    if n > 0 { PendingCounts(env, l, steps[..n - 1]); }
  }

  /** Notifications pending once `served` of them have been used up. */
  function Left(pending: nat, served: nat): nat { if served <= pending then pending - served else 0 }

  /** In this state the wake-up writes nothing and leaves the slot alone. */
  ghost predicate QuietAt<Rest>(env: Env, sys: System<Rest>, s: Step<Rest>) {
    s.Wake? && RoundChangeset(env, sys, s.server, s.t).None? && Round(env, sys, s.server, s.t, s.accepted) == sys
  }

  /** A system at rest drains its notifications, one at every wake-up. */
  lemma {:induction false} QuietDrains<Rest>(env: Env, l: Loop<Rest>, steps: seq<Step<Rest>>)
    requires forall s :: s in steps ==> QuietAt(env, l.sys, s)
    ensures TakeAll(env, l, steps) == Loop(l.sys, Left(l.pending, |steps|))
  {
    hide Round, RoundChangeset;
    var n := |steps|;
    if n > 0 {
      assert steps[n - 1] in steps;
      QuietDrains(env, l, steps[..n - 1]);
    }
  }

  ghost predicate WakesInWindow<Rest>(slot: Slot, steps: seq<Step<Rest>>)
    requires slot.Some?
  {
    forall s :: s in steps ==> s.Wake? && Fresh(slot, slot.value.url, s.t.checkedAt)
  }

  function Refused<Rest>(steps: seq<Step<Rest>>): nat {
    var n := |steps|;
    if n == 0 then 0 else Refused(steps[..n - 1]) + if steps[n - 1].Wake? && !steps[n - 1].accepted then 1 else 0
  }

  lemma RefusedRound<Rest>(env: Env, sys: System<Rest>, server: Server, t: Timing)
    ensures Round(env, sys, server, t, false) == System(Round(env, sys, server, t, true).slot, sys.profile)
    ensures RoundChangeset(env, sys, server, t).None? ==>
        Round(env, sys, server, t, true) == Round(env, sys, server, t, false)
  {
    hide RoundResult, RoundChangeset;
  }

  lemma InStepRound<Rest>(env: Env, sys: System<Rest>, s: Step<Rest>)
    requires EnvOk(env) && InStep(env, sys) && s.Wake? && Fresh(sys.slot, sys.slot.value.url, s.t.checkedAt)
    ensures Writes(env, sys, s.server, s.t, s.accepted) <==> !StoreKeeps(env, sys.slot.value) && s.accepted
    ensures Round(env, sys, s.server, s.t, s.accepted).slot == sys.slot
    ensures InStep(env, Round(env, sys, s.server, s.t, s.accepted))
    ensures StoreKeeps(env, sys.slot.value) ==> QuietAt(env, sys, s)
  {
    FreshRound(env, sys, s.server, s.t);
    RefusedRound(env, sys, s.server, s.t);
    hide EnvOk, Fresh, RoundChangeset, Round, StoreKeeps;
  }

  lemma InStepSlot<Rest>(env: Env, sys: System<Rest>)
    requires InStep(env, sys)
    ensures sys.slot.Some?
  {
  }

  lemma {:induction false} WakesKeepStep<Rest>(env: Env, l: Loop<Rest>, steps: seq<Step<Rest>>)
    requires EnvOk(env) && InStep(env, l.sys) && WakesInWindow(l.sys.slot, steps)
    ensures var r := TakeAll(env, l, steps); r.sys.slot == l.sys.slot && InStep(env, r.sys)
    ensures !StoreKeeps(env, l.sys.slot.value) ==>
        TakeAll(env, l, steps).pending == Left(l.pending, Refused(steps))
  {
    InStepSlot(env, l.sys);
    hide EnvOk, InStep, Fresh, Round, Writes, StoreKeeps;
    var n := |steps|;
    if n > 0 {
      var before, s := TakeAll(env, l, steps[..n - 1]), steps[n - 1];
      assert s in steps;
      WakesKeepStep(env, l, steps[..n - 1]);
      InStepRound(env, before.sys, s);
    }
  }

  /** Inside the window, with no edits: when the store keeps the slot's tag and time every wake-up uses up
      one notification and nothing changes; when it does not, only a refused changeset does, so that while
      changesets are stored the loop never comes to rest. */
  lemma DrainsExactly<Rest>(env: Env, l: Loop<Rest>, steps: seq<Step<Rest>>)
    requires EnvOk(env) && InStep(env, l.sys) && WakesInWindow(l.sys.slot, steps)
    ensures var kept := StoreKeeps(env, l.sys.slot.value);
      && TakeAll(env, l, steps).pending == Left(l.pending, if kept then |steps| else Refused(steps))
      && (kept ==> TakeAll(env, l, steps).sys == l.sys)
  {
    if StoreKeeps(env, l.sys.slot.value) {
      forall s | s in steps ensures QuietAt(env, l.sys, s) {
        assert s.Wake? && Fresh(l.sys.slot, l.sys.slot.value.url, s.t.checkedAt);
        hide EnvOk, InStep, Fresh, QuietAt, StoreKeeps;
        InStepRound(env, l.sys, s);
      }
      QuietDrains(env, l, steps);
    } else {
      WakesKeepStep(env, l, steps);
    }
  }

  // ----- Failures -----

  /** The profile remembers that fetching `url` failed with `e`, and the slot is not of another URL. */
  predicate FailedWith<Rest>(env: Env, sys: System<Rest>, url: string, e: LoadError) {
    && Seen(env, sys).blocklistUrl == Some(url) && sys.profile.ipFilter.lastError == Some(FailureMessage(url, e))
    && (sys.slot.Some? ==> sys.slot.value.url == url)
  }

  /** In this state the refresh fails with `e`. */
  predicate FailsAt<Rest>(env: Env, sys: System<Rest>, server: Server, t: Timing, url: string, e: LoadError) {
    && Seen(env, sys).blocklistUrl == Some(url) && LoadFor(env, sys.slot, Seen(env, sys), server, t).1 == Failure(e)
  }

  lemma SameMessage(url: string, e: LoadError, e': LoadError)
    ensures FailureMessage(url, e) == FailureMessage(url, e') <==> Describe(e) == Describe(e')
  {
    var prefix := "blocklist fetch failed for " + url + ": ";
    assert FailureMessage(url, e) == prefix + Describe(e) && FailureMessage(url, e') == prefix + Describe(e');
    assert (prefix + Describe(e))[|prefix|..] == Describe(e);
    assert (prefix + Describe(e'))[|prefix|..] == Describe(e');
    hide Describe, FailureMessage;
  }

  lemma FailureRound<Rest>(env: Env, sys: System<Rest>, server: Server, t: Timing, url: string, e: LoadError)
    requires EnvOk(env) && FailsAt(env, sys, server, t, url, e)
    ensures RoundChangeset(env, sys, server, t).None? <==>
      sys.profile.ipFilter.lastError == Some(FailureMessage(url, e))
    ensures FailedWith(env, Round(env, sys, server, t, true), url, e)
    ensures (sys.slot.Some? ==> sys.slot.value.url == url) ==>
        forall accepted :: Round(env, sys, server, t, accepted).slot == sys.slot
  {
    var f := Seen(env, sys);
    SeenMetadata(env, sys);
    UrlStays(env, sys, server, t, true);
    LoadTag(Cleared(sys.slot, Some(url)), url, f.etag, server, t, env.canon);
    hide Load, Deduped, FailureMessage, EnvOk;
  }

  /** A failing refresh writes exactly when the failure differs from the one remembered. */
  lemma FailureWritesExactly<Rest>(env: Env, sys: System<Rest>, server: Server, t: Timing, url: string, e: LoadError,
                                   e': LoadError)
    requires EnvOk(env) && FailedWith(env, sys, url, e) && FailsAt(env, sys, server, t, url, e')
    ensures RoundChangeset(env, sys, server, t).Some? <==> Describe(e) != Describe(e')
  {
    hide EnvOk, RoundChangeset, FailsAt;
    FailureRound(env, sys, server, t, url, e');
    SameMessage(url, e, e');
  }

  lemma FailureQuiet<Rest>(env: Env, sys: System<Rest>, s: Step<Rest>, url: string, e: LoadError)
    requires EnvOk(env) && FailedWith(env, sys, url, e) && s.Wake? && FailsAt(env, sys, s.server, s.t, url, e)
    ensures QuietAt(env, sys, s)
  {
    hide EnvOk, RoundChangeset, FailsAt, Round;
    FailureRound(env, sys, s.server, s.t, url, e);
    RefusedRound(env, sys, s.server, s.t);
  }

  /** The first of a series of equal failures notes the error; each further one uses up a notification and
      changes nothing, so the series comes to rest. */
  lemma RepeatedFailuresDrain<Rest>(env: Env, l: Loop<Rest>, server: Server, t: Timing, steps: seq<Step<Rest>>,
                                    url: string, e: LoadError)
    requires EnvOk(env) && l.pending > 0 && FailsAt(env, l.sys, server, t, url, e)
    requires var noted := Take(env, l, Wake(server, t, true)).sys;
      forall s :: s in steps ==> s.Wake? && FailsAt(env, noted, s.server, s.t, url, e)
    ensures var noted := Take(env, l, Wake(server, t, true));
      && FailedWith(env, noted.sys, url, e)
      && TakeAll(env, noted, steps) == Loop(noted.sys, Left(noted.pending, |steps|))
  {
    var noted := Take(env, l, Wake(server, t, true));
    FailureRound(env, l.sys, server, t, url, e);
    hide EnvOk, Round, FailsAt, FailedWith, QuietAt;
    forall s | s in steps ensures QuietAt(env, noted.sys, s) {
      FailureQuiet(env, noted.sys, s, url, e);
    }
    QuietDrains(env, noted, steps);
  }

  // ----- Starvation -----

  /** An empty slot beside a remembered tag; the store keeps no empty one. */
  predicate Stuck<Rest>(env: Env, sys: System<Rest>, url: string, tag: string) {
    && sys.slot.None? && Seen(env, sys).blocklistUrl == Some(url)
    && sys.profile.ipFilter.etag == Some(tag) && tag != ""
  }

  /** The server answers the tag with a 304. */
  predicate StillCurrent(server: Server, url: string, tag: string) {
    var response := server(Request(url, Some(tag)));
    response.Answer? && response.status == NOT_MODIFIED
  }

  predicate Reports<Rest>(env: Env, sys: System<Rest>, server: Server, t: Timing, e: LoadError)
    requires Seen(env, sys).blocklistUrl.Some?
  {
    LoadFor(env, sys.slot, Seen(env, sys), server, t).1 == Failure(e)
  }

  /** With an empty slot a refresh reports missing state exactly when the server confirms the tag the
      profile remembers. */
  lemma StuckReportsExactly<Rest>(env: Env, sys: System<Rest>, url: string, tag: string, server: Server, t: Timing)
    requires EnvOk(env) && Stuck(env, sys, url, tag)
    ensures Reports(env, sys, server, t, MissingState(url)) <==> StillCurrent(server, url, tag)
  {
    SeenMetadata(env, sys);
    hide Load, EnvOk;
    MissingStateExactly(Cleared(sys.slot, Some(url)), url, Some(tag), server, t, env.canon);
  }

  lemma StuckRound<Rest>(env: Env, sys: System<Rest>, url: string, tag: string, server: Server, t: Timing,
                         accepted: bool)
    requires EnvOk(env) && Stuck(env, sys, url, tag) && StillCurrent(server, url, tag)
    ensures Stuck(env, Round(env, sys, server, t, accepted), url, tag)
  {
    SeenMetadata(env, sys);
    UrlStays(env, sys, server, t, accepted);
    StuckReportsExactly(env, sys, url, tag, server, t);
    LoadTag(None, url, Some(tag), server, t, env.canon);
    hide Load, Deduped, FailureMessage, EnvOk, StillCurrent;
  }

  /** Such a system stays as it is, however often it retries, while the server confirms the tag; and then
      the next refresh reports missing state exactly when the server still does. */
  lemma {:induction false} Starves<Rest>(env: Env, sys: System<Rest>, url: string, tag: string,
                                         rounds: seq<Action<Rest>>, server: Server, t: Timing)
    requires EnvOk(env) && Stuck(env, sys, url, tag)
    requires forall a :: a in rounds ==> a.Refresh? && StillCurrent(a.server, url, tag)
    ensures Stuck(env, Run(env, sys, rounds), url, tag)
    ensures Reports(env, Run(env, sys, rounds), server, t, MissingState(url)) <==> StillCurrent(server, url, tag)
  {
    var n := |rounds|;
    if n > 0 {
      var last := rounds[n - 1];
      assert last in rounds;
      Starves(env, sys, url, tag, rounds[..n - 1], last.server, last.t);
      hide Stuck, StillCurrent, EnvOk, Round, Reports;
      StuckRound(env, Run(env, sys, rounds[..n - 1]), url, tag, last.server, last.t, last.accepted);
    }
    hide StillCurrent, EnvOk, Reports;
    StuckReportsExactly(env, Run(env, sys, rounds), url, tag, server, t);
  }

  /** Against an honest server missing state means that the remembered tag is the current one. */
  lemma MissingMeansCurrent<Rest>(env: Env, sys: System<Rest>, url: string, server: Server, site: Site, t: Timing)
    requires EnvOk(env) && Honest(server, site) && sys.slot.None? && Seen(env, sys).blocklistUrl == Some(url)
    requires Reports(env, sys, server, t, MissingState(url))
    ensures sys.profile.ipFilter.etag == Some(site(url).tag)
  {
    SeenMetadata(env, sys);
    hide Load, EnvOk, Honest;
    MissingStateHonest(url, Seen(env, sys).etag, server, site, t, env.canon);
  }

  /** From an empty slot, a refresh against a page reports missing state exactly when the profile remembers
      the page's tag, and otherwise fills the slot: when the page has changed, or the tag was dropped. */
  lemma RecoversExactly<Rest>(env: Env, sys: System<Rest>, url: string, page: Page, t: Timing, accepted: bool)
    requires EnvOk(env) && sys.slot.None? && Seen(env, sys).blocklistUrl == Some(url)
    requires ParsedBlocklist(page.lines, env.canon).Parsed?
    ensures Reports(env, sys, Serving(page), t, MissingState(url)) <==> sys.profile.ipFilter.etag == Some(page.tag)
    ensures var slot := Round(env, sys, Serving(page), t, accepted).slot;
      && (slot.Some? <==> sys.profile.ipFilter.etag != Some(page.tag))
      && (slot.Some? ==> slot.value.url == url)
  {
    SeenMetadata(env, sys);
    ServingFillsExactly(url, Seen(env, sys).etag, page, t, env.canon);
    hide Load, Deduped, FailureMessage, EnvOk, ParsedBlocklist, Serving;
  }

  /** A filled slot of the profile's URL stays filled. */
  lemma StaysFilled<Rest>(env: Env, sys: System<Rest>, url: string, server: Server, t: Timing, accepted: bool)
    requires EnvOk(env) && Seen(env, sys).blocklistUrl == Some(url) && sys.slot.Some? && sys.slot.value.url == url
    ensures var next := Round(env, sys, server, t, accepted);
      Seen(env, next).blocklistUrl == Some(url) && next.slot.Some? && next.slot.value.url == url
  {
    UrlStays(env, sys, server, t, accepted);
    LoadTag(sys.slot, url, Seen(env, sys).etag, server, t, env.canon);
    LoadUrl(sys.slot, url, Seen(env, sys).etag, server, t, env.canon);
    hide Load, Deduped, FailureMessage, EnvOk;
  }

  /** A refresh while the URL serves `page`. */
  datatype Visit = Visit(page: Page, t: Timing, accepted: bool)

  function Visits<Rest>(visits: seq<Visit>): seq<Action<Rest>> {
    seq(|visits|, i requires 0 <= i < |visits| => Refresh(Serving(visits[i].page), visits[i].t, visits[i].accepted))
  }

  /** Over any number of refreshes, whatever pages the URL goes through: the slot stays empty exactly as long
      as the page has the remembered tag. The first other page fills it for good. */
  lemma {:induction false} StarvesExactly<Rest>(env: Env, sys: System<Rest>, url: string, tag: string,
                                                visits: seq<Visit>)
    requires EnvOk(env) && Stuck(env, sys, url, tag)
    requires forall v :: v in visits ==> ParsedBlocklist(v.page.lines, env.canon).Parsed?
    ensures var end := Run(env, sys, Visits(visits));
      if forall v :: v in visits ==> v.page.tag == tag then Stuck(env, end, url, tag)
      else Seen(env, end).blocklistUrl == Some(url) && end.slot.Some? && end.slot.value.url == url
  {
    var n := |visits|;
    if n > 0 {
      var front, last := visits[..n - 1], visits[n - 1];
      assert visits == front + [last];
      hide EnvOk, Round, ParsedBlocklist, Run, Visits, Seen;
      var before := Run(env, sys, Visits(front));
      StarvesExactly(env, sys, url, tag, front);
      VisitStep(env, before, url, tag, last);
      LastVisit(env, sys, front, last);
    } else {
      assert Visits<Rest>(visits) == [];
    }
  }

  lemma LastVisit<Rest>(env: Env, sys: System<Rest>, front: seq<Visit>, last: Visit)
    ensures Run(env, sys, Visits(front + [last]))
         == Round(env, Run(env, sys, Visits(front)), Serving(last.page), last.t, last.accepted)
  {
    hide Round;
    assert Visits<Rest>(front + [last])[..|front|] == Visits<Rest>(front);
  }

  lemma VisitStep<Rest>(env: Env, sys: System<Rest>, url: string, tag: string, v: Visit)
    requires EnvOk(env) && ParsedBlocklist(v.page.lines, env.canon).Parsed?
    ensures var next := Round(env, sys, Serving(v.page), v.t, v.accepted);
      && (Stuck(env, sys, url, tag) && v.page.tag == tag ==> Stuck(env, next, url, tag))
      && (Stuck(env, sys, url, tag) && v.page.tag != tag ==>
            Seen(env, next).blocklistUrl == Some(url) && next.slot.Some? && next.slot.value.url == url)
      && (Seen(env, sys).blocklistUrl == Some(url) && sys.slot.Some? && sys.slot.value.url == url ==>
            Seen(env, next).blocklistUrl == Some(url) && next.slot.Some? && next.slot.value.url == url)
  {
    UrlStays(env, sys, Serving(v.page), v.t, v.accepted);
    hide Round, EnvOk, ParsedBlocklist;
    if Stuck(env, sys, url, tag) {
      RecoversExactly(env, sys, url, v.page, v.t, v.accepted);
      if v.page.tag == tag {
        assert StillCurrent(Serving(v.page), url, tag);
        StuckRound(env, sys, url, tag, Serving(v.page), v.t, v.accepted);
      }
    } else if Seen(env, sys).blocklistUrl == Some(url) && sys.slot.Some? && sys.slot.value.url == url {
      StaysFilled(env, sys, url, Serving(v.page), v.t, v.accepted);
    }
  }
}
