/** The post-processing worker: catalog, runtime store and filesystem processing, one event at a time.

    Clock readings, the fate of each store write and the verdict of each filesystem job are inputs. */
module Orchestrator {
  import opened Basics
  import opened TorrentEvents
  import opened Catalog
  import opened CatalogRuns
  import opened RuntimeMirror

  datatype FsOpsRequest<Policy> = FsOpsRequest(torrentId: Uuid, sourcePath: string, policy: Policy)

  datatype Handled = Finished | MissingState(field: string, id: Uuid) | FsopsRejected

  class RuntimeStore {
    var rows: Entries

    constructor ()
      ensures rows == map[]
    {
      rows := map[];
    }

    method UpsertStatus(status: TorrentStatus, write: WriteOutcome) returns (ok: bool)
      modifies this
      ensures ok == write.Acknowledged?
      ensures rows == if TakesEffect(write) then old(rows)[status.id := status] else old(rows)
    {
      if TakesEffect(write) { rows := rows[status.id := status]; }
      ok := write.Acknowledged?;
    }

    method RemoveTorrent(id: Uuid, write: WriteOutcome) returns (ok: bool)
      modifies this
      ensures ok == write.Acknowledged?
      ensures rows == if TakesEffect(write) then old(rows) - {id} else old(rows)
    {
      if TakesEffect(write) { rows := rows - {id}; }
      ok := write.Acknowledged?;
    }
  }

  /** The filesystem service; `requests` is every job it was given. */
  class FsOpsService<Policy> {
    var requests: seq<FsOpsRequest<Policy>>

    constructor ()
      ensures requests == []
    {
      requests := [];
    }

    method Apply(request: FsOpsRequest<Policy>, accepted: bool) returns (ok: bool)
      modifies this
      ensures requests == old(requests) + [request] && ok == accepted
    {
      requests := requests + [request];
      ok := accepted;
    }
  }

  /** One stream item: an event with its clock readings, write and job outcomes, or a broken stream. */
  datatype StreamItem = Delivered(input: Input, accepted: bool) | Broken

  /** What precedes the first broken item. */
  function Received(items: seq<StreamItem>): seq<Input> {
    if items == [] || items[0].Broken? then [] else [items[0].input] + Received(items[1..])
  }

  /** The jobs that a run of events asks for. */
  function Jobs<Policy>(inputs: seq<Input>, policy: Policy): seq<FsOpsRequest<Policy>> {
    if inputs == [] then []
    else
      var event := inputs[0].observed.event;
      (if event.Completed? then [FsOpsRequest(event.id, event.libraryPath, policy)] else []) + Jobs(inputs[1..], policy)
  }

  lemma NextReceived(items: seq<StreamItem>, i: nat)
    requires i < |items| && items[i].Delivered?
    ensures Received(items[i..]) == [items[i].input] + Received(items[i + 1..])
  {
    assert items[i..][1..] == items[i + 1..];
  }

  lemma JobsJoin<Policy>(input: Input, rest: seq<Input>, policy: Policy)
    ensures Jobs([input] + rest, policy) == Jobs([input], policy) + Jobs(rest, policy)
  {
    assert ([input] + rest)[1..] == rest && [input][1..] == [];
  }

  /** Everything before the first broken item is received, and nothing after it. */
  lemma {:induction false} ReceivedExactly(items: seq<StreamItem>, k: nat)
    requires k <= |items| && (forall i :: 0 <= i < k ==> items[i].Delivered?)
    requires k < |items| ==> items[k].Broken?
    ensures |Received(items)| == k && forall i :: 0 <= i < k ==> Received(items)[i] == items[i].input
  {
    if k > 0 { ReceivedExactly(items[1..], k - 1); }
  }

  /** A completion asks for one job, on its own torrent and path, where it stands; other events for none. */
  lemma {:induction false} JobsExactly<Policy>(front: seq<Input>, input: Input, back: seq<Input>, policy: Policy)
    ensures var event := input.observed.event;
      Jobs(front + [input] + back, policy) ==
        Jobs(front, policy)
        + (if event.Completed? then [FsOpsRequest(event.id, event.libraryPath, policy)] else [])
        + Jobs(back, policy)
  {
    assert Jobs([input][1..], policy) == [];
    if front == [] {
      assert front + [input] + back == [input] + back;
      JobsJoin(input, back, policy);
    } else {
      assert front + [input] + back == [front[0]] + (front[1..] + [input] + back);
      assert front == [front[0]] + front[1..];
      JobsExactly(front[1..], input, back, policy);
      JobsJoin(front[0], front[1..] + [input] + back, policy);
      JobsJoin(front[0], front[1..], policy);
      hide Jobs;
    }
  }

  lemma {:induction false} MirrorRunFirst(m: Mirror, i: Input, rest: seq<Input>)
    ensures MirrorRun(m, [i] + rest) == MirrorRun(MirrorStep(m, i), rest)
  {
    var n := |rest|;
    if n == 0 {
      assert [i] + rest == [i] && [i][..0] == [];
      assert MirrorRun(m, [i]) == MirrorStep(MirrorRun(m, []), i);
    } else {
      assert ([i] + rest)[..n] == [i] + rest[..n - 1];
      MirrorRunFirst(m, i, rest[..n - 1]);
    }
  }

  class TorrentOrchestrator<Policy> {
    const catalog: TorrentCatalog
    const runtime: RuntimeStore?
    const fsops: FsOpsService<Policy>
    var fsPolicy: Policy

    constructor (fsPolicy: Policy, runtime: RuntimeStore?, fsops: FsOpsService<Policy>)
      ensures this.fsPolicy == fsPolicy && this.runtime == runtime && this.fsops == fsops
      ensures fresh(catalog) && catalog.entries == map[]
    {
      this.catalog := new TorrentCatalog();
      this.runtime := runtime;
      this.fsops := fsops;
      this.fsPolicy := fsPolicy;
    }

    /** Without a store the rows play no part; any value will do. */
    ghost function State(): Mirror
      reads catalog, runtime
    {
      Mirror(catalog.entries, if runtime == null then map[] else runtime.rows)
    }

    /** What handling one event makes of the state. */
    ghost function Next(m: Mirror, i: Input): Mirror {
      if runtime == null then Mirror(Step(m.catalog, i.observed), m.rows) else MirrorStep(m, i)
    }

    ghost predicate IsListing(loaded: seq<TorrentStatus>)
      reads runtime
    {
      runtime != null && Keyed(runtime.rows) && forall s :: s in loaded <==> s in runtime.rows.Values
    }

    /** `load_statuses` at start: an error leaves the catalog as it is; a listing of the stored rows, in
        whatever order, makes the catalog equal to them. */
    method Hydrate(loaded: Option<seq<TorrentStatus>>)
      modifies catalog
      ensures catalog.entries == if loaded.Some? then Seeded(loaded.value) else old(catalog.entries)
      ensures loaded.Some? && IsListing(loaded.value) ==> catalog.entries == runtime.rows
    {
      if loaded.Some? {
        if IsListing(loaded.value) { SeededFromRows(loaded.value, runtime.rows); }
        catalog.Seed(loaded.value);
      }
    }

    method ApplyFsops(id: Uuid, accepted: bool) returns (r: Handled)
      modifies fsops
      ensures r.MissingState? <==> PathOf(Find(catalog.entries, id)).None?
      ensures r.MissingState? ==>
        r == MissingState(if id in catalog.entries then "library_path" else "torrent_status", id)
        && fsops.requests == old(fsops.requests)
      ensures !r.MissingState? ==>
        && fsops.requests == old(fsops.requests) + [FsOpsRequest(id, catalog.entries[id].libraryPath.value, fsPolicy)]
        && r == if accepted then Finished else FsopsRejected
    {
      var policy := fsPolicy;
      var snapshot := catalog.Get(id);
      if snapshot.None? { return MissingState("torrent_status", id); }
      var source := snapshot.value.libraryPath;
      if source.None? { return MissingState("library_path", id); }
      var ok := fsops.Apply(FsOpsRequest(id, source.value, policy), accepted);
      r := if ok then Finished else FsopsRejected;
    }

    method PersistRuntime(event: Event, write: WriteOutcome)
      modifies runtime
      ensures runtime != null ==> runtime.rows == old(Persisted(runtime.rows, catalog.entries, event, write))
    {
      if runtime == null { return; }
      var id := EventTorrentId(event);
      if id.None? { return; }
      if event.TorrentRemoved? {
        var logged := runtime.RemoveTorrent(id.value, write);
      } else {
        var status := catalog.Get(id.value);
        if status.Some? {
          var logged := runtime.UpsertStatus(status.value, write);
        }
      }
    }

    /** Handling a completion always runs filesystem processing on that event's path, and no event
        is ever answered with a missing state. */
    method HandleEvent(event: Event, now: Clock, write: WriteOutcome, accepted: bool) returns (r: Handled)
      modifies catalog, runtime, fsops
      ensures State() == Next(old(State()), Input(Observed(event, now), write))
      ensures fsops.requests == old(fsops.requests) + Jobs([Input(Observed(event, now), write)], fsPolicy)
      ensures r == if event.Completed? && !accepted then FsopsRejected else Finished
    {
      ghost var before := catalog.entries;
      catalog.Observe(event, now);
      StepExactly(before, Observed(event, now), catalog.entries);
      PersistRuntime(event, write);
      if event.Completed? {
        r := ApplyFsops(event.id, accepted);
      } else {
        r := Finished;
      }
    }

    /** The state after a run of events. */
    ghost function AfterAll(m: Mirror, inputs: seq<Input>): Mirror
      decreases |inputs|
    {
      if inputs == [] then m else AfterAll(Next(m, inputs[0]), inputs[1..])
    }

    /** The worker: an error is logged and the loop goes on, a broken stream ends it. Every completion
        received is processed once, in order, on its own path. */
    method PostProcess(items: seq<StreamItem>)
      modifies catalog, runtime, fsops
      ensures State() == AfterAll(old(State()), Received(items))
      ensures fsops.requests == old(fsops.requests) + Jobs(Received(items), fsPolicy)
    {
      var i := 0;
      while i < |items| && items[i].Delivered?
        invariant 0 <= i <= |items|
        invariant AfterAll(State(), Received(items[i..])) == AfterAll(old(State()), Received(items))
        invariant fsops.requests + Jobs(Received(items[i..]), fsPolicy) ==
                  old(fsops.requests) + Jobs(Received(items), fsPolicy)
      {
        var input := items[i].input;
        ghost var rest := Received(items[i + 1..]);
        NextReceived(items, i);
        JobsJoin(input, rest, fsPolicy);
        assert AfterAll(State(), [input] + rest) == AfterAll(Next(State(), input), rest) by {
          assert ([input] + rest)[1..] == rest;
        }
        hide AfterAll, Jobs, Received, Next;
        ghost var done := fsops.requests;
        var logged := HandleEvent(input.observed.event, input.observed.now, input.write, items[i].accepted);
        Regrouped(done, Jobs([input], fsPolicy), Jobs(rest, fsPolicy));
        i := i + 1;
      }
    }
  }

  /** With a store, the worker's runs are the runs that the mirror theorems speak of. */
  lemma {:induction false} WorkerRunsMirror<Policy>(o: TorrentOrchestrator<Policy>, m: Mirror, inputs: seq<Input>)
    requires o.runtime != null
    ensures o.AfterAll(m, inputs) == MirrorRun(m, inputs)
    decreases |inputs|
  {
    if inputs != [] {
      assert inputs == [inputs[0]] + inputs[1..];
      WorkerRunsMirror(o, MirrorStep(m, inputs[0]), inputs[1..]);
      MirrorRunFirst(m, inputs[0], inputs[1..]);
    }
  }

  /** With or without a store, the catalog follows the events. */
  lemma {:induction false} WorkerRunsCatalog<Policy>(o: TorrentOrchestrator<Policy>, m: Mirror, inputs: seq<Input>)
    ensures o.AfterAll(m, inputs).catalog == Run(m.catalog, Observations(inputs))
    decreases |inputs|
  {
    if inputs != [] {
      var first := inputs[0].observed;
      WorkerRunsCatalog(o, o.Next(m, inputs[0]), inputs[1..]);
      RunJoin(m.catalog, [first], Observations(inputs[1..]));
      assert [first] + Observations(inputs[1..]) == Observations(inputs);
      assert Run(m.catalog, [first]) == Step(m.catalog, first) by { assert [first][..0] == []; }
    }
  }
}
