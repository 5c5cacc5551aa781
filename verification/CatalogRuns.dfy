/** Runs of the catalog over any event trace: each torrent follows its own events alone. */
module CatalogRuns {
  import opened Basics
  import opened RowFolds
  import opened TorrentEvents
  import opened Catalog

  function Put(entries: Entries, id: Uuid, entry: Option<TorrentStatus>): Entries {
    if entry.Some? then entries[id := entry.value] else entries - {id}
  }

  function Step(entries: Entries, o: Observed): Entries {
    var id := EventTorrentId(o.event);
    if id.None? then entries else Put(entries, id.value, After(Find(entries, id.value), o))
  }

  /** `Step` is the one map that `StepsTo` allows. */
  lemma StepExactly(entries: Entries, o: Observed, next: Entries)
    ensures StepsTo(entries, o, next) <==> next == Step(entries, o)
  {
    var step := Step(entries, o);
    assert StepsTo(entries, o, step);
    if StepsTo(entries, o, next) { SameEntries(next, step); }
  }

  lemma SameEntries(entries: Entries, others: Entries)
    requires forall id: Uuid :: Find(entries, id) == Find(others, id)
    ensures entries == others
  {
    forall id: Uuid ensures id in entries <==> id in others
      ensures id in entries ==> entries[id] == others[id]
    {
      assert Find(entries, id) == Find(others, id);
    }
  }

  function Run(entries: Entries, trace: seq<Observed>): Entries {
    var n := |trace|;
    if n == 0 then entries else Step(Run(entries, trace[..n - 1]), trace[n - 1])
  }

  // ----- One torrent -----

  /** The events of one torrent, in order. */
  function Own(trace: seq<Observed>, id: Uuid): seq<Observed> {
    var n := |trace|;
    if n == 0 then []
    else if EventTorrentId(trace[n - 1].event) == Some(id) then Own(trace[..n - 1], id) + [trace[n - 1]]
    else Own(trace[..n - 1], id)
  }

  /** One entry folded over its own events, without any map. */
  function Fold(entry: Option<TorrentStatus>, own: seq<Observed>): Option<TorrentStatus> {
    var n := |own|;
    if n == 0 then entry else After(Fold(entry, own[..n - 1]), own[n - 1])
  }

  lemma StepFinds(entries: Entries, o: Observed, id: Uuid)
    ensures Find(Step(entries, o), id) ==
      if EventTorrentId(o.event) == Some(id) then After(Find(entries, id), o) else Find(entries, id)
  {
  }

  /** The entry of a torrent is the fold of its own events: no other torrent's events matter. */
  lemma {:induction false} TraceProjection(entries: Entries, trace: seq<Observed>, id: Uuid)
    ensures Find(Run(entries, trace), id) == Fold(Find(entries, id), Own(trace, id))
  {
    var n := |trace|;
    if n > 0 {
      TraceProjection(entries, trace[..n - 1], id);
      StepFinds(Run(entries, trace[..n - 1]), trace[n - 1], id);
      if EventTorrentId(trace[n - 1].event) == Some(id) {
        assert Own(trace, id)[..|Own(trace, id)| - 1] == Own(trace[..n - 1], id);
      }
    }
  }

  /** Traces that agree torrent by torrent end in the same catalog, however they interleave. */
  lemma InterleavingIrrelevant(entries: Entries, trace: seq<Observed>, other: seq<Observed>)
    requires forall id: Uuid :: Own(trace, id) == Own(other, id)
    ensures Run(entries, trace) == Run(entries, other)
  {
    forall id: Uuid ensures Find(Run(entries, trace), id) == Find(Run(entries, other), id) {
      assert Own(trace, id) == Own(other, id);
      TraceProjection(entries, trace, id);
      TraceProjection(entries, other, id);
    }
    SameEntries(Run(entries, trace), Run(entries, other));
  }

  /** Adjacent events of different torrents commute. */
  lemma EventsCommute(entries: Entries, a: Observed, b: Observed)
    requires EventTorrentId(a.event) != EventTorrentId(b.event)
    ensures Step(Step(entries, a), b) == Step(Step(entries, b), a)
  {
    forall id: Uuid ensures Find(Step(Step(entries, a), b), id) == Find(Step(Step(entries, b), a), id) {
      StepFinds(Step(entries, a), b, id);
      StepFinds(Step(entries, b), a, id);
      StepFinds(entries, a, id);
      StepFinds(entries, b, id);
    }
    SameEntries(Step(Step(entries, a), b), Step(Step(entries, b), a));
  }

  // ----- Presence -----

  predicate Removes(o: Observed, id: Uuid) { o.event == TorrentRemoved(id) }

  predicate Creates(o: Observed, id: Uuid) { Touches(o.event) && EventTorrentId(o.event) == Some(id) }

  predicate NoRemoval(trace: seq<Observed>, id: Uuid) {
    forall o :: o in trace ==> !Removes(o, id)
  }

  /** Some event creates the entry and no later one removes it. */
  predicate CreatedForGood(trace: seq<Observed>, id: Uuid) {
    exists k :: 0 <= k < |trace| && CreatedAt(trace, id, k)
  }

  predicate CreatedAt(trace: seq<Observed>, id: Uuid, k: nat)
    requires k < |trace|
  {
    Creates(trace[k], id) && NoRemoval(trace[k + 1..], id)
  }

  lemma CreatedSnoc(trace: seq<Observed>, o: Observed, id: Uuid)
    ensures CreatedForGood(trace + [o], id) <==> Creates(o, id) || (CreatedForGood(trace, id) && !Removes(o, id))
    ensures NoRemoval(trace + [o], id) <==> NoRemoval(trace, id) && !Removes(o, id)
  {
    var n, longer := |trace|, trace + [o];
    forall k | 0 <= k < n ensures CreatedAt(longer, id, k) <==> CreatedAt(trace, id, k) && !Removes(o, id) {
      assert longer[k + 1..] == trace[k + 1..] + [o];
    }
    assert longer[n + 1..] == [];
    assert CreatedAt(longer, id, n) <==> Creates(o, id);
    if CreatedForGood(trace, id) && !Removes(o, id) {
      var k :| 0 <= k < n && CreatedAt(trace, id, k);
      assert CreatedAt(longer, id, k);
    }
    if CreatedForGood(longer, id) {
      var k :| 0 <= k < n + 1 && CreatedAt(longer, id, k);
      if k < n { assert CreatedAt(trace, id, k); }
    }
  }

  /** An entry is present exactly when it was seeded or created and not removed since. */
  lemma {:induction false} PresentExactly(entries: Entries, trace: seq<Observed>, id: Uuid)
    ensures id in Run(entries, trace) <==>
      CreatedForGood(trace, id) || (id in entries && NoRemoval(trace, id))
  {
    var n := |trace|;
    if n > 0 {
      var front, last := trace[..n - 1], trace[n - 1];
      assert trace == front + [last];
      PresentExactly(entries, front, id);
      CreatedSnoc(front, last, id);
      StepFinds(Run(entries, front), last, id);
    }
  }

  // ----- Who decides a field -----

  function Known<T>(o: Option<T>, otherwise: T): T { if o.Some? then o.value else otherwise }

  /** `write` says exactly which events set what `read` sees, and to what. */
  ghost predicate Governs<T(!new)>(id: Uuid, read: Option<TorrentStatus> -> T, write: Observed -> Option<T>) {
    && (forall entry: Option<TorrentStatus>, o: Observed :: EventTorrentId(o.event) == Some(id) ==>
          read(After(entry, o)) == Known(write(o), read(entry)))
    && (forall o: Observed :: EventTorrentId(o.event) != Some(id) ==> write(o).None?)
  }

  /** The last event that writes a field decides it, over any run. */
  lemma {:induction false} LastWriteWins<T(!new)>(entries: Entries, trace: seq<Observed>, id: Uuid,
                                                  read: Option<TorrentStatus> -> T, write: Observed -> Option<T>)
    requires Governs(id, read, write)
    ensures read(Find(Run(entries, trace), id)) == Known(LastSome(trace, write), read(Find(entries, id)))
  {
    var n := |trace|;
    if n > 0 {
      LastWriteWins(entries, trace[..n - 1], id, read, write);
      StepFinds(Run(entries, trace[..n - 1]), trace[n - 1], id);
    }
  }

  function PathOf(entry: Option<TorrentStatus>): Option<string> {
    if entry.Some? then entry.value.libraryPath else None
  }

  /** Admission and removal clear the library path, completion sets it. */
  function PathWrite(id: Uuid): Observed -> Option<Option<string>> {
    (o: Observed) =>
      if EventTorrentId(o.event) != Some(id) then None
      else match o.event
        case TorrentAdded(_, _) => Some(None)
        case TorrentRemoved(_) => Some(None)
        case Completed(_, path) => Some(Some(path))
        case _ => None
  }

  function NameOf(entry: Option<TorrentStatus>): Option<string> {
    if entry.Some? then entry.value.name else None
  }

  function NameWrite(id: Uuid): Observed -> Option<Option<string>> {
    (o: Observed) =>
      if EventTorrentId(o.event) != Some(id) then None
      else match o.event
        case TorrentAdded(_, name) => Some(Some(name))
        case TorrentRemoved(_) => Some(None)
        case MetadataUpdated(_, name, _, _, _, _) => if name.Some? then Some(name) else None
        case _ => None
  }

  function FilesOf(entry: Option<TorrentStatus>): Option<seq<TorrentFile>> {
    if entry.Some? then entry.value.files else None
  }

  /** A file listing survives a second admission; an empty discovery does not replace it. */
  function FilesWrite(id: Uuid): Observed -> Option<Option<seq<TorrentFile>>> {
    (o: Observed) =>
      if EventTorrentId(o.event) != Some(id) then None
      else match o.event
        case TorrentRemoved(_) => Some(None)
        case FilesDiscovered(_, files) => if files == [] then None else Some(Some(MapDiscoveredFiles(files)))
        case _ => None
  }

  function CompletedAtOf(entry: Option<TorrentStatus>): Option<Instant> {
    if entry.Some? then entry.value.completedAt else None
  }

  /** The completion time survives a second admission, unlike the path. */
  function CompletedAtWrite(id: Uuid): Observed -> Option<Option<Instant>> {
    (o: Observed) =>
      if EventTorrentId(o.event) != Some(id) then None
      else match o.event
        case TorrentRemoved(_) => Some(None)
        case Completed(_, _) => Some(Some(o.now.stamp))
        case _ => None
  }

  // ----- Files -----

  /** The event leaves the files of `id` alone: it is no removal and no discovery of any file. */
  predicate KeepsFiles(o: Observed, id: Uuid) {
    match o.event
    case TorrentRemoved(other) => other != id
    case FilesDiscovered(other, files) => other != id || files == []
    case _ => true
  }

  /** From the last discovery since the last removal on, the torrent lists every discovered file in
      order: its path and size, nothing completed, of normal priority and selected. Positions beyond 32
      bits all count as the largest. */
  lemma LatestDiscovery(entries: Entries, front: seq<Observed>, id: Uuid, files: seq<DiscoveredFile>, now: Clock,
                        back: seq<Observed>, i: nat)
    requires files != [] && i < |files| && forall o :: o in back ==> KeepsFiles(o, id)
    ensures var trace := front + [Observed(FilesDiscovered(id, files), now)] + back;
      && id in Run(entries, trace) && Run(entries, trace)[id].files.Some?
      && var listed := Run(entries, trace)[id].files.value;
      && |listed| == |files|
      && listed[i].path == files[i].path && listed[i].sizeBytes == files[i].sizeBytes
      && listed[i].bytesCompleted == 0 && listed[i].priority == Normal && listed[i].selected
      && listed[i].index == if i <= 4_294_967_295 then i else 4_294_967_295
  {
    var o := Observed(FilesDiscovered(id, files), now);
    var trace := front + [o] + back;
    FilesGoverned(id);
    LastWriteWins(entries, trace, id, FilesOf, FilesWrite(id));
    LastSomeAt(front, o, back, FilesWrite(id));
  }

  /** What decides a torrent's name, files, library path and completion time. */
  lemma FieldsDecided(entries: Entries, trace: seq<Observed>, id: Uuid)
    ensures var before, now := Find(entries, id), Find(Run(entries, trace), id);
      && PathOf(now) == Known(LastSome(trace, PathWrite(id)), PathOf(before))
      && NameOf(now) == Known(LastSome(trace, NameWrite(id)), NameOf(before))
      && FilesOf(now) == Known(LastSome(trace, FilesWrite(id)), FilesOf(before))
      && CompletedAtOf(now) == Known(LastSome(trace, CompletedAtWrite(id)), CompletedAtOf(before))
  {
    PathGoverned(id);
    NameGoverned(id);
    FilesGoverned(id);
    CompletedAtGoverned(id);
    hide Governs, Run, LastSome, Known, Find;
    LastWriteWins(entries, trace, id, PathOf, PathWrite(id));
    LastWriteWins(entries, trace, id, NameOf, NameWrite(id));
    LastWriteWins(entries, trace, id, FilesOf, FilesWrite(id));
    LastWriteWins(entries, trace, id, CompletedAtOf, CompletedAtWrite(id));
  }

  lemma PathGoverned(id: Uuid)
    ensures Governs(id, PathOf, PathWrite(id))
  {
  }

  lemma NameGoverned(id: Uuid)
    ensures Governs(id, NameOf, NameWrite(id))
  {
  }

  lemma FilesGoverned(id: Uuid)
    ensures Governs(id, FilesOf, FilesWrite(id))
  {
  }

  lemma CompletedAtGoverned(id: Uuid)
    ensures Governs(id, CompletedAtOf, CompletedAtWrite(id))
  {
  }

  /** An absent torrent counts as queued, the state it would be created in. */
  function StateOf(entry: Option<TorrentStatus>): TorrentState {
    if entry.Some? then entry.value.state else Queued
  }

  function StateWrite(id: Uuid): Observed -> Option<TorrentState> {
    (o: Observed) =>
      if EventTorrentId(o.event) != Some(id) then None
      else match o.event
        case TorrentAdded(_, _) => Some(Queued)
        case TorrentRemoved(_) => Some(Queued)
        case StateChanged(_, state) => Some(state)
        case Completed(_, _) => Some(Done)
        case FsopsFailed(_, message) => Some(Failed(message))
        case _ => None
  }

  lemma StateGoverned(id: Uuid)
    ensures Governs(id, StateOf, StateWrite(id))
  {
  }

  function ProgressOf(entry: Option<TorrentStatus>): Progress {
    if entry.Some? then entry.value.progress else Progress(0, 0, None)
  }

  function ProgressWrite(id: Uuid): Observed -> Option<Progress> {
    (o: Observed) =>
      if EventTorrentId(o.event) != Some(id) then None
      else match o.event
        case TorrentAdded(_, _) => Some(Progress(0, 0, None))
        case TorrentRemoved(_) => Some(Progress(0, 0, None))
        case ProgressMade(_, progress, _) => Some(progress)
        case _ => None
  }

  lemma ProgressGoverned(id: Uuid)
    ensures Governs(id, ProgressOf, ProgressWrite(id))
  {
  }

  /** The bits of a double, its sign aside, are below those of infinity. */
  predicate BelowInfinity(x: Float64) { x % 0x8000_0000_0000_0000 < 0x7FF0_0000_0000_0000 }

  lemma FiniteExactly(x: Float64)
    ensures IsFinite(x) <==> BelowInfinity(x)
  {
  }

  function RatesOf(entry: Option<TorrentStatus>): Rates {
    if entry.Some? then entry.value.rates else Rates(0, 0, 0)
  }

  function RatesWrite(id: Uuid): Observed -> Option<Rates> {
    (o: Observed) =>
      if EventTorrentId(o.event) != Some(id) then None
      else match o.event
        case TorrentAdded(_, _) => Some(Rates(0, 0, 0))
        case TorrentRemoved(_) => Some(Rates(0, 0, 0))
        case ProgressMade(_, _, rates) =>
          Some(Rates(rates.downloadBps, rates.uploadBps, if BelowInfinity(rates.ratio) then rates.ratio else 0))
        case _ => None
  }

  lemma RatesGoverned(id: Uuid)
    ensures Governs(id, RatesOf, RatesWrite(id))
  {
    forall x: Float64 ensures IsFinite(x) <==> BelowInfinity(x) { FiniteExactly(x); }
    hide IsFinite, BelowInfinity;
  }

  /** The download directory survives a second admission. */
  function DownloadDirOf(entry: Option<TorrentStatus>): Option<string> {
    if entry.Some? then entry.value.downloadDir else None
  }

  function DownloadDirWrite(id: Uuid): Observed -> Option<Option<string>> {
    (o: Observed) =>
      if EventTorrentId(o.event) != Some(id) then None
      else match o.event
        case TorrentRemoved(_) => Some(None)
        case MetadataUpdated(_, _, dir, _, _, _) => if dir.Some? then Some(dir) else None
        case _ => None
  }

  lemma DownloadDirGoverned(id: Uuid)
    ensures Governs(id, DownloadDirOf, DownloadDirWrite(id))
  {
  }

  function CommentOf(entry: Option<TorrentStatus>): Option<string> {
    if entry.Some? then entry.value.comment else None
  }

  function CommentWrite(id: Uuid): Observed -> Option<Option<string>> {
    (o: Observed) =>
      if EventTorrentId(o.event) != Some(id) then None
      else match o.event
        case TorrentAdded(_, _) => Some(None)
        case TorrentRemoved(_) => Some(None)
        case MetadataUpdated(_, _, _, comment, _, _) => if comment.Some? then Some(comment) else None
        case _ => None
  }

  lemma CommentGoverned(id: Uuid)
    ensures Governs(id, CommentOf, CommentWrite(id))
  {
  }

  function SourceOf(entry: Option<TorrentStatus>): Option<string> {
    if entry.Some? then entry.value.source else None
  }

  function SourceWrite(id: Uuid): Observed -> Option<Option<string>> {
    (o: Observed) =>
      if EventTorrentId(o.event) != Some(id) then None
      else match o.event
        case TorrentAdded(_, _) => Some(None)
        case TorrentRemoved(_) => Some(None)
        case MetadataUpdated(_, _, _, _, source, _) => if source.Some? then Some(source) else None
        case _ => None
  }

  lemma SourceGoverned(id: Uuid)
    ensures Governs(id, SourceOf, SourceWrite(id))
  {
  }

  function PrivateOf(entry: Option<TorrentStatus>): Option<bool> {
    if entry.Some? then entry.value.private else None
  }

  function PrivateWrite(id: Uuid): Observed -> Option<Option<bool>> {
    (o: Observed) =>
      if EventTorrentId(o.event) != Some(id) then None
      else match o.event
        case TorrentAdded(_, _) => Some(None)
        case TorrentRemoved(_) => Some(None)
        case MetadataUpdated(_, _, _, _, _, private) => if private.Some? then Some(private) else None
        case _ => None
  }

  lemma PrivateGoverned(id: Uuid)
    ensures Governs(id, PrivateOf, PrivateWrite(id))
  {
  }

  function SequentialOf(entry: Option<TorrentStatus>): bool {
    entry.Some? && entry.value.sequential
  }

  /** No event sets it; only a seeded entry can have it. */
  function SequentialWrite(id: Uuid): Observed -> Option<bool> {
    (o: Observed) => if o.event == TorrentRemoved(id) then Some(false) else None
  }

  lemma SequentialGoverned(id: Uuid)
    ensures Governs(id, SequentialOf, SequentialWrite(id))
  {
  }

  function UpdatedOf(entry: Option<TorrentStatus>): Option<Instant> {
    if entry.Some? then Some(entry.value.lastUpdated) else None
  }

  /** Every event about the torrent stamps it, except an empty discovery and a reconciled selection. */
  function UpdatedWrite(id: Uuid): Observed -> Option<Option<Instant>> {
    (o: Observed) =>
      if o.event.SettingsChanged? || o.event.HealthChanged? || o.event.id != id then None
      else match o.event
        case TorrentRemoved(_) => Some(None)
        case SelectionReconciled(_, _) => None
        case FilesDiscovered(_, files) => if files == [] then None else Some(Some(o.now.stamp))
        case _ => Some(Some(o.now.stamp))
  }

  lemma UpdatedGoverned(id: Uuid)
    ensures Governs(id, UpdatedOf, UpdatedWrite(id))
  {
  }

  /** What decides presence with the time of the last update, and the sequential flag. */
  lemma UpdateDecided(entries: Entries, trace: seq<Observed>, id: Uuid)
    ensures var before, now := Find(entries, id), Find(Run(entries, trace), id);
      && UpdatedOf(now) == Known(LastSome(trace, UpdatedWrite(id)), UpdatedOf(before))
      && SequentialOf(now) == Known(LastSome(trace, SequentialWrite(id)), SequentialOf(before))
  {
    UpdatedGoverned(id);
    SequentialGoverned(id);
    hide Governs, Run, LastSome, Known, Find;
    LastWriteWins(entries, trace, id, UpdatedOf, UpdatedWrite(id));
    LastWriteWins(entries, trace, id, SequentialOf, SequentialWrite(id));
  }

  // ----- The time of admission -----

  lemma {:induction false} RunJoin(entries: Entries, a: seq<Observed>, b: seq<Observed>)
    ensures Run(entries, a + b) == Run(Run(entries, a), b)
  {
    var n := |b|;
    if n == 0 {
      assert a + b == a;
    } else {
      assert (a + b)[..|a| + n - 1] == a + b[..n - 1];
      RunJoin(entries, a, b[..n - 1]);
    }
  }

  predicate KeepsAdded(o: Observed, id: Uuid) {
    match o.event
    case TorrentAdded(other, _) => other != id
    case TorrentRemoved(other) => other != id
    case _ => true
  }

  lemma {:induction false} AddedAtKept(entries: Entries, trace: seq<Observed>, id: Uuid)
    requires id in entries && forall o :: o in trace ==> KeepsAdded(o, id)
    ensures id in Run(entries, trace) && Run(entries, trace)[id].addedAt == entries[id].addedAt
  {
    var n := |trace|;
    if n > 0 {
      AddedAtKept(entries, trace[..n - 1], id);
      assert KeepsAdded(trace[n - 1], id);
    }
  }

  /** Until the next admission or removal, a torrent counts as added when it was last admitted, or else
      when its entry was created blank. */
  lemma AddedAtDecided(entries: Entries, front: seq<Observed>, o: Observed, back: seq<Observed>, id: Uuid)
    requires forall later :: later in back ==> KeepsAdded(later, id)
    ensures var before, after := Run(entries, front), Run(entries, front + [o]);
      var now := Run(entries, front + [o] + back);
      && (o.event.TorrentAdded? && o.event.id == id ==> id in now && now[id].addedAt == o.now.stamp)
      && (!o.event.TorrentAdded? && id !in before && id in after ==> id in now && now[id].addedAt == o.now.blank)
  {
    assert (front + [o])[..|front|] == front;
    RunJoin(entries, front + [o], back);
    if id in Run(entries, front + [o]) { AddedAtKept(Run(entries, front + [o]), back, id); }
  }

  /** What decides the remaining fields: state, progress, rates and metadata. */
  lemma DetailsDecided(entries: Entries, trace: seq<Observed>, id: Uuid)
    ensures var before, now := Find(entries, id), Find(Run(entries, trace), id);
      && StateOf(now) == Known(LastSome(trace, StateWrite(id)), StateOf(before))
      && ProgressOf(now) == Known(LastSome(trace, ProgressWrite(id)), ProgressOf(before))
      && RatesOf(now) == Known(LastSome(trace, RatesWrite(id)), RatesOf(before))
      && DownloadDirOf(now) == Known(LastSome(trace, DownloadDirWrite(id)), DownloadDirOf(before))
      && CommentOf(now) == Known(LastSome(trace, CommentWrite(id)), CommentOf(before))
      && SourceOf(now) == Known(LastSome(trace, SourceWrite(id)), SourceOf(before))
      && PrivateOf(now) == Known(LastSome(trace, PrivateWrite(id)), PrivateOf(before))
  {
    StateGoverned(id);
    ProgressGoverned(id);
    RatesGoverned(id);
    DownloadDirGoverned(id);
    CommentGoverned(id);
    SourceGoverned(id);
    PrivateGoverned(id);
    hide Governs, Run, LastSome, Known, Find;
    LastWriteWins(entries, trace, id, StateOf, StateWrite(id));
    LastWriteWins(entries, trace, id, ProgressOf, ProgressWrite(id));
    LastWriteWins(entries, trace, id, RatesOf, RatesWrite(id));
    LastWriteWins(entries, trace, id, DownloadDirOf, DownloadDirWrite(id));
    LastWriteWins(entries, trace, id, CommentOf, CommentWrite(id));
    LastWriteWins(entries, trace, id, SourceOf, SourceWrite(id));
    LastWriteWins(entries, trace, id, PrivateOf, PrivateWrite(id));
  }

  // ----- Invariants -----

  /** A library path comes with a completion time. */
  ghost predicate CompletionTimed(entries: Entries) {
    forall id :: id in entries && entries[id].libraryPath.Some? ==> entries[id].completedAt.Some?
  }

  ghost predicate RatiosFinite(entries: Entries) {
    forall id :: id in entries ==> BelowInfinity(entries[id].rates.ratio)
  }

  ghost predicate CatalogOk(entries: Entries) {
    Keyed(entries) && CompletionTimed(entries) && RatiosFinite(entries)
  }

  lemma StepKeeps(entries: Entries, o: Observed)
    requires CatalogOk(entries)
    ensures CatalogOk(Step(entries, o))
  {
  }

  /** Every run keeps ids as keys, completion times beside library paths and ratios finite. */
  lemma {:induction false} RunKeeps(entries: Entries, trace: seq<Observed>)
    requires CatalogOk(entries)
    ensures CatalogOk(Run(entries, trace))
  {
    var n := |trace|;
    if n > 0 {
      RunKeeps(entries, trace[..n - 1]);
      StepKeeps(Run(entries, trace[..n - 1]), trace[n - 1]);
    }
  }
}
