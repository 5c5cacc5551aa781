/** Torrent lifecycle events, the status kept per torrent and what one event does to it. */
module TorrentEvents {
  import opened Basics

  type Word64 = n: int | 0 <= n < 0x1_0000_0000_0000_0000
  type Word32 = n: int | 0 <= n < 0x1_0000_0000

  /** An IEEE 754 double by its bit pattern; an exponent of all ones means infinity or NaN. */
  type Float64 = Word64

  predicate IsFinite(x: Float64) { x / 0x10_0000_0000_0000 % 0x800 != 0x7FF }

  const ZERO: Float64 := 0

  type Instant = int

  datatype TorrentState =
    Queued | FetchingMetadata | Downloading | Seeding | Done | Failed(message: string) | Stopped

  datatype DiscoveredFile = DiscoveredFile(path: string, sizeBytes: Word64)

  datatype FilePriority = Skip | Low | Normal | High

  datatype TorrentFile = TorrentFile(
    index: Word32, path: string, sizeBytes: Word64, bytesCompleted: Word64, priority: FilePriority, selected: bool)

  datatype Progress = Progress(bytesDownloaded: Word64, bytesTotal: Word64, etaSeconds: Option<Word64>)

  datatype Rates = Rates(downloadBps: Word64, uploadBps: Word64, ratio: Float64)

  datatype TorrentStatus = TorrentStatus(
    id: Uuid, name: Option<string>, state: TorrentState, progress: Progress, rates: Rates,
    files: Option<seq<TorrentFile>>, libraryPath: Option<string>, downloadDir: Option<string>,
    comment: Option<string>, source: Option<string>, private: Option<bool>, sequential: bool,
    addedAt: Instant, completedAt: Option<Instant>, lastUpdated: Instant)

  datatype Event =
    | TorrentAdded(id: Uuid, name: string)
    | FilesDiscovered(id: Uuid, files: seq<DiscoveredFile>)
    | ProgressMade(id: Uuid, progress: Progress, rates: Rates)
    | StateChanged(id: Uuid, state: TorrentState)
    | Completed(id: Uuid, libraryPath: string)
    | MetadataUpdated(id: Uuid, newName: Option<string>, downloadDir: Option<string>, comment: Option<string>,
                      source: Option<string>, private: Option<bool>)
    | TorrentRemoved(id: Uuid)
    | FsopsStarted(id: Uuid)
    | FsopsProgress(id: Uuid, step: string)
    | FsopsCompleted(id: Uuid)
    | FsopsFailed(id: Uuid, message: string)
    | SelectionReconciled(id: Uuid, reason: string)
    | SettingsChanged(description: string)
    | HealthChanged(degraded: seq<string>)

  /** The two clock readings a handler may take: one for a blank entry, one for the event. */
  datatype Clock = Clock(blank: Instant, stamp: Instant)

  datatype Observed = Observed(event: Event, now: Clock)

  /** `event_torrent_id` */
  function EventTorrentId(event: Event): Option<Uuid> {
    match event
    case SettingsChanged(_) => None
    case HealthChanged(_) => None
    case _ => Some(event.id)
  }

  const NO_PROGRESS := Progress(0, 0, None)
  const NO_RATES := Rates(0, 0, ZERO)

  function BlankStatus(id: Uuid, now: Instant): TorrentStatus {
    TorrentStatus(id, None, Queued, NO_PROGRESS, NO_RATES, None, None, None, None, None, None, false, now, None, now)
  }

  function SafeRatio(x: Float64): (r: Float64)
    ensures IsFinite(r)
  {
    if IsFinite(x) then x else ZERO
  }

  function IndexOf(i: nat): Word32 {
    if i < 0x1_0000_0000 then i else 0xFFFF_FFFF
  }

  function MapDiscoveredFiles(files: seq<DiscoveredFile>): seq<TorrentFile> {
    seq(|files|, i requires 0 <= i < |files| =>
      TorrentFile(IndexOf(i), files[i].path, files[i].sizeBytes, 0, Normal, true))
  }

  /** The event reaches its torrent's entry, creating it when absent. */
  predicate Touches(event: Event) {
    match event
    case FilesDiscovered(_, files) => files != []
    case TorrentRemoved(_) => false
    case SelectionReconciled(_, _) => false
    case SettingsChanged(_) => false
    case HealthChanged(_) => false
    case _ => true
  }

  /** The fields an event writes, the stamp aside. */
  function Written(s: TorrentStatus, event: Event, stamp: Instant): TorrentStatus {
    match event
    case TorrentAdded(_, name) =>
      s.(name := Some(name), state := Queued, progress := NO_PROGRESS, rates := NO_RATES,
         libraryPath := None, comment := None, source := None, private := None, addedAt := stamp)
    case FilesDiscovered(_, files) => s.(files := Some(MapDiscoveredFiles(files)))
    case ProgressMade(_, progress, rates) =>
      s.(progress := progress, rates := rates.(ratio := SafeRatio(rates.ratio)))
    case StateChanged(_, state) => s.(state := state)
    case Completed(_, path) => s.(state := Done, libraryPath := Some(path), completedAt := Some(stamp))
    case MetadataUpdated(_, name, dir, comment, source, private) =>
      s.(name := name.Or(s.name), downloadDir := dir.Or(s.downloadDir), comment := comment.Or(s.comment),
         source := source.Or(s.source), private := private.Or(s.private))
    case FsopsFailed(_, message) => s.(state := Failed(message))
    case _ => s
  }

  /** What an event leaves of its own torrent's entry. */
  function After(entry: Option<TorrentStatus>, o: Observed): Option<TorrentStatus> {
    if o.event.TorrentRemoved? then None
    else if !Touches(o.event) then entry
    else
      var s := if entry.Some? then entry.value else BlankStatus(o.event.id, o.now.blank);
      Some(Written(s, o.event, o.now.stamp).(lastUpdated := o.now.stamp))
  }
}
