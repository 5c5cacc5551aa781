/** The configuration watcher: one flag, edge-triggered health events and a settings event per snapshot.

    How long applying a snapshot takes, and whether it fails, are inputs. Events are those it attempts
    to publish: a failed delivery is only logged. */
module ConfigWatch {

  /** Nanoseconds. */
  const APPLY_SLA: nat := 2_000_000_000

  datatype Applied = Within(elapsed: nat) | Failed(error: string)

  /** What the watcher waits for: a snapshot with the fate of applying it, or the end of the stream. */
  datatype Item = Snapshot(revision: int, applied: Applied) | Terminated

  datatype Description =
    | AppliedIn(revision: int, millis: nat)
    | AppliedSlowly(revision: int, millis: nat)
    | NotApplied(revision: int, error: string)

  datatype BusEvent = SettingsChanged(description: Description) | HealthChanged(degraded: seq<string>)

  /** The item leaves the configuration degraded. */
  predicate Troubled(item: Item) {
    item.Terminated? || item.applied.Failed? || item.applied.elapsed > APPLY_SLA
  }

  function Components(degraded: bool): seq<string> {
    if degraded then ["config_watcher"] else []
  }

  /** The health event due when the flag goes from `flag` to `degraded`. */
  function Edge(flag: bool, degraded: bool): seq<BusEvent> {
    if flag == degraded then [] else [HealthChanged(Components(degraded))]
  }

  function Described(item: Item): Description
    requires item.Snapshot?
  {
    match item.applied
    case Failed(error) => NotApplied(item.revision, error)
    case Within(elapsed) =>
      if elapsed > APPLY_SLA then AppliedSlowly(item.revision, elapsed / 1_000_000)
      else AppliedIn(item.revision, elapsed / 1_000_000)
  }

  /** Health first when the snapshot was applied, settings first when it was not. */
  function Published(flag: bool, item: Item): seq<BusEvent> {
    var edge := Edge(flag, Troubled(item));
    if item.Terminated? then edge
    else if item.applied.Failed? then [SettingsChanged(Described(item))] + edge
    else edge + [SettingsChanged(Described(item))]
  }

  /** The items handled: nothing after the first termination. */
  function Handled(items: seq<Item>): (r: seq<Item>)
    ensures r <= items
  {
    if items == [] then [] else if items[0].Terminated? then [items[0]] else [items[0]] + Handled(items[1..])
  }

  /** The flag after a run that starts clear. */
  function Flag(items: seq<Item>): bool {
    items != [] && Troubled(items[|items| - 1])
  }

  function Log(items: seq<Item>): seq<BusEvent> {
    var n := |items|;
    if n == 0 then [] else Log(items[..n - 1]) + Published(Flag(items[..n - 1]), items[n - 1])
  }

  function Healths(events: seq<BusEvent>): seq<seq<string>> {
    if events == [] then []
    else (if events[0].HealthChanged? then [events[0].degraded] else []) + Healths(events[1..])
  }

  function Settings(events: seq<BusEvent>): seq<Description> {
    if events == [] then []
    else (if events[0].SettingsChanged? then [events[0].description] else []) + Settings(events[1..])
  }

  lemma {:induction false} HealthsJoin(a: seq<BusEvent>, b: seq<BusEvent>)
    ensures Healths(a + b) == Healths(a) + Healths(b)
    ensures Settings(a + b) == Settings(a) + Settings(b)
  {
    if a == [] {
      assert a + b == b;
    } else {
      var rest := a[1..];
      assert a == [a[0]] + rest && a + b == [a[0]] + (rest + b);
      hide Healths, Settings;
      HealthsJoin(rest, b);
      HealthsFirst(a[0], rest);
      HealthsFirst(a[0], rest + b);
    }
  }

  lemma HealthsFirst(e: BusEvent, rest: seq<BusEvent>)
    ensures Healths([e] + rest) == (if e.HealthChanged? then [e.degraded] else []) + Healths(rest)
    ensures Settings([e] + rest) == (if e.SettingsChanged? then [e.description] else []) + Settings(rest)
  {
    assert ([e] + rest)[1..] == rest;
  }

  /** Degraded, clear, degraded, ... */
  ghost predicate Alternating(healths: seq<seq<string>>) {
    forall i :: 0 <= i < |healths| ==> healths[i] == if i % 2 == 0 then ["config_watcher"] else []
  }

  lemma PublishedHealths(flag: bool, item: Item)
    ensures Healths(Published(flag, item)) == if flag == Troubled(item) then [] else [Components(Troubled(item))]
    ensures Settings(Published(flag, item)) == if item.Snapshot? then [Described(item)] else []
  {
    var edge := Edge(flag, Troubled(item));
    if item.Snapshot? {
      var settings := [SettingsChanged(Described(item))];
      assert Settings(settings) == [Described(item)] && Healths(settings) == [];
      HealthsJoin(edge, settings);
      HealthsJoin(settings, edge);
    }
  }

  /** Over any run the health events alternate, starting with degraded, and their number tells the flag. */
  lemma {:induction false} HealthEdges(items: seq<Item>)
    ensures Alternating(Healths(Log(items)))
    ensures |Healths(Log(items))| % 2 == (if Flag(items) then 1 else 0)
  {
    var n := |items|;
    if n > 0 {
      var front := items[..n - 1];
      HealthEdges(front);
      PublishedHealths(Flag(front), items[n - 1]);
      HealthsJoin(Log(front), Published(Flag(front), items[n - 1]));
      assert Log(items) == Log(front) + Published(Flag(front), items[n - 1]);
      hide *;
      AlternatingSnoc(Healths(Log(front)), Flag(front), Troubled(items[n - 1]));
    } else {
      assert Healths([]) == [];
    }
  }

  /** A health event on a change of flag keeps the alternation going. */
  lemma AlternatingSnoc(healths: seq<seq<string>>, flag: bool, degraded: bool)
    requires Alternating(healths) && |healths| % 2 == (if flag then 1 else 0)
    ensures var more := healths + if flag == degraded then [] else [Components(degraded)];
      Alternating(more) && |more| % 2 == (if degraded then 1 else 0)
  {
  }

  /** The latest health event names the watcher exactly when the flag is set, and the flag is set exactly
      after an end of the stream, a failure or more than two seconds of applying. */
  lemma LatestMatchesFlag(items: seq<Item>)
    ensures var healths := Healths(Log(items));
      if healths == [] then !Flag(items)
      else healths[|healths| - 1] == if Flag(items) then ["config_watcher"] else []
    ensures if items == [] then !Flag(items) else
      var last := items[|items| - 1];
      Flag(items) == (last.Terminated? || last.applied.Failed? || last.applied.elapsed > 2_000_000_000)
  {
    HealthEdges(items);
    hide Log, Healths;
    var healths := Healths(Log(items));
    if healths != [] {
      var last := |healths| - 1;
      assert healths[last] == if last % 2 == 0 then ["config_watcher"] else [];
    }
  }

  /** What one more item adds to the log: the health event comes before the announcement of a snapshot
      that was applied and after that of one that was not. */
  lemma LogSnoc(items: seq<Item>, item: Item)
    ensures var more := Log(items + [item])[|Log(items)|..];
      var up, down := [HealthChanged(["config_watcher"])], [HealthChanged([])];
      Log(items) <= Log(items + [item]) &&
      match item
      case Terminated => more == if Flag(items) then [] else up
      case Snapshot(revision, Failed(error)) =>
        more == [SettingsChanged(NotApplied(revision, error))] + if Flag(items) then [] else up
      case Snapshot(revision, Within(elapsed)) =>
        if elapsed > 2_000_000_000 then
          more == (if Flag(items) then [] else up) + [SettingsChanged(AppliedSlowly(revision, elapsed / 1_000_000))]
        else
          more == (if Flag(items) then down else []) + [SettingsChanged(AppliedIn(revision, elapsed / 1_000_000))]
  {
    assert (items + [item])[..|items|] == items;
  }

  /** How each snapshot is announced: its revision with the milliseconds it took, or with the error. */
  function Descriptions(items: seq<Item>): seq<Description> {
    var n := |items|;
    if n == 0 then [] else
      Descriptions(items[..n - 1]) +
      match items[n - 1]
      case Terminated => []
      case Snapshot(revision, Failed(error)) => [NotApplied(revision, error)]
      case Snapshot(revision, Within(elapsed)) =>
        [if elapsed <= 2_000_000_000 then AppliedIn(revision, elapsed / 1_000_000)
         else AppliedSlowly(revision, elapsed / 1_000_000)]
  }

  /** Every snapshot is announced once, in order. */
  lemma {:induction false} SnapshotsAnnounced(items: seq<Item>)
    ensures Settings(Log(items)) == Descriptions(items)
  {
    var n := |items|;
    if n > 0 {
      SnapshotsAnnounced(items[..n - 1]);
      PublishedHealths(Flag(items[..n - 1]), items[n - 1]);
      HealthsJoin(Log(items[..n - 1]), Published(Flag(items[..n - 1]), items[n - 1]));
    }
  }

  lemma {:induction false} HandledUpTo(items: seq<Item>, i: nat)
    requires i < |items| && items[i].Terminated? && forall j :: 0 <= j < i ==> items[j].Snapshot?
    ensures Handled(items) == items[..i + 1]
  {
    if i > 0 { HandledUpTo(items[1..], i - 1); }
  }

  lemma {:induction false} AllHandled(items: seq<Item>)
    requires forall j :: 0 <= j < |items| ==> items[j].Snapshot?
    ensures Handled(items) == items
  {
    if items != [] { AllHandled(items[1..]); }
  }

  /** What is handled ends with the first termination, or is everything. */
  lemma {:induction false} HandledExactly(items: seq<Item>)
    ensures var r := Handled(items);
      && r <= items
      && (forall i :: 0 <= i < |r| - 1 ==> r[i].Snapshot?)
      && (|r| < |items| ==> r != [] && r[|r| - 1].Terminated?)
  {
    if items != [] { HandledExactly(items[1..]); }
  }

  lemma TerminatedEdge()
    ensures Edge(true, true) == [] && Published(true, Terminated) == Edge(true, true)
    ensures Published(false, Terminated) == Edge(false, true)
  {
  }

  class Watcher {
    var configDegraded: bool
    var events: seq<BusEvent>

    constructor ()
      ensures !configDegraded && events == []
    {
      configDegraded := false;
      events := [];
    }

    method SetConfigDegraded(degraded: bool)
      modifies this
      ensures configDegraded == degraded
      ensures events == old(events) + Edge(old(configDegraded), degraded)
    {
      if configDegraded == degraded {
        return;
      }
      events := events + [HealthChanged(if degraded then ["config_watcher"] else [])];
      configDegraded := degraded;
    }

    method ApplyConfigSnapshot(revision: int, applied: Applied)
      modifies this
      ensures configDegraded == Troubled(Snapshot(revision, applied))
      ensures events == old(events) + Published(old(configDegraded), Snapshot(revision, applied))
    {
      match applied
      case Within(elapsed) =>
        var description := AppliedIn(revision, elapsed / 1_000_000);
        if elapsed > APPLY_SLA {
          description := AppliedSlowly(revision, elapsed / 1_000_000);
          SetConfigDegraded(true);
        } else {
          SetConfigDegraded(false);
        }
        events := events + [SettingsChanged(description)];
      case Failed(error) =>
        events := events + [SettingsChanged(NotApplied(revision, error))];
        SetConfigDegraded(true);
    }

    /** `spawn_config_watch_task` */
    method Watch(items: seq<Item>)
      requires !configDegraded && events == []
      modifies this
      ensures configDegraded == Flag(Handled(items)) && events == Log(Handled(items))
    {
      hide Published, Edge, Described, Handled;
      TerminatedEdge();
      for i := 0 to |items|
        invariant forall j :: 0 <= j < i ==> items[j].Snapshot?
        invariant configDegraded == Flag(items[..i]) && events == Log(items[..i])
      {
        assert items[..i + 1][..i] == items[..i];
        match items[i]
        case Snapshot(revision, applied) => ApplyConfigSnapshot(revision, applied);
        case Terminated =>
          SetConfigDegraded(true);
          HandledUpTo(items, i);
          return;
      }
      assert items[..|items|] == items;
      AllHandled(items);
    }
  }
}
