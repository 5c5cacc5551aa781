/** The policy inventory counts rows where the backup keeps a set of parameters: when the counts are
    right, and exactly when. */
module RoutingAgreement {
  import opened Basics
  import opened Ordering
  import opened RowFolds
  import opened IndexerRecords
  import opened IndexerStore
  import opened ExportJoin
  import opened KeyedLists
  import R = RoutingExport
  import V = RoutingInventory

  /** Ids and display names determine each other. */
  ghost predicate NamesAreKeys(rows: seq<RoutingRow>) { OneToOne(rows, V.IdOf(), R.NameOf()) }

  ghost predicate IsNamed(rows: seq<RoutingRow>, id: Uuid, name: string) {
    Denotes(rows, V.IdOf(), R.NameOf(), id, name)
  }

  /** What both lists show of a policy. */
  datatype Summary = Summary(displayName: string, mode: string, rateLimitName: Option<string>, parameterCount: nat)

  function Exported(item: RoutingItem): Summary {
    Summary(item.displayName, item.mode, item.rateLimitName, |item.parameters|)
  }

  function Listed(item: V.RoutingListItem): Summary {
    Summary(item.displayName, item.mode, item.rateLimitName, item.parameterCount)
  }

  function ListedName(item: V.RoutingListItem): string { item.displayName }

  function SummaryName(s: Summary): string { s.displayName }

  lemma ParametersCounted(parameters: set<ParameterItem>)
    ensures |R.SortedParameters(parameters)| == |parameters|
  {
    ParameterOrder();
  }

  /** Columns read under the id and under the name are the same columns. */
  lemma SameColumns(rows: seq<RoutingRow>, id: Uuid, name: string)
    requires IsNamed(rows, id, name)
    ensures FirstSome(rows, V.ModeAt(id)) == FirstSome(rows, R.ModeFor(name))
    ensures FirstSome(rows, V.RateLimitNameAt(id)) == FirstSome(rows, R.RateLimitNameFor(name))
    ensures Tally(rows, V.ParameterAt(id)) == Tally(rows, R.ParameterFor(name))
  {
    hide FirstSome, LastSome, Picks, Tally;
    SamePick(rows, V.ModeAt(id), R.ModeFor(name));
    SamePick(rows, V.RateLimitNameAt(id), R.RateLimitNameFor(name));
    SamePick(rows, V.ParameterAt(id), R.ParameterFor(name));
  }

  lemma NameRead(rows: seq<RoutingRow>, id: Uuid, name: string)
    requires IsNamed(rows, id, name) && id in V.Ids(rows)
    ensures FirstSome(rows, V.NameAt(id)) == Some(name)
  {
    V.HasRow(rows, id);
    hide FirstSome, Picks;
    var r := FirstFrom(rows, V.NameAt(id));
  }

  /** The policy is summarised alike exactly when no parameter occurs in two of its rows. */
  lemma SameSummaryExactly(rows: seq<RoutingRow>, id: Uuid, name: string)
    requires IsNamed(rows, id, name) && id in V.Ids(rows) && name in R.RoutingNames(rows)
    ensures V.Entry(rows, id).displayName == name
    ensures Listed(V.Entry(rows, id)) == Exported(R.ItemOf(rows, name)) <==> Unrepeated(rows, R.ParameterFor(name))
  {
    hide FirstSome, Picks, Tally, IsNamed, Unrepeated, R.SortedParameters;
    SameColumns(rows, id, name);
    NameRead(rows, id, name);
    ParametersCounted(Picks(rows, R.ParameterFor(name)));
    TallyExactly(rows, R.ParameterFor(name));
  }

  lemma MapsMatch(rows: seq<RoutingRow>)
    requires NamesAreKeys(rows)
    ensures SameNames(R.ItemMap(rows), V.ItemMap(rows), ListedName) && DistinctNames(V.ItemMap(rows), ListedName)
  {
    var m, n := R.ItemMap(rows), V.ItemMap(rows);
    forall id | id in n ensures ListedName(n[id]) in m && IsNamed(rows, id, ListedName(n[id])) {
      var name := Named(rows, V.IdOf(), R.NameOf(), id);
      SameSummaryExactly(rows, id, name);
    }
    forall name | name in m ensures exists id :: id in n && ListedName(n[id]) == name {
      var id := Identified(rows, V.IdOf(), R.NameOf(), name);
      SameSummaryExactly(rows, id, name);
      assert id in n;
    }
    hide V.ItemMap, R.ItemMap, ListedName;
    forall i, j | i in n && j in n && ListedName(n[i]) == ListedName(n[j]) ensures i == j {
      assert IsNamed(rows, i, ListedName(n[i])) && IsNamed(rows, j, ListedName(n[j]));
    }
  }

  lemma ListedAlikeExactly(rows: seq<RoutingRow>)
    requires NamesAreKeys(rows) && SameNames(R.ItemMap(rows), V.ItemMap(rows), ListedName)
    ensures SameListed(R.ItemMap(rows), V.ItemMap(rows), Exported, Listed, ListedName) <==>
            forall name :: name in R.RoutingNames(rows) ==> Unrepeated(rows, R.ParameterFor(name))
  {
    var m, n := R.ItemMap(rows), V.ItemMap(rows);
    forall id | id in n
      ensures ListedName(n[id]) in R.RoutingNames(rows)
      ensures Listed(n[id]) == Exported(m[ListedName(n[id])]) <==> Unrepeated(rows, R.ParameterFor(ListedName(n[id])))
    {
      var name := Named(rows, V.IdOf(), R.NameOf(), id);
      SameSummaryExactly(rows, id, name);
    }
    forall name | name in R.RoutingNames(rows) ensures exists id :: id in n && ListedName(n[id]) == name {
      assert name in m;
    }
    hide Unrepeated, Listed, Exported, ListedName, V.ItemMap, R.ItemMap;
  }

  lemma SummariesNamed(rows: seq<RoutingRow>)
    ensures NamedAlike(R.ItemMap(rows), Exported, Listed, ListedName, SummaryName)
    ensures OrderedByName(V.InventoryBefore, ListedName)
  {
  }

  /** With ids and names one to one, inventory and backup show the same policies with the same parameter
      counts, in the same order, exactly when no parameter of a policy occurs in two rows. */
  lemma CountsAgreeExactly(rows: seq<RoutingRow>)
    requires NamesAreKeys(rows)
    ensures Mapped(R.RoutingItems(rows), Exported) == Mapped(V.InventoryItems(rows), Listed) <==>
            forall name :: name in R.RoutingNames(rows) ==> Unrepeated(rows, R.ParameterFor(name))
  {
    MapsMatch(rows);
    SummariesNamed(rows);
    ListedAlikeExactly(rows);
    hide Mapped, ByName, ById, StableSort, R.ItemMap, V.ItemMap, SameListed, Unrepeated, SameNames, DistinctNames,
      NamedAlike, OrderedByName;
    SameListExactly(R.ItemMap(rows), V.ItemMap(rows), Exported, Listed, V.InventoryBefore, ListedName, SummaryName);
  }

  // ----- The rows of a store -----

  /** The join, each row once. */
  ghost predicate JoinOnce(st: Store, rows: seq<RoutingRow>) {
    && (forall r :: r in rows <==> InRoutingJoin(st, r))
    && forall i, j :: 0 <= i < j < |rows| ==> rows[i] != rows[j]
  }

  function KeyAt(id: Uuid): RoutingRow -> Option<string> {
    (r: RoutingRow) => if r.id == id then r.paramKey else None
  }

  /** The key of a row whose parameter is bound to a live secret. */
  function BoundKeyAt(id: Uuid): RoutingRow -> Option<string> {
    (r: RoutingRow) => if r.id == id && r.secretId.Some? then r.paramKey else None
  }

  /** The parameters bound to a secret that is not revoked. */
  function BoundKeys(st: Store, p: Policy): set<string> {
    set k | k in p.parameters && p.parameters[k].secretId.Some? && p.parameters[k].secretId.value in st.secrets
  }

  /** A row of the join is determined by its policy and key. */
  lemma JoinRow(st: Store, r: RoutingRow)
    requires InRoutingJoin(st, r)
    ensures r.id in st.policies && (r.paramKey.Some? ==> r.paramKey.value in st.policies[r.id].parameters)
    ensures r == RoutingJoinRow(st, r.id, r.paramKey)
    ensures r.secretId.Some? ==> r.paramKey.Some? && r.paramKey.value in BoundKeys(st, st.policies[r.id])
    ensures r.paramKey.Some? && r.paramKey.value in BoundKeys(st, st.policies[r.id]) ==> r.secretId.Some?
  {
  }

  lemma JoinKeys(st: Store, rows: seq<RoutingRow>, id: Uuid)
    requires JoinOnce(st, rows) && id in st.policies
    ensures Picks(rows, KeyAt(id)) == st.policies[id].parameters.Keys
    ensures Picks(rows, BoundKeyAt(id)) == BoundKeys(st, st.policies[id])
  {
    var p := st.policies[id];
    forall k | k in p.parameters
      ensures k in Picks(rows, KeyAt(id)) && (k in BoundKeys(st, p) ==> k in Picks(rows, BoundKeyAt(id)))
    {
      JoinedHolds(p.parameters.Keys);
      RoutingJoinSome(st, rows, id, Some(k));
      var r := RoutingJoinRow(st, id, Some(k));
      JoinRow(st, r);
      Seen(rows, KeyAt(id), r);
      if k in BoundKeys(st, p) { Seen(rows, BoundKeyAt(id), r); }
    }
    forall k | k in Picks(rows, KeyAt(id)) ensures k in p.parameters {
      var r := PickedFrom(rows, KeyAt(id), k);
      JoinRow(st, r);
    }
    forall k | k in Picks(rows, BoundKeyAt(id)) ensures k in BoundKeys(st, p) {
      var r := PickedFrom(rows, BoundKeyAt(id), k);
      JoinRow(st, r);
    }
  }

  lemma JoinUnrepeated(st: Store, rows: seq<RoutingRow>, id: Uuid)
    requires JoinOnce(st, rows)
    ensures Unrepeated(rows, KeyAt(id)) && Unrepeated(rows, BoundKeyAt(id))
  {
    forall i, j | 0 <= i < j < |rows| && KeyAt(id)(rows[i]).Some? ensures KeyAt(id)(rows[i]) != KeyAt(id)(rows[j]) {
      JoinRow(st, rows[i]);
      JoinRow(st, rows[j]);
    }
  }

  lemma {:induction false} SameTally<T, U>(rows: seq<RoutingRow>, p: RoutingRow -> Option<T>,
                                              q: RoutingRow -> Option<U>)
    requires forall r :: r in rows ==> (p(r).Some? <==> q(r).Some?)
    ensures Tally(rows, p) == Tally(rows, q)
  {
    var n := |rows|;
    if n > 0 {
      assert rows[n - 1] in rows;
      SameTally(rows[..n - 1], p, q);
    }
  }

  /** On the join of a store, listed once, the inventory counts every policy's parameters and the
      parameters bound to a live secret. */
  lemma StoreCounts(st: Store, rows: seq<RoutingRow>, id: Uuid)
    requires JoinOnce(st, rows) && id in st.policies && id in V.Ids(rows)
    ensures V.Entry(rows, id).parameterCount == |st.policies[id].parameters|
    ensures V.Entry(rows, id).secretBindingCount == |BoundKeys(st, st.policies[id])|
  {
    forall r | r in rows
      ensures V.ParameterAt(id)(r).Some? <==> KeyAt(id)(r).Some?
      ensures V.SecretAt(id)(r).Some? <==> BoundKeyAt(id)(r).Some?
    {
      JoinRow(st, r);
    }
    JoinKeys(st, rows, id);
    JoinUnrepeated(st, rows, id);
    hide JoinOnce, BoundKeys;
    SameTally(rows, V.ParameterAt(id), KeyAt(id));
    SameTally(rows, V.SecretAt(id), BoundKeyAt(id));
    TallyExactly(rows, KeyAt(id));
    TallyExactly(rows, BoundKeyAt(id));
    assert |st.policies[id].parameters| == |st.policies[id].parameters.Keys|;
  }
}
