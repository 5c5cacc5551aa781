/** The left joins of the export queries, as sets of rows: every list of exactly these rows is one
    the export lemmas speak of. */
module ExportJoin {
  import opened Basics
  import opened IndexerRecords
  import opened IndexerStore
  import opened SnapshotExport

  /** The values a left join pairs a row with: one absent value when there is nothing to join. */
  function Joined(keys: set<string>): set<Option<string>> {
    if keys == {} then {None} else set k | k in keys :: Some(k)
  }

  lemma JoinedHolds(keys: set<string>)
    ensures Joined(keys) != {}
    ensures forall k :: Some(k) in Joined(keys) <==> k in keys
  {
    if keys != {} {
      var k :| k in keys;
      assert Some(k) in Joined(keys);
    }
  }

  function RoutingJoinRow(st: Store, id: Uuid, key: Option<string>): RoutingRow
    requires id in st.policies && (key.Some? ==> key.value in st.policies[id].parameters)
  {
    var p := st.policies[id];
    var name := RateLimitNameIn(st, p.rateLimitId);
    var row := RoutingRow(id, p.displayName, p.mode, if name.Some? then p.rateLimitId else None, name,
                          key, NO_ROUTING_VALUE, None, None);
    if key.None? then row else
      var q := p.parameters[key.value];
      row.(value := q.value, secretId := LiveSecret(st, q.secretId), secretType := SecretTypeIn(st, q.secretId))
  }

  /** Every policy paired with each of its parameters. */
  ghost predicate InRoutingJoin(st: Store, r: RoutingRow) {
    exists id, k ::
      id in st.policies && k in Joined(st.policies[id].parameters.Keys)
      && (k.Some? ==> k.value in st.policies[id].parameters) && r == RoutingJoinRow(st, id, k)
  }

  /** What the left join pairs a field row with: each of its bindings, the one under its present type and
      those left under older ones. */
  function Bindings(f: Field): set<Option<Uuid>> {
    var bound := (if f.secretId.Some? then {f.secretId.value} else {}) + f.older.Values;
    if bound == {} then {None} else set b | b in bound :: Some(b)
  }

  function BindingsAt(inst: Instance, field: Option<string>): set<Option<Uuid>> {
    if field.Some? && field.value in inst.fields then Bindings(inst.fields[field.value]) else {None}
  }

  function InstanceJoinRow(st: Store, id: Uuid, media: Option<string>, tag: Option<string>,
      field: Option<string>, binding: Option<Uuid>): InstanceRow
    requires id in st.instances && (field.Some? ==> field.value in st.instances[id].fields)
  {
    var inst := st.instances[id];
    var routing, limit := PolicyNameIn(st, inst.routingId), RateLimitNameIn(st, inst.rateLimitId);
    var row := InstanceRow(
      id, inst.displayName, ColumnsOf(inst), if routing.Some? then inst.routingId else None, routing,
      if limit.Some? then inst.rateLimitId else None, limit, RssEnabledOf(inst), RssIntervalOf(inst),
      media, if tag.Some? && tag.value in st.tags then tag else None,
      field, None, NO_FIELD_VALUE, None, None);
    if field.None? then row else
      var f := inst.fields[field.value];
      row.(fieldType := Some(f.fieldType), value := f.value,
           secretId := LiveSecret(st, binding), secretType := SecretTypeIn(st, binding))
  }

  /** The product of media domains, tags and fields with their bindings, for every instance. */
  ghost predicate InInstanceJoin(st: Store, r: InstanceRow) {
    exists id, m, t, f, b ::
      id in st.instances && m in Joined(st.instances[id].mediaKeys) && t in Joined(st.instances[id].tagKeys)
      && f in Joined(st.instances[id].fields.Keys) && b in BindingsAt(st.instances[id], f)
      && (f.Some? ==> f.value in st.instances[id].fields) && r == InstanceJoinRow(st, id, m, t, f, b)
  }

  /** All bindings of the field give the same secret once revoked ones are dropped. */
  ghost predicate OneSecret(st: Store, f: Field) {
    forall b, c :: b in Bindings(f) && c in Bindings(f) ==> LiveSecret(st, b) == LiveSecret(st, c)
  }

  ghost predicate OneSecretEach(st: Store) {
    forall id, f :: id in st.instances && f in st.instances[id].fields ==> OneSecret(st, st.instances[id].fields[f])
  }

  lemma OwnBinding(f: Field)
    requires BoundNow(f)
    ensures f.secretId in Bindings(f)
  {
    assert f.older == map[] ==> f.older.Values == {};
  }

  lemma OneBinding(f: Field)
    requires f.older == map[]
    ensures Bindings(f) == {f.secretId}
  {
    assert f.older.Values == {};
    if f.secretId.Some? {
      assert (set b | b in {f.secretId.value} :: Some(b)) == {f.secretId};
    }
  }

  lemma SingleSecrets(st: Store)
    requires SinglyBound(st)
    ensures OneSecretEach(st) && AllBoundNow(st)
  {
    forall id, f | id in st.instances && f in st.instances[id].fields
      ensures OneSecret(st, st.instances[id].fields[f]) && BoundNow(st.instances[id].fields[f])
    {
      assert NothingOlder(st.instances[id].fields);
      OneBinding(st.instances[id].fields[f]);
      hide Bindings;
    }
  }

  lemma RoutingJoinSome(st: Store, rows: seq<RoutingRow>, id: Uuid, k: Option<string>)
    requires forall r :: r in rows <==> InRoutingJoin(st, r)
    requires id in st.policies && k in Joined(st.policies[id].parameters.Keys)
    ensures (k.Some? ==> k.value in st.policies[id].parameters) && RoutingJoinRow(st, id, k) in rows
  {
    JoinedHolds(st.policies[id].parameters.Keys);
    assert InRoutingJoin(st, RoutingJoinRow(st, id, k));
  }

  /** The routing join satisfies what the export lemmas ask of its rows. */
  lemma RoutingJoinConsistent(st: Store, rows: seq<RoutingRow>)
    requires forall r :: r in rows <==> InRoutingJoin(st, r)
    ensures RoutingRowsOf(st, rows)
  {
    forall r | r in rows ensures RoutingRowOf(st, r) { assert InRoutingJoin(st, r); }
    hide InRoutingJoin, RoutingRowOf, Joined;
    forall id | id in st.policies
      ensures exists r :: r in rows && r.id == id
      ensures forall k :: k in st.policies[id].parameters ==>
          exists r :: r in rows && r.id == id && r.paramKey == Some(k)
    {
      JoinedHolds(st.policies[id].parameters.Keys);
      var key :| key in Joined(st.policies[id].parameters.Keys);
      RoutingJoinSome(st, rows, id, key);
      assert RoutingJoinRow(st, id, key).id == id;
      forall k | k in st.policies[id].parameters ensures exists r :: r in rows && r.id == id && r.paramKey == Some(k) {
        RoutingJoinSome(st, rows, id, Some(k));
        assert RoutingJoinRow(st, id, Some(k)).paramKey == Some(k);
      }
    }
  }

  lemma InstanceJoinSome(st: Store, rows: seq<InstanceRow>, id: Uuid, m: Option<string>, t: Option<string>,
      f: Option<string>)
    requires forall r :: r in rows <==> InInstanceJoin(st, r)
    requires id in st.instances && m in Joined(st.instances[id].mediaKeys) && t in Joined(st.instances[id].tagKeys)
    requires f in Joined(st.instances[id].fields.Keys)
    ensures f.Some? ==> f.value in st.instances[id].fields
    ensures exists b :: b in BindingsAt(st.instances[id], f) && InstanceJoinRow(st, id, m, t, f, b) in rows
  {
    JoinedHolds(st.instances[id].fields.Keys);
    var b := AnyBinding(st.instances[id], f);
    assert InInstanceJoin(st, InstanceJoinRow(st, id, m, t, f, b));
  }

  lemma AnyBinding(inst: Instance, field: Option<string>) returns (b: Option<Uuid>)
    ensures b in BindingsAt(inst, field)
  {
    b := None;
    if field.Some? && field.value in inst.fields {
      var f := inst.fields[field.value];
      var bound := (if f.secretId.Some? then {f.secretId.value} else {}) + f.older.Values;
      if bound != {} {
        var x :| x in bound;
        b := Some(x);
      }
    }
  }

  lemma JoinRowSound(st: Store, id: Uuid, m: Option<string>, t: Option<string>, f: Option<string>, b: Option<Uuid>)
    requires id in st.instances && (m.Some? ==> m.value in st.instances[id].mediaKeys)
    requires t.Some? ==> t.value in st.instances[id].tagKeys
    requires f.Some? ==>
      f.value in st.instances[id].fields
      && LiveSecret(st, b) == LiveSecret(st, st.instances[id].fields[f.value].secretId)
    ensures InstanceRowOf(st, InstanceJoinRow(st, id, m, t, f, b))
  {
    hide ColumnsOf, PolicyNameIn, RateLimitNameIn, RssEnabledOf, RssIntervalOf;
  }

  lemma InstanceJoinSound(st: Store, r: InstanceRow)
    requires InInstanceJoin(st, r) && OneSecretEach(st) && AllBoundNow(st)
    ensures InstanceRowOf(st, r)
  {
    hide InstanceRowOf, InstanceJoinRow, Joined, Bindings;
    var id, m, t, f, b :|
      id in st.instances && m in Joined(st.instances[id].mediaKeys) && t in Joined(st.instances[id].tagKeys)
      && f in Joined(st.instances[id].fields.Keys) && b in BindingsAt(st.instances[id], f)
      && (f.Some? ==> f.value in st.instances[id].fields) && r == InstanceJoinRow(st, id, m, t, f, b);
    JoinedHolds(st.instances[id].mediaKeys);
    JoinedHolds(st.instances[id].tagKeys);
    if f.Some? {
      assert OneSecret(st, st.instances[id].fields[f.value]);
      OwnBinding(st.instances[id].fields[f.value]);
    }
    JoinRowSound(st, id, m, t, f, b);
  }

  /** The instance join satisfies what the export lemmas ask of its rows, if the bindings of every
      field lead to one secret. */
  lemma InstanceJoinConsistent(st: Store, rows: seq<InstanceRow>)
    requires OneSecretEach(st) && AllBoundNow(st) && forall r :: r in rows <==> InInstanceJoin(st, r)
    ensures InstanceRowsOf(st, rows)
  {
    hide InInstanceJoin, OneSecretEach, AllBoundNow;
    forall r | r in rows ensures InstanceRowOf(st, r) { InstanceJoinSound(st, r); }
    hide Joined, InstanceRowOf;
    forall id | id in st.instances
      ensures exists r :: r in rows && r.id == id
      ensures forall k :: k in st.instances[id].mediaKeys ==>
          exists r :: r in rows && r.id == id && r.mediaKey == Some(k)
      ensures forall k :: k in st.instances[id].tagKeys * st.tags.Keys ==>
          exists r :: r in rows && r.id == id && r.tagKey == Some(k)
      ensures forall k :: k in st.instances[id].fields ==> exists r :: r in rows && r.id == id && r.fieldName == Some(k)
    {
      InstanceJoinComplete(st, rows, id);
    }
  }

  lemma InstanceJoinComplete(st: Store, rows: seq<InstanceRow>, id: Uuid)
    requires (forall r :: r in rows <==> InInstanceJoin(st, r)) && id in st.instances
    ensures exists r :: r in rows && r.id == id
    ensures forall k :: k in st.instances[id].mediaKeys ==> exists r :: r in rows && r.id == id && r.mediaKey == Some(k)
    ensures forall k :: k in st.instances[id].tagKeys * st.tags.Keys ==>
        exists r :: r in rows && r.id == id && r.tagKey == Some(k)
    ensures forall k :: k in st.instances[id].fields ==> exists r :: r in rows && r.id == id && r.fieldName == Some(k)
  {
    hide InInstanceJoin, Joined, BindingsAt;
    var inst := st.instances[id];
    JoinedHolds(inst.mediaKeys);
    JoinedHolds(inst.tagKeys);
    JoinedHolds(inst.fields.Keys);
    var m :| m in Joined(inst.mediaKeys);
    var t :| t in Joined(inst.tagKeys);
    var f :| f in Joined(inst.fields.Keys);
    InstanceJoinSome(st, rows, id, m, t, f);
    forall k | k in inst.mediaKeys ensures exists r :: r in rows && r.id == id && r.mediaKey == Some(k) {
      InstanceJoinSome(st, rows, id, Some(k), t, f);
    }
    forall k | k in inst.tagKeys * st.tags.Keys ensures exists r :: r in rows && r.id == id && r.tagKey == Some(k) {
      InstanceJoinSome(st, rows, id, m, Some(k), f);
    }
    forall k | k in inst.fields ensures exists r :: r in rows && r.id == id && r.fieldName == Some(k) {
      InstanceJoinSome(st, rows, id, m, t, Some(k));
    }
  }

  /** What the four queries return for the store: the tag and limit listings and the two joins. */
  ghost predicate JoinRows(st: Store, rows: Rows) {
    && TagsListed(st, rows.tags) && RateLimitsListed(st, rows.rateLimits)
    && (forall r :: r in rows.routing <==> InRoutingJoin(st, r))
    && (forall r :: r in rows.instances <==> InInstanceJoin(st, r))
  }

  lemma JoinRowsConsistent(st: Store, rows: Rows)
    requires OneSecretEach(st) && AllBoundNow(st) && JoinRows(st, rows)
    ensures RowsOf(st, rows)
  {
    RoutingJoinConsistent(st, rows.routing);
    InstanceJoinConsistent(st, rows.instances);
    hide InRoutingJoin, InInstanceJoin, RoutingRowsOf, InstanceRowsOf, TagsListed, RateLimitsListed, OneSecretEach,
      AllBoundNow;
  }
}
