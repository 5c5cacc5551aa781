/** Restoring the fields of one instance: which become rows, which stay open, and which one stops the
    restore. */
module FieldRestore {
  import opened Basics
  import opened Ordering
  import opened IndexerRecords
  import opened IndexerStore
  import opened StoreOperations
  import opened Restore
  import opened PolicyRestore

  // ----- Fields -----

  type FieldTypes = map<string, string>

  /** A field as the store holds it, whatever its definition has become since: secret types carry no
      value, the others exactly one and no secret. */
  predicate FieldItemOk(f: FieldItem) {
    if SecretType(f.fieldType) then f.value == NO_FIELD_VALUE
    else f.secretId.None? && ValueError(f.fieldType, f.value).None?
  }

  /** Why restoring the field into a new instance is refused, if it is: `types` is what the definition
      has now. */
  function FieldRefusal(types: FieldTypes, f: FieldItem): Option<ErrorCode> {
    if f.name !in types then Some(FieldNotFound)
    else if f.secretId.None? then ValueError(types[f.name], f.value)
    else if !SecretType(types[f.name]) then Some(FieldNotSecret)
    else None
  }

  /** The first refusal in the list. */
  function FieldsRefusal(types: FieldTypes, fields: seq<FieldItem>): Option<ErrorCode> {
    if fields == [] then None else FieldRefusal(types, fields[0]).Or(FieldsRefusal(types, fields[1..]))
  }

  /** The type the definition now gives the field. */
  function TypeNow(types: FieldTypes, f: FieldItem): string {
    if f.name in types then types[f.name] else f.fieldType
  }

  function FieldAfter(types: FieldTypes, f: FieldItem): Field {
    Field(TypeNow(types, f), f.value, f.secretId, map[])
  }

  function MissingField(secrets: SecretTypes, name: string, f: FieldItem): seq<Unresolved> {
    if Missing(secrets, f.secretId)
    then [Unresolved(IndexerInstanceEntity, name, f.name, f.secretId.value)] else []
  }

  function MissingFields(secrets: SecretTypes, name: string, fields: seq<FieldItem>): seq<Unresolved> {
    if fields == [] then []
    else MissingField(secrets, name, fields[0]) + MissingFields(secrets, name, fields[1..])
  }

  /** Fields whose secret is absent are not created at all. */
  function FieldRows(types: FieldTypes, secrets: SecretTypes, rows: map<string, Field>, fields: seq<FieldItem>)
    : map<string, Field>
    decreases |fields|
  {
    if fields == [] then rows
    else FieldRows(types, secrets, AddField(types, secrets, rows, fields[0]), fields[1..])
  }

  function AddField(types: FieldTypes, secrets: SecretTypes, rows: map<string, Field>, f: FieldItem)
    : map<string, Field>
  {
    if Missing(secrets, f.secretId) then rows else rows[f.name := FieldAfter(types, f)]
  }

  function WithInstance(st: Store, id: Uuid, inst: Instance): Store {
    st.(instances := st.instances[id := inst])
  }

  function TypesOf(st: Store, inst: Instance): FieldTypes { TypesIn(st.reference, inst.upstreamSlug) }

  lemma FieldRestored(st: Store, id: Uuid, name: string, f: FieldItem, u: seq<Unresolved>)
    requires id in st.instances && FieldItemOk(f) && FieldRefusal(TypesOf(st, st.instances[id]), f).None?
    requires f.name !in st.instances[id].fields
    ensures var inst := st.instances[id];
      RestoreField(st, id, name, f, u)
        == Done(WithInstance(st, id, inst.(fields := AddField(TypesOf(st, inst), st.secrets, inst.fields, f))),
                u + MissingField(st.secrets, name, f))
  {
    var inst := st.instances[id];
    assert u + [] == u;
    assert WithInstance(st, id, inst) == st;
    assert FieldTypeOf(st, inst, f.name) == Some(TypesOf(st, inst)[f.name]);
    assert f.secretId.Some? ==> f.value == NO_FIELD_VALUE;
  }

  /** A refused field stops the restore with its error. */
  lemma FieldRefused(st: Store, id: Uuid, name: string, f: FieldItem, u: seq<Unresolved>)
    requires id in st.instances && FieldRefusal(TypesOf(st, st.instances[id]), f).Some?
    ensures RestoreField(st, id, name, f, u) == Failed(st, FieldRefusal(TypesOf(st, st.instances[id]), f).value)
  {
  }

  ghost predicate FieldsOk(fields: seq<FieldItem>) {
    && AscendingBy(fields, FieldBefore)
    && forall i :: 0 <= i < |fields| ==> FieldItemOk(fields[i])
  }

  predicate Absent(rows: map<string, Field>, fields: seq<FieldItem>) {
    forall i :: 0 <= i < |fields| ==> fields[i].name !in rows
  }

  lemma RestStaysAbsent(types: FieldTypes, secrets: SecretTypes, rows: map<string, Field>, fields: seq<FieldItem>)
    requires fields != [] && FieldsOk(fields) && Absent(rows, fields)
    ensures FieldsOk(fields[1..]) && Absent(AddField(types, secrets, rows, fields[0]), fields[1..])
  {
    hide FieldItemOk, FieldAfter;
    forall i | 0 <= i < |fields[1..]| ensures fields[1..][i].name !in AddField(types, secrets, rows, fields[0]) {
      assert FieldBefore(fields[0], fields[i + 1]);
      StrLessIrreflexive(fields[0].name);
    }
    assert forall i :: 0 < i < |fields| ==> fields[i] == fields[1..][i - 1];
  }

  /** The instance once `head` has been restored. */
  function FieldAdded(types: FieldTypes, secrets: SecretTypes, inst: Instance, head: FieldItem): Instance {
    inst.(fields := AddField(types, secrets, inst.fields, head))
  }

  function FieldsAdded(types: FieldTypes, secrets: SecretTypes, inst: Instance, fields: seq<FieldItem>): Instance {
    inst.(fields := FieldRows(types, secrets, inst.fields, fields))
  }

  /** What `RestoreFields` must come to. */
  ghost predicate FieldsOutcome(st: Store, id: Uuid, name: string, fields: seq<FieldItem>, u: seq<Unresolved>,
                                r: Outcome<seq<Unresolved>>)
    requires id in st.instances
  {
    var types := TypesOf(st, st.instances[id]);
    if FieldsRefusal(types, fields).None? then
      r == Done(WithInstance(st, id, FieldsAdded(types, st.secrets, st.instances[id], fields)),
                u + MissingFields(st.secrets, name, fields))
    else r.Failed? && r.code == FieldsRefusal(types, fields).value
  }

  lemma FieldsStep(st: Store, id: Uuid, name: string, fields: seq<FieldItem>, u: seq<Unresolved>)
    requires fields != [] && id in st.instances && FieldItemOk(fields[0])
    requires FieldRefusal(TypesOf(st, st.instances[id]), fields[0]).None?
    requires fields[0].name !in st.instances[id].fields
    ensures var inst := st.instances[id];
      var inst1 := FieldAdded(TypesOf(st, inst), st.secrets, inst, fields[0]);
      && RestoreFields(st, id, name, fields, u)
         == RestoreFields(WithInstance(st, id, inst1), id, name, fields[1..],
                          u + MissingField(st.secrets, name, fields[0]))
      && TypesOf(WithInstance(st, id, inst1), inst1) == TypesOf(st, inst)
  {
    FieldRestored(st, id, name, fields[0], u);
    hide FieldItemOk, FieldRefusal, RestoreField, MissingField, AddField;
  }

  lemma OutcomeStep(st: Store, id: Uuid, name: string, fields: seq<FieldItem>, u: seq<Unresolved>,
                    r: Outcome<seq<Unresolved>>)
    requires fields != [] && id in st.instances && FieldRefusal(TypesOf(st, st.instances[id]), fields[0]).None?
    requires var inst1 := FieldAdded(TypesOf(st, st.instances[id]), st.secrets, st.instances[id], fields[0]);
      FieldsOutcome(WithInstance(st, id, inst1), id, name, fields[1..],
                    u + MissingField(st.secrets, name, fields[0]), r)
    ensures FieldsOutcome(st, id, name, fields, u, r)
  {
    var inst := st.instances[id];
    var types := TypesOf(st, inst);
    var inst1 := FieldAdded(types, st.secrets, inst, fields[0]);
    assert TypesOf(WithInstance(st, id, inst1), inst1) == types;
    hide MissingField, AddField, FieldRefusal, TypesOf;
    WithInstanceFacts(st, id, inst1, FieldsAdded(types, st.secrets, inst, fields));
    assert FieldsAdded(types, st.secrets, inst1, fields[1..]) == FieldsAdded(types, st.secrets, inst, fields);
    var missing := MissingFields(st.secrets, name, fields[1..]);
    Regrouped(u, MissingField(st.secrets, name, fields[0]), missing);
  }

  /** The fields are restored, or the first refused one stops the restore with its error. */
  lemma {:induction false} FieldsRestored(st: Store, id: Uuid, name: string, fields: seq<FieldItem>, u: seq<Unresolved>)
    requires id in st.instances && FieldsOk(fields) && Absent(st.instances[id].fields, fields)
    ensures FieldsOutcome(st, id, name, fields, u, RestoreFields(st, id, name, fields, u))
    decreases |fields|
  {
    var inst := st.instances[id];
    var types := TypesOf(st, inst);
    if fields == [] {
      assert WithInstance(st, id, FieldsAdded(types, st.secrets, inst, [])) == st && u + [] == u;
    } else {
      assert FieldItemOk(fields[0]) && fields[0].name !in inst.fields;
      RestStaysAbsent(types, st.secrets, inst.fields, fields);
      if FieldRefusal(types, fields[0]).Some? {
        FieldRefused(st, id, name, fields[0], u);
      } else {
        hide FieldItemOk, RestoreField, RestoreFields, MissingField, FieldsOk, Absent, AddField, FieldsOutcome,
          FieldRefusal, FieldsRefusal, TypesOf;
        var inst1 := FieldAdded(types, st.secrets, inst, fields[0]);
        WithInstanceFacts(st, id, inst1, inst1);
        FieldsStep(st, id, name, fields, u);
        FieldsRestored(WithInstance(st, id, inst1), id, name, fields[1..],
                       u + MissingField(st.secrets, name, fields[0]));
        OutcomeStep(st, id, name, fields, u, RestoreFields(st, id, name, fields, u));
      }
    }
  }

  lemma WithInstanceFacts(st: Store, id: Uuid, a: Instance, b: Instance)
    ensures id in WithInstance(st, id, a).instances && WithInstance(st, id, a).instances[id] == a
    ensures WithInstance(WithInstance(st, id, a), id, b) == WithInstance(st, id, b)
    ensures WithInstance(st, id, a).secrets == st.secrets && WithInstance(st, id, a).reference == st.reference
  {
  }

  /** Restored fields are bound once. */
  lemma {:induction false} RowsSinglyBound(types: FieldTypes, secrets: SecretTypes, rows: map<string, Field>,
                                           fields: seq<FieldItem>)
    requires NothingOlder(rows)
    ensures NothingOlder(FieldRows(types, secrets, rows, fields))
    decreases |fields|
  {
    if fields != [] { RowsSinglyBound(types, secrets, AddField(types, secrets, rows, fields[0]), fields[1..]); }
  }

  // ----- The restored fields as documents -----

  /** The field as it comes back: under the type its definition now has. */
  function Retyped(types: FieldTypes, f: FieldItem): FieldItem { f.(fieldType := TypeNow(types, f)) }

  function Kept(types: FieldTypes, secrets: SecretTypes, fields: seq<FieldItem>): seq<FieldItem> {
    if fields == [] then []
    else
      var rest := Kept(types, secrets, fields[1..]);
      if Missing(secrets, fields[0].secretId) then rest else [Retyped(types, fields[0])] + rest
  }

  lemma {:induction false} KeptHolds(types: FieldTypes, secrets: SecretTypes, fields: seq<FieldItem>)
    ensures forall g :: g in Kept(types, secrets, fields) <==>
      exists f :: f in fields && !Missing(secrets, f.secretId) && Retyped(types, f) == g
  {
    hide Missing, Retyped;
    if fields != [] {
      KeptHolds(types, secrets, fields[1..]);
      assert fields == [fields[0]] + fields[1..];
    }
  }

  lemma {:induction false} KeptSorted(types: FieldTypes, secrets: SecretTypes, fields: seq<FieldItem>)
    requires AscendingBy(fields, FieldBefore)
    ensures AscendingBy(Kept(types, secrets, fields), FieldBefore)
  {
    if fields != [] {
      var head, rest := Retyped(types, fields[0]), Kept(types, secrets, fields[1..]);
      KeptSorted(types, secrets, fields[1..]);
      KeptHolds(types, secrets, fields[1..]);
      assert fields == [fields[0]] + fields[1..];
      forall g | g in rest ensures FieldBefore(head, g) {
        var f :| f in fields[1..] && !Missing(secrets, f.secretId) && Retyped(types, f) == g;
        assert FieldBefore(fields[0], f);
      }
      hide AscendingBy, FieldBefore, Retyped, Missing;
      PrependAscending(head, rest, FieldBefore);
    }
  }

  lemma KeptAscending(types: FieldTypes, secrets: SecretTypes, fields: seq<FieldItem>)
    requires AscendingBy(fields, FieldBefore)
    ensures AscendingBy(Kept(types, secrets, fields), FieldBefore)
    ensures forall g :: g in Kept(types, secrets, fields) <==>
      exists f :: f in fields && !Missing(secrets, f.secretId) && Retyped(types, f) == g
  {
    hide *;
    KeptSorted(types, secrets, fields);
    KeptHolds(types, secrets, fields);
  }

  lemma {:induction false} FieldRowsKeys(types: FieldTypes, secrets: SecretTypes, rows: map<string, Field>,
                                         fields: seq<FieldItem>)
    ensures forall k :: k in FieldRows(types, secrets, rows, fields) <==>
      k in rows || exists f :: f in fields && f.name == k && !Missing(secrets, f.secretId)
    decreases |fields|
  {
    hide FieldAfter, Missing;
    if fields != [] {
      assert fields == [fields[0]] + fields[1..];
      FieldRowsKeys(types, secrets, AddField(types, secrets, rows, fields[0]), fields[1..]);
    }
  }

  /** A row that no field names stays. */
  lemma {:induction false} FieldRowsKeep(types: FieldTypes, secrets: SecretTypes, rows: map<string, Field>,
                                         fields: seq<FieldItem>, k: string)
    requires k in rows && forall f :: f in fields ==> f.name != k
    ensures k in FieldRows(types, secrets, rows, fields) && FieldRows(types, secrets, rows, fields)[k] == rows[k]
    decreases |fields|
  {
    hide FieldAfter, Missing;
    if fields != [] {
      assert fields[0] in fields && forall f :: f in fields[1..] ==> f in fields;
      FieldRowsKeep(types, secrets, AddField(types, secrets, rows, fields[0]), fields[1..], k);
    }
  }

  lemma LaterNamesDiffer(fields: seq<FieldItem>)
    requires fields != [] && AscendingBy(fields, FieldBefore)
    ensures forall f :: f in fields[1..] ==> f.name != fields[0].name
  {
    forall f | f in fields[1..] ensures f.name != fields[0].name {
      assert FieldBefore(fields[0], f);
      StrLessIrreflexive(f.name);
    }
  }

  lemma {:induction false} FieldRowsValue(types: FieldTypes, secrets: SecretTypes, rows: map<string, Field>,
                                          fields: seq<FieldItem>, f: FieldItem)
    requires AscendingBy(fields, FieldBefore) && f in fields && !Missing(secrets, f.secretId)
    ensures f.name in FieldRows(types, secrets, rows, fields)
    ensures FieldRows(types, secrets, rows, fields)[f.name] == FieldAfter(types, f)
    decreases |fields|
  {
    LaterNamesDiffer(fields);
    assert fields == [fields[0]] + fields[1..];
    assert AscendingBy(fields[1..], FieldBefore);
    hide FieldAfter, Missing, AscendingBy;
    var more := AddField(types, secrets, rows, fields[0]);
    if f == fields[0] {
      FieldRowsKeep(types, secrets, more, fields[1..], f.name);
    } else {
      FieldRowsValue(types, secrets, more, fields[1..], f);
    }
  }

  lemma ListedIsKept(st: Store, inst: Instance, types: FieldTypes, fields: seq<FieldItem>, k: string)
    requires AscendingBy(fields, FieldBefore) && inst.fields == FieldRows(types, st.secrets, map[], fields)
    requires k in inst.fields
    ensures FieldItemOf(st, k, inst.fields[k]) in Kept(types, st.secrets, fields)
  {
    hide Kept, FieldRows, AscendingBy;
    KeptAscending(types, st.secrets, fields);
    FieldRowsKeys(types, st.secrets, map[], fields);
    var g :| g in fields && g.name == k && !Missing(st.secrets, g.secretId);
    FieldRowsValue(types, st.secrets, map[], fields, g);
    assert FieldItemOf(st, k, inst.fields[k]) == Retyped(types, g);
  }

  lemma KeptIsListed(st: Store, inst: Instance, types: FieldTypes, fields: seq<FieldItem>, f: FieldItem)
    requires AscendingBy(fields, FieldBefore) && inst.fields == FieldRows(types, st.secrets, map[], fields)
    requires f in Kept(types, st.secrets, fields)
    ensures f.name in inst.fields && FieldItemOf(st, f.name, inst.fields[f.name]) == f
  {
    hide Kept, FieldRows, AscendingBy;
    KeptAscending(types, st.secrets, fields);
    var g :| g in fields && !Missing(st.secrets, g.secretId) && Retyped(types, g) == f;
    FieldRowsValue(types, st.secrets, map[], fields, g);
  }

  /** The created fields export as the fields that were kept. */
  lemma FieldsListed(st: Store, inst: Instance, types: FieldTypes, fields: seq<FieldItem>)
    requires AscendingBy(fields, FieldBefore)
    requires inst.fields == FieldRows(types, st.secrets, map[], fields)
    ensures ByName(FieldItems(st, inst)) == Kept(types, st.secrets, fields)
  {
    hide ByName, Kept, FieldRows;
    var items, kept := FieldItems(st, inst), Kept(types, st.secrets, fields);
    KeptAscending(types, st.secrets, fields);
    ByNameHolds(items);
    ByNameAscending(items, FieldBefore);
    BeforeAsymmetric();
    hide AscendingBy, FieldBefore, Asymmetric, FieldItemOf;
    forall f ensures f in ByName(items) <==> f in kept {
      if k :| k in items && items[k] == f { ListedIsKept(st, inst, types, fields, k); }
      if f in kept {
        KeptIsListed(st, inst, types, fields, f);
        assert items[f.name] == f;
      }
    }
    AscendingUnique(ByName(items), kept, FieldBefore);
  }
}
