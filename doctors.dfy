/**
 * The doctor registry screen (components/Doctors.tsx): the unified list it
 * shows, which collapses records whose trimmed, upper-cased names coincide,
 * and the save, update and delete handlers over the application's doctors.
 *
 * The unified list is built as the component builds it: a `Map` from
 * normalised name to the record kept so far, filled in one pass; a later
 * record displaces the kept one when it brings a CRM or an address the kept
 * one lacks; the values, in the order their keys first appeared, are then
 * sorted by name. The kept record is one of the inputs, unchanged.
 */
module Doctors {
  import opened Wrappers
  import opened Types
  import opened Text
  import opened Sorting
  import opened Collections
  import opened App

  // ---------------------------------------------------------------------------
  // The unified list
  // ---------------------------------------------------------------------------

  /** The key a doctor is unified under: the name trimmed, then upper-cased. */
  function DoctorKey(d: Doctor): string {
    Upper(Trim(d.name))
  }

  /** The key is the normalised name the rest of the application uses. */
  lemma DoctorKeyIsNameKey(d: Doctor)
    ensures DoctorKey(d) == NameKey(d.name)
  {
    UpperTrimCommute(d.name);
  }

  function DoctorName(d: Doctor): string { d.name }

  /** Whether `doc` displaces the record kept so far under its key. */
  predicate Displaces(doc: Doctor, kept: Doctor) {
    (Truthy(doc.crm) && !Truthy(kept.crm)) || (Truthy(doc.address) && !Truthy(kept.address))
  }

  /** The map after the pass over `ds`: each key to the record kept for it. */
  function KeptByKey(ds: seq<Doctor>, key: Doctor -> string): map<string, Doctor>
    decreases |ds|
  {
    if ds == [] then map[]
    else
      var kept := KeptByKey(ds[..|ds| - 1], key);
      var doc := ds[|ds| - 1];
      var k := key(doc);
      if k !in kept || Displaces(doc, kept[k]) then kept[k := doc] else kept
  }

  /** The map's keys in insertion order: each key where it first appears. */
  function KeyOrder(ds: seq<Doctor>, key: Doctor -> string): seq<string>
    decreases |ds|
  {
    if ds == [] then []
    else
      var order := KeyOrder(ds[..|ds| - 1], key);
      var k := key(ds[|ds| - 1]);
      if k in order then order else order + [k]
  }

  /** `Array.from(map.values())`: the records under `keys`, in that order. */
  function ValuesOf(keys: seq<string>, kept: map<string, Doctor>): (r: seq<Doctor>)
    requires forall k :: k in keys ==> k in kept
    ensures |r| == |keys|
    decreases |keys|
  {
    if keys == [] then [] else ValuesOf(keys[..|keys| - 1], kept) + [kept[keys[|keys| - 1]]]
  }

  /** The value at each position is the record kept under the key there. */
  lemma {:induction false} ValuesOfIndex(keys: seq<string>, kept: map<string, Doctor>)
    requires forall k :: k in keys ==> k in kept
    ensures forall i :: 0 <= i < |keys| ==> ValuesOf(keys, kept)[i] == kept[keys[i]]
    decreases |keys|
  {
    if keys != [] {
      ValuesOfIndex(keys[..|keys| - 1], kept);
    }
  }

  /** The map's keys are the keys of its insertion order. */
  lemma {:induction false} KeyOrderDomain(ds: seq<Doctor>, key: Doctor -> string)
    ensures forall k :: k in KeptByKey(ds, key) <==> k in KeyOrder(ds, key)
    decreases |ds|
  {
    if ds != [] {
      KeyOrderDomain(ds[..|ds| - 1], key);
    }
  }

  /** The keys are exactly those of the input records. */
  lemma {:induction false} KeyOrderOccurs(ds: seq<Doctor>, key: Doctor -> string)
    ensures forall k :: k in KeyOrder(ds, key) <==> exists i :: 0 <= i < |ds| && key(ds[i]) == k
    decreases |ds|
  {
    if ds != [] {
      var init := ds[..|ds| - 1];
      KeyOrderOccurs(init, key);
      forall k | k in KeyOrder(ds, key) ensures exists i :: 0 <= i < |ds| && key(ds[i]) == k {
        if k in KeyOrder(init, key) {
          var i :| 0 <= i < |init| && key(init[i]) == k;
          assert key(ds[i]) == k;
        } else {
          assert key(ds[|ds| - 1]) == k;
        }
      }
      forall k | exists i :: 0 <= i < |ds| && key(ds[i]) == k ensures k in KeyOrder(ds, key) {
        var i :| 0 <= i < |ds| && key(ds[i]) == k;
        if i < |init| { assert key(init[i]) == k; }
      }
    }
  }

  /** The record kept under a key carries that key and is an input record. */
  lemma {:induction false} KeptRecordFacts(ds: seq<Doctor>, key: Doctor -> string)
    ensures forall k :: k in KeptByKey(ds, key) ==> key(KeptByKey(ds, key)[k]) == k && KeptByKey(ds, key)[k] in ds
    decreases |ds|
  {
    if ds != [] {
      var init := ds[..|ds| - 1];
      KeptRecordFacts(init, key);
      assert ds == init + [ds[|ds| - 1]];
    }
  }

  /** Each key enters the insertion order once. */
  lemma {:induction false} KeyOrderDistinct(ds: seq<Doctor>, key: Doctor -> string)
    ensures NoDuplicates(KeyOrder(ds, key))
    decreases |ds|
  {
    if ds != [] {
      KeyOrderDistinct(ds[..|ds| - 1], key);
    }
  }

  /** The kept records in the order their keys first appeared. */
  function KeptValues(ds: seq<Doctor>, key: Doctor -> string): seq<Doctor> {
    KeyOrderDomain(ds, key);
    ValuesOf(KeyOrder(ds, key), KeptByKey(ds, key))
  }

  /** `unifiedDoctors`: the kept records, sorted by name. */
  function UnifiedDoctors(ds: seq<Doctor>): seq<Doctor> {
    SortBy(KeptValues(ds, DoctorKey), DoctorName, Ascending)
  }

  /** No two records share a key. */
  predicate DistinctKeys(ds: seq<Doctor>, key: Doctor -> string) {
    forall i, j :: 0 <= i < j < |ds| ==> key(ds[i]) != key(ds[j])
  }

  /** Before sorting, each key has one record, and each record is an input record. */
  lemma KeptValuesFacts(ds: seq<Doctor>, key: Doctor -> string)
    ensures DistinctKeys(KeptValues(ds, key), key)
    ensures forall x :: x in KeptValues(ds, key) ==> x in ds
  {
    KeyOrderDomain(ds, key);
    KeptRecordFacts(ds, key);
    KeyOrderDistinct(ds, key);
    var order, kept := KeyOrder(ds, key), KeptByKey(ds, key);
    var v := KeptValues(ds, key);
    ValuesOfIndex(order, kept);
    assert forall i :: 0 <= i < |v| ==> key(v[i]) == order[i] && v[i] in ds;
  }

  /** Before sorting, every key of the input has its record. */
  lemma KeptValuesComplete(ds: seq<Doctor>, key: Doctor -> string)
    ensures forall i :: 0 <= i < |ds| ==> exists x :: x in KeptValues(ds, key) && key(x) == key(ds[i])
  {
    KeyOrderDomain(ds, key);
    KeyOrderOccurs(ds, key);
    KeptRecordFacts(ds, key);
    var order, kept := KeyOrder(ds, key), KeptByKey(ds, key);
    var v := KeptValues(ds, key);
    ValuesOfIndex(order, kept);
    forall i | 0 <= i < |ds| ensures exists x :: x in v && key(x) == key(ds[i]) {
      var k := key(ds[i]);
      assert k in order;
      var j :| 0 <= j < |order| && order[j] == k;
      assert v[j] in v && key(v[j]) == k;
    }
  }

  /** Distinct keys make distinct records, so each record occurs once. */
  lemma DistinctKeysOnce(v: seq<Doctor>, x: Doctor, key: Doctor -> string)
    requires DistinctKeys(v, key)
    ensures multiset(v)[x] <= 1
  {
    assert NoDuplicates(v) by {
      forall i, j | 0 <= i < j < |v| ensures v[i] != v[j] {
        assert key(v[i]) != key(v[j]);
      }
    }
    NoDuplicatesCount(v, x);
  }

  /** A reordering of a list with distinct keys has distinct keys. */
  lemma PermutationKeepsDistinctKeys(v: seq<Doctor>, r: seq<Doctor>, key: Doctor -> string)
    requires DistinctKeys(v, key) && multiset(r) == multiset(v)
    ensures DistinctKeys(r, key)
  {
    forall i, j | 0 <= i < j < |r| ensures key(r[i]) != key(r[j]) {
      assert r[i] in multiset(v) && r[j] in multiset(v);
      var a :| 0 <= a < |v| && v[a] == r[i];
      var b :| 0 <= b < |v| && v[b] == r[j];
      if key(r[i]) == key(r[j]) {
        assert a == b;
        DistinctKeysOnce(v, r[i], key);
        DistinctByCount(r, i, j);
      }
    }
  }

  /** The unified list holds one record per normalised name, every name of
      the input is represented, every record is an input record unchanged,
      and the list is sorted by name. */
  lemma UnifiedDoctorsSpec(ds: seq<Doctor>)
    ensures DistinctKeys(UnifiedDoctors(ds), DoctorKey)
    ensures forall x :: x in UnifiedDoctors(ds) ==> x in ds
    ensures forall i :: 0 <= i < |ds| ==> exists x :: x in UnifiedDoctors(ds) && DoctorKey(x) == DoctorKey(ds[i])
    ensures SortedBy(UnifiedDoctors(ds), DoctorName, Ascending)
  {
    var v := KeptValues(ds, DoctorKey);
    var r := UnifiedDoctors(ds);
    KeptValuesFacts(ds, DoctorKey);
    KeptValuesComplete(ds, DoctorKey);
    SortBySpec(v, DoctorName, Ascending);
    SortByLength(v, DoctorName, Ascending);
    PermutationKeepsDistinctKeys(v, r, DoctorKey);
    forall i | 0 <= i < |ds| ensures exists x :: x in r && DoctorKey(x) == DoctorKey(ds[i]) {
      var x :| x in v && DoctorKey(x) == DoctorKey(ds[i]);
      assert x in r;
    }
  }

  /** Updating a key outside `keys` does not change the values under `keys`. */
  lemma ValuesOfOutside(keys: seq<string>, kept: map<string, Doctor>, k: string, d: Doctor)
    requires forall j :: j in keys ==> j in kept
    requires k !in keys
    ensures ValuesOf(keys, kept[k := d]) == ValuesOf(keys, kept)
  {
    ValuesOfIndex(keys, kept);
    ValuesOfIndex(keys, kept[k := d]);
  }

  /** A key no input record carries is not in the insertion order. */
  lemma {:induction false} KeyOrderAbsent(ds: seq<Doctor>, k: string, key: Doctor -> string)
    requires forall i :: 0 <= i < |ds| ==> key(ds[i]) != k
    ensures k !in KeyOrder(ds, key)
    decreases |ds|
  {
    if ds != [] {
      KeyOrderAbsent(ds[..|ds| - 1], k, key);
    }
  }

  /** Appending a new key appends its record to the values. */
  lemma ValuesOfAppend(keys: seq<string>, kept: map<string, Doctor>, k: string, d: Doctor)
    requires forall j :: j in keys ==> j in kept
    requires k !in keys
    ensures ValuesOf(keys + [k], kept[k := d]) == ValuesOf(keys, kept) + [d]
  {
    ValuesOfOutside(keys, kept, k, d);
    assert (keys + [k])[..|keys|] == keys;
  }

  /** A record whose key is new goes to the end of the kept values. */
  lemma KeptValuesSnoc(init: seq<Doctor>, last: Doctor, key: Doctor -> string)
    requires forall i :: 0 <= i < |init| ==> key(init[i]) != key(last)
    ensures KeptValues(init + [last], key) == KeptValues(init, key) + [last]
  {
    var ds := init + [last];
    assert ds[..|ds| - 1] == init;
    var k := key(last);
    KeyOrderDomain(init, key);
    KeyOrderAbsent(init, k, key);
    var order, kept := KeyOrder(init, key), KeptByKey(init, key);
    assert KeyOrder(ds, key) == order + [k];
    assert KeptByKey(ds, key) == kept[k := last];
    ValuesOfAppend(order, kept, k, last);
  }

  /** A list with distinct keys is its own list of kept values. */
  lemma {:induction false} DistinctKeysValues(ds: seq<Doctor>, key: Doctor -> string)
    requires DistinctKeys(ds, key)
    ensures KeptValues(ds, key) == ds
    decreases |ds|
  {
    if ds != [] {
      var init, last := ds[..|ds| - 1], ds[|ds| - 1];
      assert DistinctKeys(init, key);
      DistinctKeysValues(init, key);
      forall i | 0 <= i < |init| ensures key(init[i]) != key(last) {
        assert key(ds[i]) != key(ds[|ds| - 1]);
      }
      KeptValuesSnoc(init, last, key);
      assert ds == init + [last];
    }
  }

  /** Unifying the unified list changes nothing. */
  lemma UnifiedDoctorsIdempotent(ds: seq<Doctor>)
    ensures UnifiedDoctors(UnifiedDoctors(ds)) == UnifiedDoctors(ds)
  {
    var r := UnifiedDoctors(ds);
    UnifiedDoctorsSpec(ds);
    DistinctKeysValues(r, DoctorKey);
    SortBySortedIdentity(r, DoctorName, Ascending);
  }

  /** A record that only adds an address displaces one that only has a CRM:
      the kept record is the later one, and the CRM is no longer shown. */
  lemma AddressOnlyDisplacesCrmOnly(a: Doctor, b: Doctor)
    requires DoctorKey(a) == DoctorKey(b)
    requires Truthy(a.crm) && !Truthy(a.address)
    requires !Truthy(b.crm) && Truthy(b.address)
    ensures UnifiedDoctors([a, b]) == [b]
  {
    var ds := [a, b];
    assert ds[..1] == [a] && ds[..1][..0] == [];
    assert KeptByKey([a], DoctorKey) == map[DoctorKey(a) := a];
    assert KeptByKey(ds, DoctorKey) == map[DoctorKey(a) := b];
    assert KeyOrder([a], DoctorKey) == [DoctorKey(a)];
    assert KeyOrder(ds, DoctorKey) == [DoctorKey(a)];
    assert ValuesOf([DoctorKey(a)], map[DoctorKey(a) := b]) == [b];
    assert KeptValues(ds, DoctorKey) == [b];
    SortBySortedIdentity([b], DoctorName, Ascending);
  }

  /** A record with both a CRM and an address, once kept, stays kept. */
  lemma {:induction false} CompleteRecordStays(ds: seq<Doctor>, more: seq<Doctor>, k: string, key: Doctor -> string)
    requires k in KeptByKey(ds, key)
    requires Truthy(KeptByKey(ds, key)[k].crm) && Truthy(KeptByKey(ds, key)[k].address)
    ensures k in KeptByKey(ds + more, key) && KeptByKey(ds + more, key)[k] == KeptByKey(ds, key)[k]
    decreases |more|
  {
    if more != [] {
      var init := more[..|more| - 1];
      CompleteRecordStays(ds, init, k, key);
      assert (ds + more)[..|ds + more| - 1] == ds + init;
    } else {
      assert ds + more == ds;
    }
  }

  /** `unifiedDoctors` as the component computes it: one pass filling the
      map (and remembering its insertion order), then the sort. */
  method UnifyDoctors(ds: seq<Doctor>) returns (r: seq<Doctor>)
    ensures r == UnifiedDoctors(ds)
  {
    var kept: map<string, Doctor> := map[];
    var order: seq<string> := [];
    var i := 0;
    while i < |ds|
      invariant 0 <= i <= |ds|
      invariant kept == KeptByKey(ds[..i], DoctorKey)
      invariant order == KeyOrder(ds[..i], DoctorKey)
    {
      var doc := ds[i];
      var normalized := Upper(Trim(doc.name));
      assert ds[..i + 1][..i] == ds[..i];
      KeyOrderDomain(ds[..i], DoctorKey);
      if normalized !in kept || Displaces(doc, kept[normalized]) {
        if normalized !in kept {
          order := order + [normalized];
        }
        kept := kept[normalized := doc];
      }
      i := i + 1;
    }
    assert ds[..i] == ds;
    KeyOrderDomain(ds, DoctorKey);
    r := SortBy(ValuesOf(order, kept), DoctorName, Ascending);
  }

  // ---------------------------------------------------------------------------
  // Save, update and delete
  // ---------------------------------------------------------------------------

  /** The add form: a `Partial<Doctor>`. */
  datatype DoctorDraft = DoctorDraft(
    name: Option<string>,
    specialty: Option<string>,
    crm: Option<string>,
    phone: Option<string>,
    address: Option<string>)

  /** The normalisation both handlers apply: name, specialty, CRM and address
      upper-cased and trimmed, a missing CRM or address becoming "". */
  function Normalised(d: Doctor): Doctor {
    d.(name := NameKey(d.name),
       specialty := NameKey(d.specialty),
       crm := Some(NameKey(OrElse(d.crm, ""))),
       address := Some(NameKey(OrElse(d.address, ""))))
  }

  /** The record `handleSave` appends. */
  function NewDoctor(draft: DoctorDraft, id: string): Doctor
    requires Truthy(draft.name) && Truthy(draft.specialty)
  {
    Normalised(Doctor(id, draft.name.value, draft.specialty.value, draft.crm, draft.phone, draft.address))
  }

  /** Normalising twice is normalising once; the new record is normalised. */
  lemma NormalisedIdempotent(d: Doctor)
    ensures Normalised(Normalised(d)) == Normalised(d)
  {
    NameKeyIdempotent(d.name);
    NameKeyIdempotent(d.specialty);
    NameKeyIdempotent(OrElse(d.crm, ""));
    NameKeyIdempotent(OrElse(d.address, ""));
    var n := Normalised(d);
    assert Truthy(n.crm) ==> OrElse(n.crm, "") == NameKey(OrElse(d.crm, ""));
    assert !Truthy(n.crm) ==> NameKey(OrElse(d.crm, "")) == "";
    assert Truthy(n.address) ==> OrElse(n.address, "") == NameKey(OrElse(d.address, ""));
    assert !Truthy(n.address) ==> NameKey(OrElse(d.address, "")) == "";
  }

  /** The saved record keeps the form's phone and takes the given id. */
  lemma NewDoctorSpec(draft: DoctorDraft, id: string)
    requires Truthy(draft.name) && Truthy(draft.specialty)
    ensures var d := NewDoctor(draft, id);
            && d.id == id && d.phone == draft.phone
            && d.name == NameKey(draft.name.value) && d.specialty == NameKey(draft.specialty.value)
            && Normalised(d) == d
  {
    NormalisedIdempotent(Doctor(id, draft.name.value, draft.specialty.value, draft.crm, draft.phone, draft.address));
  }

  function DoctorId(d: Doctor): string { d.id }

  /** `handleSave`: with a name and a specialty, one normalised record is
      appended; otherwise nothing changes. */
  method Save(app: AppState, draft: DoctorDraft, id: string)
    modifies app`doctors, app`store
    ensures Truthy(draft.name) && Truthy(draft.specialty) ==>
              app.doctors == old(app.doctors) + [NewDoctor(draft, id)]
    ensures Truthy(draft.name) && Truthy(draft.specialty) ==>
              app.store == old(app.store)[DoctorsKey := DoctorList(app.doctors)]
    ensures !(Truthy(draft.name) && Truthy(draft.specialty)) ==>
              app.doctors == old(app.doctors) && app.store == old(app.store)
    ensures old(app.Synced()) ==> app.Synced()
  {
    if Truthy(draft.name) && Truthy(draft.specialty) {
      app.SetDoctors(app.doctors + [NewDoctor(draft, id)]);
    }
  }

  /** `handleUpdate`: the records carrying the viewed doctor's id become its
      normalised edit; the rest stay as they are. */
  method Update(app: AppState, viewing: Option<Doctor>)
    modifies app`doctors, app`store
    ensures viewing.Some? ==>
              app.doctors == ReplaceId(old(app.doctors), viewing.value.id, DoctorId, _ => Normalised(viewing.value))
    ensures viewing.Some? ==> app.store == old(app.store)[DoctorsKey := DoctorList(app.doctors)]
    ensures viewing.None? ==> app.doctors == old(app.doctors) && app.store == old(app.store)
    ensures old(app.Synced()) ==> app.Synced()
  {
    if viewing.Some? {
      var updated := Normalised(viewing.value);
      app.SetDoctors(ReplaceId(app.doctors, viewing.value.id, DoctorId, _ => updated));
    }
  }

  /** `handleDelete`, once confirmed. */
  method Delete(app: AppState, id: string)
    modifies app`doctors, app`store
    ensures app.doctors == RemoveId(old(app.doctors), id, DoctorId)
    ensures app.store == old(app.store)[DoctorsKey := DoctorList(app.doctors)]
    ensures old(app.Synced()) ==> app.Synced()
  {
    app.SetDoctors(RemoveId(app.doctors, id, DoctorId));
  }
}
