/**
 * The laboratory registry screen (components/Laboratories.tsx): the unified
 * list, which keeps the first record of each name compared without case and
 * surrounding spaces, and the save, update and delete handlers.
 *
 * The component filters the list with a set of the names seen so far. The
 * model states that pass as a function of the prefix scanned, written over
 * any key function and used with the laboratory key.
 */
module Laboratories {
  import opened Wrappers
  import opened Types
  import opened Text
  import opened Collections
  import opened App

  // ---------------------------------------------------------------------------
  // The unified list
  // ---------------------------------------------------------------------------

  /** The key a laboratory is unified under: the name lower-cased, then trimmed. */
  function LabKey(l: Laboratory): string {
    Trim(Lower(l.name))
  }

  /** The keys of the records scanned so far: the component's `seen` set. */
  function SeenKeys(ls: seq<Laboratory>, key: Laboratory -> string): set<string>
    decreases |ls|
  {
    if ls == [] then {} else SeenKeys(ls[..|ls| - 1], key) + {key(ls[|ls| - 1])}
  }

  /** The records the filter keeps: those whose key was not seen before them. */
  function FirstPerKey(ls: seq<Laboratory>, key: Laboratory -> string): seq<Laboratory>
    decreases |ls|
  {
    if ls == [] then []
    else
      var init := ls[..|ls| - 1];
      FirstPerKey(init, key) + if key(ls[|ls| - 1]) in SeenKeys(init, key) then [] else [ls[|ls| - 1]]
  }

  /** `unifiedLaboratories`. */
  function UnifiedLaboratories(ls: seq<Laboratory>): seq<Laboratory> {
    FirstPerKey(ls, LabKey)
  }

  /** The seen set holds exactly the keys of the scanned records. */
  lemma {:induction false} SeenKeysSpec(ls: seq<Laboratory>, key: Laboratory -> string)
    ensures forall k :: k in SeenKeys(ls, key) <==> exists i :: 0 <= i < |ls| && key(ls[i]) == k
    decreases |ls|
  {
    if ls != [] {
      var init := ls[..|ls| - 1];
      SeenKeysSpec(init, key);
      forall k | k in SeenKeys(ls, key) ensures exists i :: 0 <= i < |ls| && key(ls[i]) == k {
        if k in SeenKeys(init, key) {
          var i :| 0 <= i < |init| && key(init[i]) == k;
          assert key(ls[i]) == k;
        } else {
          assert key(ls[|ls| - 1]) == k;
        }
      }
      forall k | exists i :: 0 <= i < |ls| && key(ls[i]) == k ensures k in SeenKeys(ls, key) {
        var i :| 0 <= i < |ls| && key(ls[i]) == k;
        if i < |init| { assert key(init[i]) == k; }
      }
    }
  }

  /** Position `i` of `ls` holds the first record with its key. */
  predicate FirstOccurrence(ls: seq<Laboratory>, key: Laboratory -> string, i: int)
    requires 0 <= i < |ls|
  {
    forall j :: 0 <= j < i ==> key(ls[j]) != key(ls[i])
  }

  /** Appending a record changes no earlier position's first-occurrence status. */
  lemma FirstOccurrenceSnoc(init: seq<Laboratory>, last: Laboratory, key: Laboratory -> string, i: int)
    requires 0 <= i < |init|
    ensures FirstOccurrence(init + [last], key, i) <==> FirstOccurrence(init, key, i)
  {
    var ls := init + [last];
    assert forall j :: 0 <= j <= i ==> ls[j] == init[j];
  }

  /** An embedding into `s` is one into `s + [x]`. */
  lemma EmbedsSnoc(idx: seq<int>, r: seq<Laboratory>, s: seq<Laboratory>, x: Laboratory)
    requires Embeds(idx, r, s)
    ensures Embeds(idx, r, s + [x])
    ensures Embeds(idx + [|s|], r + [x], s + [x])
  {
  }

  /** The kept records are the first occurrences, in their order: `idx`
      picks them out of the input, each picked position is a first
      occurrence, and every first occurrence is picked. */
  lemma {:induction false} FirstPerKeyPositions(ls: seq<Laboratory>, key: Laboratory -> string)
    returns (idx: seq<int>)
    ensures Embeds(idx, FirstPerKey(ls, key), ls)
    ensures forall k :: 0 <= k < |idx| ==> FirstOccurrence(ls, key, idx[k])
    ensures forall i :: 0 <= i < |ls| && FirstOccurrence(ls, key, i) ==> i in idx
    decreases |ls|
  {
    if ls == [] {
      idx := [];
    } else {
      var init, last := ls[..|ls| - 1], ls[|ls| - 1];
      assert ls == init + [last];
      var prev := FirstPerKeyPositions(init, key);
      SeenKeysSpec(init, key);
      forall i | 0 <= i < |init| ensures FirstOccurrence(ls, key, i) <==> FirstOccurrence(init, key, i) {
        FirstOccurrenceSnoc(init, last, key, i);
      }
      EmbedsSnoc(prev, FirstPerKey(init, key), init, last);
      if key(last) in SeenKeys(init, key) {
        idx := prev;
        assert !FirstOccurrence(ls, key, |init|) by {
          var j :| 0 <= j < |init| && key(init[j]) == key(last);
          assert key(ls[j]) == key(ls[|init|]);
        }
      } else {
        idx := prev + [|init|];
        assert FirstOccurrence(ls, key, |init|) by {
          forall j | 0 <= j < |init| ensures key(ls[j]) != key(last) {
            assert key(init[j]) != key(last);
          }
        }
      }
    }
  }

  /** The unified list is the input with the later duplicates left out. */
  lemma UnifiedIsSubsequence(ls: seq<Laboratory>)
    ensures Subsequence(UnifiedLaboratories(ls), ls)
  {
    var idx := FirstPerKeyPositions(ls, LabKey);
  }

  /** No two kept records share a key. */
  predicate DistinctKeys(ls: seq<Laboratory>, key: Laboratory -> string) {
    forall i, j :: 0 <= i < j < |ls| ==> key(ls[i]) != key(ls[j])
  }

  /** Every kept record is a record of the input. */
  lemma {:induction false} FirstPerKeyInInput(ls: seq<Laboratory>, key: Laboratory -> string)
    ensures forall x :: x in FirstPerKey(ls, key) ==> x in ls
    decreases |ls|
  {
    if ls != [] {
      var init := ls[..|ls| - 1];
      FirstPerKeyInInput(init, key);
      assert ls == init + [ls[|ls| - 1]];
    }
  }

  /** A record whose key no listed record has keeps the keys distinct. */
  lemma DistinctKeysSnoc(r: seq<Laboratory>, x: Laboratory, key: Laboratory -> string)
    requires DistinctKeys(r, key)
    requires forall y :: y in r ==> key(y) != key(x)
    ensures DistinctKeys(r + [x], key)
  {
    var s := r + [x];
    forall i, j | 0 <= i < j < |s| ensures key(s[i]) != key(s[j]) {
      if j == |r| {
        assert s[i] in r;
      }
    }
  }

  /** No key has two kept records. */
  lemma {:induction false} FirstPerKeyDistinct(ls: seq<Laboratory>, key: Laboratory -> string)
    ensures DistinctKeys(FirstPerKey(ls, key), key)
    decreases |ls|
  {
    if ls != [] {
      var init, last := ls[..|ls| - 1], ls[|ls| - 1];
      FirstPerKeyDistinct(init, key);
      var r0 := FirstPerKey(init, key);
      if key(last) !in SeenKeys(init, key) {
        assert FirstPerKey(ls, key) == r0 + [last];
        SeenKeysSpec(init, key);
        FirstPerKeyInInput(init, key);
        forall y | y in r0 ensures key(y) != key(last) {
          var p :| 0 <= p < |init| && init[p] == y;
        }
        DistinctKeysSnoc(r0, last, key);
      } else {
        assert FirstPerKey(ls, key) == r0;
      }
    }
  }

  /** Every key of the input has a kept record. */
  lemma {:induction false} FirstPerKeyCovers(ls: seq<Laboratory>, key: Laboratory -> string)
    ensures forall i :: 0 <= i < |ls| ==> exists x :: x in FirstPerKey(ls, key) && key(x) == key(ls[i])
    decreases |ls|
  {
    if ls != [] {
      var init, last := ls[..|ls| - 1], ls[|ls| - 1];
      FirstPerKeyCovers(init, key);
      var r0 := FirstPerKey(init, key);
      var r := FirstPerKey(ls, key);
      assert r0 <= r;
      var w: Laboratory;
      if key(last) !in SeenKeys(init, key) {
        assert r == r0 + [last];
        w := last;
      } else {
        SeenKeysSpec(init, key);
        var j :| 0 <= j < |init| && key(init[j]) == key(last);
        w :| w in r0 && key(w) == key(init[j]);
      }
      assert w in r && key(w) == key(last);
      forall i | 0 <= i < |ls| ensures exists x :: x in r && key(x) == key(ls[i]) {
        if i < |init| {
          var x :| x in r0 && key(x) == key(init[i]);
          assert x in r;
        } else {
          assert key(w) == key(ls[i]);
        }
      }
    }
  }

  /** Every key of the input has a kept record, and no key has two. */
  lemma FirstPerKeyKeys(ls: seq<Laboratory>, key: Laboratory -> string)
    ensures DistinctKeys(FirstPerKey(ls, key), key)
    ensures forall i :: 0 <= i < |ls| ==> exists x :: x in FirstPerKey(ls, key) && key(x) == key(ls[i])
  {
    FirstPerKeyDistinct(ls, key);
    FirstPerKeyCovers(ls, key);
  }

  /** A list whose keys are distinct is kept whole. */
  lemma {:induction false} DistinctKeysKept(ls: seq<Laboratory>, key: Laboratory -> string)
    requires DistinctKeys(ls, key)
    ensures FirstPerKey(ls, key) == ls
    decreases |ls|
  {
    if ls != [] {
      var init := ls[..|ls| - 1];
      DistinctKeysInit(ls, key);
      DistinctKeysKept(init, key);
      InitLast(ls);
    }
  }

  /** Without its last record a list with distinct keys still has distinct
      keys, none of them the last record's. */
  lemma DistinctKeysInit(ls: seq<Laboratory>, key: Laboratory -> string)
    requires ls != [] && DistinctKeys(ls, key)
    ensures DistinctKeys(ls[..|ls| - 1], key)
    ensures key(ls[|ls| - 1]) !in SeenKeys(ls[..|ls| - 1], key)
  {
    var init := ls[..|ls| - 1];
    SeenKeysSpec(init, key);
    forall j | 0 <= j < |init| ensures key(init[j]) != key(ls[|ls| - 1]) {
      assert init[j] == ls[j];
    }
  }

  /** The unified list keeps, for every name, its first record and only
      that one, in the input's order; unifying it again changes nothing. */
  lemma UnifiedLaboratoriesSpec(ls: seq<Laboratory>)
    ensures DistinctKeys(UnifiedLaboratories(ls), LabKey)
    ensures forall i :: 0 <= i < |ls| && FirstOccurrence(ls, LabKey, i) ==> ls[i] in UnifiedLaboratories(ls)
    ensures forall i :: 0 <= i < |ls| ==> exists x :: x in UnifiedLaboratories(ls) && LabKey(x) == LabKey(ls[i])
    ensures UnifiedLaboratories(UnifiedLaboratories(ls)) == UnifiedLaboratories(ls)
  {
    var idx := FirstPerKeyPositions(ls, LabKey);
    FirstPerKeyKeys(ls, LabKey);
    var r := UnifiedLaboratories(ls);
    forall i | 0 <= i < |ls| && FirstOccurrence(ls, LabKey, i) ensures ls[i] in r {
      var k :| 0 <= k < |idx| && idx[k] == i;
      assert r[k] == ls[i];
    }
    DistinctKeysKept(r, LabKey);
  }

  /** `unifiedLaboratories` as the component computes it: a filter that
      consults and extends the set of names seen so far. */
  method UnifyLaboratories(ls: seq<Laboratory>) returns (r: seq<Laboratory>)
    ensures r == UnifiedLaboratories(ls)
  {
    var seen: set<string> := {};
    r := [];
    var i := 0;
    while i < |ls|
      invariant 0 <= i <= |ls|
      invariant seen == SeenKeys(ls[..i], LabKey)
      invariant r == FirstPerKey(ls[..i], LabKey)
    {
      var lab := ls[i];
      var normalized := Trim(Lower(lab.name));
      assert ls[..i + 1][..i] == ls[..i];
      if normalized !in seen {
        seen := seen + {normalized};
        r := r + [lab];
      }
      i := i + 1;
    }
    assert ls[..i] == ls;
  }

  // ---------------------------------------------------------------------------
  // Save, update and delete
  // ---------------------------------------------------------------------------

  /** The add form: a `Partial<Laboratory>`. */
  datatype LabDraft = LabDraft(name: Option<string>, address: Option<string>, phone: Option<string>)

  /** The normalisation both handlers apply: name and address upper-cased
      (not trimmed), a missing address becoming "". */
  function Normalised(l: Laboratory): Laboratory {
    l.(name := Upper(l.name), address := Some(Upper(OrElse(l.address, ""))))
  }

  /** The record `handleSave` appends. */
  function NewLaboratory(draft: LabDraft, id: string): Laboratory
    requires Truthy(draft.name)
  {
    Normalised(Laboratory(id, draft.name.value, draft.address, draft.phone))
  }

  /** Normalising is idempotent, and it keeps the key the list is unified
      under, so a saved or edited laboratory stays with its namesakes. */
  lemma NormalisedSpec(l: Laboratory)
    ensures Normalised(Normalised(l)) == Normalised(l)
    ensures LabKey(Normalised(l)) == LabKey(l)
  {
    UpperIdempotent(l.name);
    LowerOfUpper(l.name);
    var a := Upper(OrElse(l.address, ""));
    UpperIdempotent(OrElse(l.address, ""));
    assert Truthy(Some(a)) ==> OrElse(Some(a), "") == a;
    assert !Truthy(Some(a)) ==> a == "";
  }

  /** The saved record takes the given id, keeps the phone, and is normalised. */
  lemma NewLaboratorySpec(draft: LabDraft, id: string)
    requires Truthy(draft.name)
    ensures var l := NewLaboratory(draft, id);
            && l.id == id && l.phone == draft.phone && l.name == Upper(draft.name.value)
            && Normalised(l) == l
  {
    NormalisedSpec(Laboratory(id, draft.name.value, draft.address, draft.phone));
  }

  function LabId(l: Laboratory): string { l.id }

  /** `handleSave`: with a name, one normalised record is appended;
      otherwise nothing changes. */
  method Save(app: AppState, draft: LabDraft, id: string)
    modifies app`laboratories, app`store
    ensures Truthy(draft.name) ==> app.laboratories == old(app.laboratories) + [NewLaboratory(draft, id)]
    ensures Truthy(draft.name) ==> app.store == old(app.store)[LaboratoriesKey := LaboratoryList(app.laboratories)]
    ensures !Truthy(draft.name) ==> app.laboratories == old(app.laboratories) && app.store == old(app.store)
    ensures old(app.Synced()) ==> app.Synced()
  {
    if Truthy(draft.name) {
      app.SetLaboratories(app.laboratories + [NewLaboratory(draft, id)]);
    }
  }

  /** `handleUpdate`: the records carrying the viewed laboratory's id become
      its normalised edit; the rest stay as they are. */
  method Update(app: AppState, viewing: Option<Laboratory>)
    modifies app`laboratories, app`store
    ensures viewing.Some? ==>
              app.laboratories == ReplaceId(old(app.laboratories), viewing.value.id, LabId, _ => Normalised(viewing.value))
    ensures viewing.Some? ==> app.store == old(app.store)[LaboratoriesKey := LaboratoryList(app.laboratories)]
    ensures viewing.None? ==> app.laboratories == old(app.laboratories) && app.store == old(app.store)
    ensures old(app.Synced()) ==> app.Synced()
  {
    if viewing.Some? {
      var updated := Normalised(viewing.value);
      app.SetLaboratories(ReplaceId(app.laboratories, viewing.value.id, LabId, _ => updated));
    }
  }

  /** `handleDelete`, once confirmed. */
  method Delete(app: AppState, id: string)
    modifies app`laboratories, app`store
    ensures app.laboratories == RemoveId(old(app.laboratories), id, LabId)
    ensures app.store == old(app.store)[LaboratoriesKey := LaboratoryList(app.laboratories)]
    ensures old(app.Synced()) ==> app.Synced()
  {
    app.SetLaboratories(RemoveId(app.laboratories, id, LabId));
  }
}
