/**
 * The IndexedDB wrapper (services/storageService.ts): a database of named
 * object stores, each holding at most one value, under the key
 * 'current_data'. Opening the database for the first time creates the six
 * stores; saving and loading open it, then write or read one store's slot.
 * The value type is a parameter, as the wrapper stores anything.
 */
module Storage {
  import opened Wrappers

  const DbName := "LifeTraceDB"
  const DbVersion := 1
  const StoreNames: seq<string> := ["exams", "imagingExams", "doctors", "laboratories", "appointments", "user"]
  /** The one key each store is written under. */
  const CurrentKey := "current_data"
  /** What a transaction on a store that does not exist fails with. */
  const NotFound := "NotFoundError"

  type Stores<T> = map<string, map<string, T>>

  /** The upgrade step for one name: the store is created, empty, only when
      it is absent. */
  function Created<T>(stores: Stores<T>, name: string): Stores<T> {
    if name in stores then stores else stores[name := map[]]
  }

  /** The upgrade handler over a list of names, in order. */
  function Upgraded<T>(stores: Stores<T>, names: seq<string>): Stores<T> {
    if names == [] then stores
    else Created(Upgraded(stores, names[..|names| - 1]), names[|names| - 1])
  }

  /** After the upgrade every listed name is a store, there is no other new
      store, an existing store keeps its contents and a new one is empty. */
  lemma {:induction false} UpgradedSpec<T>(stores: Stores<T>, names: seq<string>)
    ensures Upgraded(stores, names).Keys == stores.Keys + set n | n in names
    ensures forall s :: s in stores ==> Upgraded(stores, names)[s] == stores[s]
    ensures forall s :: s in Upgraded(stores, names) && s !in stores ==> Upgraded(stores, names)[s] == map[]
  {
    if names != [] {
      var init := names[..|names| - 1];
      UpgradedSpec(stores, init);
      assert names == init + [names[|names| - 1]];
      assert (set n | n in names) == (set n | n in init) + {names[|names| - 1]};
    }
  }

  /** Running the upgrade again creates nothing and changes nothing. */
  lemma UpgradeIdempotent<T>(stores: Stores<T>, names: seq<string>)
    ensures Upgraded(Upgraded(stores, names), names) == Upgraded(stores, names)
  {
    var once := Upgraded(stores, names);
    UpgradedSpec(stores, names);
    UpgradedSpec(once, names);
    var twice := Upgraded(once, names);
    assert twice.Keys == once.Keys;
    assert forall s :: s in twice ==> twice[s] == once[s];
  }

  /** `store.put(data, 'current_data')` on the named store. */
  function Put<T>(stores: Stores<T>, name: string, data: T): Stores<T>
    requires name in stores
  {
    stores[name := stores[name][CurrentKey := data]]
  }

  /** `store.get('current_data')` on the named store. */
  function Get<T>(stores: Stores<T>, name: string): Option<T>
    requires name in stores
  {
    if CurrentKey in stores[name] then Some(stores[name][CurrentKey]) else None
  }

  /** Each store holds nothing but its one slot. */
  predicate OneSlot<T>(stores: Stores<T>) {
    forall s :: s in stores ==> stores[s].Keys <= {CurrentKey}
  }

  /** A load after a save on the same store returns the saved value, a later
      save replaces an earlier one, every other store is left as it was, and
      each store still has one slot at most. */
  lemma PutSpec<T>(stores: Stores<T>, name: string, data: T, other: T)
    requires name in stores
    ensures Put(stores, name, data).Keys == stores.Keys
    ensures Get(Put(stores, name, data), name) == Some(data)
    ensures Put(Put(stores, name, other), name, data) == Put(stores, name, data)
    ensures forall s :: s in stores && s != name ==> Put(stores, name, data)[s] == stores[s]
    ensures OneSlot(stores) ==> OneSlot(Put(stores, name, data))
  {
    assert stores[name][CurrentKey := other][CurrentKey := data] == stores[name][CurrentKey := data];
  }

  /** A store that was never written loads as nothing. */
  lemma EmptyStoreLoadsNothing<T>(stores: Stores<T>, names: seq<string>, name: string)
    requires name in names && name !in stores
    ensures name in Upgraded(stores, names)
    ensures Get(Upgraded(stores, names), name) == None
  {
    UpgradedSpec(stores, names);
  }

  class Database<T> {
    /** Whether the database exists at `DbVersion`. */
    var created: bool
    var stores: Stores<T>

    /** Each store has one slot at most, and an open database has the six
        stores. */
    predicate Valid()
      reads this
    {
      && OneSlot(stores)
      && (created ==> forall n :: n in StoreNames ==> n in stores)
    }

    /** No database yet. */
    constructor()
      ensures Valid()
      ensures !created && stores == map[]
    {
      created := false;
      stores := map[];
    }

    /** `initDB`: the first open runs the upgrade handler over the six
        names; later opens change nothing. */
    method Open()
      requires Valid()
      modifies this
      ensures Valid() && created
      ensures stores == if old(created) then old(stores) else Upgraded(old(stores), StoreNames)
    {
      if !created {
        var i := 0;
        while i < |StoreNames|
          invariant 0 <= i <= |StoreNames|
          invariant stores == Upgraded(old(stores), StoreNames[..i])
        {
          var name := StoreNames[i];
          if name !in stores {
            stores := stores[name := map[]];
          }
          assert StoreNames[..i + 1][..i] == StoreNames[..i];
          i := i + 1;
        }
        assert StoreNames[..|StoreNames|] == StoreNames;
        UpgradedSpec(old(stores), StoreNames);
        created := true;
      }
    }

    /** `saveData`: after opening, the value replaces the named store's
        slot; a name that is not a store fails and writes nothing. */
    method SaveData(storeName: string, data: T) returns (r: Result<bool>)
      requires Valid()
      modifies this
      ensures Valid() && created
      ensures var ready := if old(created) then old(stores) else Upgraded(old(stores), StoreNames);
              if storeName in ready then r == Ok(true) && stores == Put(ready, storeName, data)
              else r == Err(NotFound) && stores == ready
    {
      Open();
      if storeName !in stores {
        return Err(NotFound);
      }
      PutSpec(stores, storeName, data, data);
      stores := Put(stores, storeName, data);
      r := Ok(true);
    }

    /** `loadData`: after opening, the named store's slot, or nothing when
        it was never written; a name that is not a store fails. */
    method LoadData(storeName: string) returns (r: Result<Option<T>>)
      requires Valid()
      modifies this
      ensures Valid() && created
      ensures stores == if old(created) then old(stores) else Upgraded(old(stores), StoreNames)
      ensures if storeName in stores then r == Ok(Get(stores, storeName)) else r == Err(NotFound)
    {
      Open();
      if storeName !in stores {
        return Err(NotFound);
      }
      r := Ok(Get(stores, storeName));
    }
  }

  /** The six stores exist once the database is open, and a save to one of
      them is what the next load of it returns. */
  method SaveThenLoad<T>(db: Database<T>, name: string, data: T) returns (loaded: Result<Option<T>>)
    requires name in StoreNames
    requires db.Valid()
    modifies db
    ensures db.Valid()
    ensures loaded == Ok(Some(data))
  {
    var saved := db.SaveData(name, data);
    loaded := db.LoadData(name);
  }
}
