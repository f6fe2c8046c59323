/**
 * The reactive binding of one storage key (`useLocalStorage` in
 * hooks/localStorage.ts): the in-memory `value`, the last `error` and the
 * `loading` flag, kept in step with the store by a load step and two setters.
 */
module StorageBinding {
  import opened Wrappers
  import opened LocalStorage

  class Binding {
    const store: Store
    const key: string
    const codec: Codec
    var value: Option<Json>
    var error: Option<string>
    var loading: bool

    /** The hook's first render: nothing loaded yet. */
    constructor (store: Store, key: string, codec: Codec)
      ensures this.store == store && this.key == key && this.codec == codec
      ensures value == None && error == None && loading
    {
      this.store := store;
      this.key := key;
      this.codec := codec;
      value := None;
      error := None;
      loading := true;
    }

    /** The load effect. It ends with `loading` false on every path. Unreachable storage
        records the error and keeps the value (the initial value is not used); a stored
        item is read back (raw text when it does not parse); an absent key takes the
        initial value when one is given. */
    method Load(initialValue: Option<Json>)
      modifies this, store
      ensures !loading
      ensures store.available == old(store.available)
      ensures store.items == Probed(old(store.items), old(store.available))
      ensures !old(store.available) ==> value == old(value) && error == Some(NotAvailable)
      ensures old(store.available) && key in store.items ==>
        value == Some(ReadItem(codec, store.items[key])) && error == old(error)
      ensures old(store.available) && key !in store.items ==>
        value == (if initialValue.Some? then initialValue else old(value)) && error == old(error)
    {
      var ok := store.Probe();
      if !ok {
        error := Some(NotAvailable);
        loading := false;
        return;
      }
      var item := store.GetItem(key);
      if item.Some? {
        value := Some(ReadItem(codec, item.value));
      } else if initialValue.Some? {
        value := initialValue;
      }
      loading := false;
    }

    /** `setStoredValue`. On failure the value stays and the error is recorded; on success
        only this key is written, the value becomes the new one and the error is cleared. */
    method SetStoredValue(newValue: Json) returns (r: StorageResult<Json>)
      modifies this, store
      ensures loading == old(loading) && store.available == old(store.available)
      ensures Step(store.items, r) == SetOp(codec, old(store.items), old(store.available), key, newValue)
      ensures r.success == old(store.available)
      ensures !r.success ==> value == old(value) && error == Some(NotAvailable) && r.error == error
      ensures r.success ==> value == Some(newValue) && error == None && r.data == Some(newValue)
    {
      var ok := store.Probe();
      if !ok {
        r := Failed(NotAvailable);
        error := r.error;
        return;
      }
      store.SetItem(key, Serialize(codec, newValue));
      value := Some(newValue);
      error := None;
      r := Succeeded(newValue);
    }

    /** `removeStoredValue`: on success the key is gone and both value and error are null. */
    method RemoveStoredValue() returns (r: StorageResult<bool>)
      modifies this, store
      ensures loading == old(loading) && store.available == old(store.available)
      ensures Step(store.items, r) == RemoveOp(old(store.items), old(store.available), key)
      ensures r.success == old(store.available)
      ensures !r.success ==> value == old(value) && error == Some(NotAvailable)
      ensures r.success ==> value == None && error == None && key !in store.items
    {
      var ok := store.Probe();
      if !ok {
        r := Failed(NotAvailable);
        error := r.error;
        return;
      }
      store.RemoveItem(key);
      value := None;
      error := None;
      r := Succeeded(true);
    }
  }

  /** Write-through: after a successful write, reading the key from storage yields the
      in-memory value, except for a string that is itself JSON text (read back parsed). */
  lemma WriteThrough(codec: Codec, items: map<string, string>, key: string, v: Json)
    requires RoundTrips(codec) && key != ProbeKey
    requires !v.JStr? || codec.decode(v.s) == None
    ensures GetOp(codec, SetOp(codec, items, true, key, v).items, true, key).result == Succeeded(v)
  {
    SetThenGet(codec, items, key, v);
  }

  /** The page's use of the binding: create it, then run the load effect. */
  method Mount(store: Store, key: string, codec: Codec, initialValue: Option<Json>) returns (b: Binding)
    modifies store
    ensures b.store == store && b.key == key && !b.loading
    ensures !old(store.available) ==> b.value == None && b.error == Some(NotAvailable)
    ensures old(store.available) && key !in Probed(old(store.items), true) ==> b.value == initialValue && b.error == None
  {
    b := new Binding(store, key, codec);
    b.Load(initialValue);
  }
}
