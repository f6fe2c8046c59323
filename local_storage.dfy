/**
 * The key-value store adapter over browser storage (hooks/localStorage.ts,
 * `localStorageUtils`). Browser storage is a map from keys to text plus a flag
 * saying whether it can be reached. JSON text is produced and read by a codec
 * given as a value; results come back as `{success, data?, error?}` records.
 */
module LocalStorage {
  import opened Wrappers

  /** A value the adapter can store: `string | number | boolean | object | null`. */
  datatype Json =
    | JNull
    | JBool(b: bool)
    | JNum(n: int)
    | JStr(s: string)
    | JArr(items: seq<Json>)
    | JObj(fields: seq<(string, Json)>)

  /** `JSON.stringify` and `JSON.parse`; parsing may fail. */
  datatype Codec = Codec(encode: Json -> string, decode: string -> Option<Json>)

  /** Parsing what was serialised gives the value back. */
  ghost predicate RoundTrips(codec: Codec) {
    forall v :: codec.decode(codec.encode(v)) == Some(v)
  }

  /** The key the availability probe writes and then removes. */
  const ProbeKey: string := "__localStorage_test__"
  const NotAvailable: string := "localStorage is not available"
  const KeyNotFound: string := "Key not found"

  /** `StorageResult<T>`. */
  datatype StorageResult<T> = StorageResult(success: bool, data: Option<T>, error: Option<string>)

  function Succeeded<T>(data: T): StorageResult<T> {
    StorageResult(true, Some(data), None)
  }

  function Failed<T>(message: string): StorageResult<T> {
    StorageResult(false, None, Some(message))
  }

  /** The new contents of the store and what the operation returns. */
  datatype Step<T> = Step(items: map<string, string>, result: StorageResult<T>)

  /** The contents after the availability probe: when storage is reachable the probe's
      `setItem` and `removeItem` leave the probe key absent. */
  function Probed(items: map<string, string>, available: bool): (r: map<string, string>)
    ensures available ==> ProbeKey !in r
    ensures forall k :: k != ProbeKey ==> (k in r <==> k in items) && (k in r ==> r[k] == items[k])
    ensures !available ==> r == items
  {
    if available then items - {ProbeKey} else items
  }

  /** Text stored for a value: a string as is, anything else JSON-encoded. */
  function Serialize(codec: Codec, v: Json): string {
    if v.JStr? then v.s else codec.encode(v)
  }

  /** Stored text read back: its parse when it parses, the text itself otherwise. */
  function ReadItem(codec: Codec, item: string): Json {
    match codec.decode(item)
    case Some(v) => v
    case None => JStr(item)
  }

  /** `localStorageUtils.set`. */
  function SetOp(codec: Codec, items: map<string, string>, available: bool, key: string, value: Json): (r: Step<Json>)
    ensures r.result.success == available
    ensures available ==> r.result.data == Some(value) && key in r.items && r.items[key] == Serialize(codec, value)
    ensures available ==> forall k :: k != key && k != ProbeKey ==>
      (k in r.items <==> k in items) && (k in r.items ==> r.items[k] == items[k])
    ensures !available ==> r.items == items && r.result.error == Some(NotAvailable)
  {
    if !available then Step(items, Failed(NotAvailable))
    else Step(Probed(items, available)[key := Serialize(codec, value)], Succeeded(value))
  }

  /** `localStorageUtils.get`: a missing key is a failure; stored text that does not
      parse comes back as the raw string, never as a failure. */
  function GetOp(codec: Codec, items: map<string, string>, available: bool, key: string): (r: Step<Json>)
    ensures r.items == Probed(items, available)
    ensures r.result.success <==> available && key in items && key != ProbeKey
    ensures !available ==> r.result == Failed(NotAvailable)
    ensures available && key !in r.items ==> r.result == Failed(KeyNotFound)
    ensures r.result.success ==> r.result.data == Some(ReadItem(codec, items[key])) && r.result.error == None
  {
    var after := Probed(items, available);
    if !available then Step(after, Failed(NotAvailable))
    else if key !in after then Step(after, Failed(KeyNotFound))
    else Step(after, Succeeded(ReadItem(codec, after[key])))
  }

  /** `localStorageUtils.remove`: succeeds whether or not the key is there. */
  function RemoveOp(items: map<string, string>, available: bool, key: string): (r: Step<bool>)
    ensures r.result.success == available
    ensures available ==> key !in r.items && r.result.data == Some(true)
    ensures available ==> forall k :: k != key && k != ProbeKey ==>
      (k in r.items <==> k in items) && (k in r.items ==> r.items[k] == items[k])
    ensures !available ==> r.items == items && r.result.error == Some(NotAvailable)
  {
    if !available then Step(items, Failed(NotAvailable))
    else Step(Probed(items, available) - {key}, Succeeded(true))
  }

  /** `localStorageUtils.clear`. */
  function ClearOp(items: map<string, string>, available: bool): (r: Step<bool>)
    ensures r.result.success == available
    ensures available ==> r.items == map[]
    ensures !available ==> r.items == items && r.result.error == Some(NotAvailable)
  {
    if !available then Step(items, Failed(NotAvailable)) else Step(map[], Succeeded(true))
  }

  /** `localStorageUtils.exists`. */
  function ExistsOp(items: map<string, string>, available: bool, key: string): (r: bool)
    ensures r <==> available && key in items && key != ProbeKey
  {
    available && key in Probed(items, available)
  }

  /** `localStorageUtils.getKeys`, as a set (the order of `Object.keys` is not modelled). */
  function KeysOp(items: map<string, string>, available: bool): (r: set<string>)
    ensures !available ==> r == {}
    ensures forall k :: k in r <==> ExistsOp(items, available, k)
  {
    if available then Probed(items, available).Keys else {}
  }

  /** `localStorageUtils.size`. */
  function SizeOp(items: map<string, string>, available: bool): (r: nat)
    ensures !available ==> r == 0
    ensures r == |KeysOp(items, available)|
  {
    if available then |Probed(items, available)| else 0
  }

  /** Writing then reading a key: non-strings and strings that are not JSON text come back
      as written; a string that is JSON text comes back parsed. */
  lemma SetThenGet(codec: Codec, items: map<string, string>, key: string, v: Json)
    requires key != ProbeKey
    ensures var after := SetOp(codec, items, true, key, v).items;
      var got := GetOp(codec, after, true, key).result;
      got.success
      && (RoundTrips(codec) && !v.JStr? ==> got.data == Some(v))
      && (v.JStr? && codec.decode(v.s) == None ==> got.data == Some(v))
      && (v.JStr? && codec.decode(v.s).Some? ==> got.data == codec.decode(v.s))
  {
  }

  /** A string that happens to be JSON text, such as "42", is read back as the parsed value. */
  lemma JsonTextStringReadsBackParsed(codec: Codec, items: map<string, string>, key: string)
    requires key != ProbeKey && RoundTrips(codec) && codec.encode(JNum(42)) == "42"
    ensures var after := SetOp(codec, items, true, key, JStr("42")).items;
      GetOp(codec, after, true, key).result.data == Some(JNum(42))
  {
    assert codec.decode(codec.encode(JNum(42))) == Some(JNum(42));
  }

  /** The probe key is dropped again by the very next probe, so a value stored under it is never read back. */
  lemma ProbeKeyNeverReadsBack(codec: Codec, items: map<string, string>, v: Json)
    ensures var after := SetOp(codec, items, true, ProbeKey, v).items;
      GetOp(codec, after, true, ProbeKey).result == Failed(KeyNotFound)
  {
  }

  /** With storage unreachable every operation fails or reports nothing, and nothing changes. */
  lemma UnavailableChangesNothing(codec: Codec, items: map<string, string>, key: string, v: Json)
    ensures SetOp(codec, items, false, key, v) == Step(items, Failed(NotAvailable))
    ensures GetOp(codec, items, false, key) == Step(items, Failed(NotAvailable))
    ensures RemoveOp(items, false, key) == Step(items, Failed(NotAvailable))
    ensures ClearOp(items, false) == Step(items, Failed(NotAvailable))
    ensures !ExistsOp(items, false, key) && KeysOp(items, false) == {} && SizeOp(items, false) == 0
  {
  }

  /** Removing is idempotent, and a read after a removal finds nothing. */
  lemma RemoveIdempotent(codec: Codec, items: map<string, string>, key: string)
    ensures var once := RemoveOp(items, true, key);
      var twice := RemoveOp(once.items, true, key);
      twice.items == once.items && twice.result == once.result
      && GetOp(codec, once.items, true, key).result == Failed(KeyNotFound)
  {
  }

  /** The browser storage object. */
  class Store {
    var items: map<string, string>
    var available: bool

    constructor (items: map<string, string>, available: bool)
      ensures this.items == items && this.available == available
    {
      this.items := items;
      this.available := available;
    }

    /** `isLocalStorageAvailable`: write and remove the probe key. */
    method Probe() returns (ok: bool)
      modifies this
      ensures ok == available && available == old(available)
      ensures items == Probed(old(items), old(available))
    {
      ok := available;
      if ok {
        items := items[ProbeKey := ProbeKey];
        items := items - {ProbeKey};
      }
    }

    /** `localStorage.getItem`. */
    function GetItem(key: string): Option<string>
      reads this
    {
      if key in items then Some(items[key]) else None
    }

    method SetItem(key: string, text: string)
      modifies this
      ensures items == old(items)[key := text] && available == old(available)
    {
      items := items[key := text];
    }

    method RemoveItem(key: string)
      modifies this
      ensures items == old(items) - {key} && available == old(available)
    {
      items := items - {key};
    }

    method Set(codec: Codec, key: string, value: Json) returns (r: StorageResult<Json>)
      modifies this
      ensures available == old(available)
      ensures Step(items, r) == SetOp(codec, old(items), old(available), key, value)
    {
      var ok := Probe();
      if !ok {
        return Failed(NotAvailable);
      }
      SetItem(key, Serialize(codec, value));
      r := Succeeded(value);
    }

    method Get(codec: Codec, key: string) returns (r: StorageResult<Json>)
      modifies this
      ensures available == old(available)
      ensures Step(items, r) == GetOp(codec, old(items), old(available), key)
    {
      var ok := Probe();
      if !ok {
        return Failed(NotAvailable);
      }
      var item := GetItem(key);
      if item.None? {
        return Failed(KeyNotFound);
      }
      r := Succeeded(ReadItem(codec, item.value));
    }

    method Remove(key: string) returns (r: StorageResult<bool>)
      modifies this
      ensures available == old(available)
      ensures Step(items, r) == RemoveOp(old(items), old(available), key)
    {
      var ok := Probe();
      if !ok {
        return Failed(NotAvailable);
      }
      RemoveItem(key);
      r := Succeeded(true);
    }

    method Clear() returns (r: StorageResult<bool>)
      modifies this
      ensures available == old(available)
      ensures Step(items, r) == ClearOp(old(items), old(available))
    {
      var ok := Probe();
      if !ok {
        return Failed(NotAvailable);
      }
      items := map[];
      r := Succeeded(true);
    }

    method Exists(key: string) returns (r: bool)
      modifies this
      ensures available == old(available) && items == Probed(old(items), old(available))
      ensures r == ExistsOp(old(items), old(available), key)
    {
      var ok := Probe();
      if !ok {
        return false;
      }
      var item := GetItem(key);
      r := item.Some?;
    }

    method GetKeys() returns (r: set<string>)
      modifies this
      ensures available == old(available) && items == Probed(old(items), old(available))
      ensures r == KeysOp(old(items), old(available))
    {
      var ok := Probe();
      if !ok {
        return {};
      }
      r := items.Keys;
    }

    method Size() returns (r: nat)
      modifies this
      ensures available == old(available) && items == Probed(old(items), old(available))
      ensures r == SizeOp(old(items), old(available))
    {
      var ok := Probe();
      if !ok {
        return 0;
      }
      r := |items|;
    }
  }
}
