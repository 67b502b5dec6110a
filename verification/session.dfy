/** The browser's `localStorage` as the frontend uses it: a map from key to
    text. Storing a value stores its text, so storing `undefined` stores the
    word "undefined". */
module Session {
  import opened Wrappers
  import opened Js

  type Storage = map<string, string>

  /** The key the signed-in user's token is kept under. */
  const TOKEN_KEY: string := "token"

  /** `localStorage.getItem(key)`: null when the key is absent. */
  function GetItem(storage: Storage, key: string): (r: Option<string>)
    ensures r.Some? <==> key in storage
    ensures r.Some? ==> r.value == storage[key]
  {
    if key in storage then Some(storage[key]) else None
  }

  /** `localStorage.setItem(key, value)` */
  function SetItem(storage: Storage, key: string, value: JsValue): (r: Storage)
    ensures r.Keys == storage.Keys + {key}
    ensures r[key] == ToText(value)
    ensures forall k :: k in storage && k != key ==> r[k] == storage[k]
  {
    storage[key := ToText(value)]
  }

  /** `localStorage.removeItem(key)` */
  function RemoveItem(storage: Storage, key: string): (r: Storage)
    ensures r.Keys == storage.Keys - {key}
    ensures forall k :: k in r ==> r[k] == storage[k]
  {
    storage - {key}
  }

  /** Reading a key back gives the text of what was stored under it, and
      other keys read as before; after removal the key reads as null. */
  lemma StoreThenRead(storage: Storage, key: string, other: string, value: JsValue)
    requires other != key
    ensures GetItem(SetItem(storage, key, value), key) == Some(ToText(value))
    ensures GetItem(SetItem(storage, key, value), other) == GetItem(storage, other)
    ensures GetItem(RemoveItem(storage, key), key) == None
    ensures GetItem(RemoveItem(storage, key), other) == GetItem(storage, other)
  {
  }
}
