/**
 * Browser local storage, as the script uses it: a string-to-string map that
 * is read with `getItem(key) || default`, so that an absent key and the empty
 * string are both "missing" (JavaScript truthiness).
 */
module Storage {
  import opened Wrappers

  type Items = map<string, string>

  /** `localStorage.getItem(key)`: the stored string, or `null`. */
  function GetItem(items: Items, key: string): (r: Option<string>)
    ensures r == None <==> key !in items
    ensures key in items ==> r == Some(items[key])
  {
    if key in items then Some(items[key]) else None
  }

  /** The stored value counts as present in a JavaScript condition. */
  predicate Truthy(items: Items, key: string) {
    key in items && items[key] != ""
  }

  /** `localStorage.getItem(key) || default`. */
  function OrDefault(items: Items, key: string, default: string): (r: string)
    ensures Truthy(items, key) ==> r == items[key]
    ensures !Truthy(items, key) ==> r == default
    ensures default != "" ==> r != ""
  {
    if Truthy(items, key) then items[key] else default
  }

  /** The key-value store behind `window.localStorage`, shared by every handler. */
  class LocalStorage {
    var items: Items

    constructor (initial: Items)
      ensures items == initial
    {
      items := initial;
    }

    /** `localStorage.getItem(key)`. */
    method Get(key: string) returns (v: Option<string>)
      ensures v.Some? <==> key in items
      ensures v.Some? ==> v.value == items[key]
    {
      v := if key in items then Some(items[key]) else None;
    }

    /** `localStorage.setItem(key, value)`: overwrites one key. */
    method Set(key: string, value: string)
      modifies this
      ensures items == old(items)[key := value]
    {
      items := items[key := value];
    }

    /** `localStorage.removeItem(key)`: drops one key; absent keys are fine. */
    method Remove(key: string)
      modifies this
      ensures items == old(items) - {key}
    {
      items := items - {key};
    }
  }
}
