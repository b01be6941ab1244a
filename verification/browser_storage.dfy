/** Browser storage as the pages read it: string keys to stored strings. */
module BrowserStorage {
  type Storage = map<string, string>

  /** The value a page keeps for a stored setting: the page starts from
      `fallback` and takes the stored string only when it is truthy, so a
      missing entry (null) and an empty one both leave the fallback. */
  function StoredOr(storage: Storage, key: string, fallback: string): (r: string)
    ensures key in storage && storage[key] != "" ==> r == storage[key]
    ensures key !in storage || storage[key] == "" ==> r == fallback
  {
    if key in storage && storage[key] != "" then storage[key] else fallback
  }
}
