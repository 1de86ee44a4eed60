/** The browser's `localStorage`, as an object holding a dictionary of stored strings. */
module Storage {
  import opened Wrappers
  import opened Json

  /** A stored string as `JSON.parse` sees it: the text of a JSON value, the empty string,
      or text that makes `JSON.parse` throw. */
  datatype StoredText = Encoded(value: Json) | EmptyText | Unparseable

  class LocalStorage {
    var items: map<string, StoredText>

    constructor ()
      ensures items == map[]
    {
      items := map[];
    }

    /** `getItem(key)`: None for a key that holds nothing (`null`). */
    function GetItem(key: string): Option<StoredText>
      reads this
    {
      if key in items then Some(items[key]) else None
    }

    /** `setItem(key, value)`: replaces the entry under `key` and no other. */
    method SetItem(key: string, value: StoredText)
      modifies this
      ensures items == old(items)[key := value]
    {
      items := items[key := value];
    }
  }
}
