/**
 * The browser's `localStorage`, as the application uses it: a map from keys
 * to stored values. Values are kept in their decoded form, so that writing
 * with `JSON.stringify` and reading back with `JSON.parse` is the identity.
 */
module Storage {
  import opened Wrappers
  import opened GitHub

  /**
   * What the application stores: the cached `{user, repos}` object, an
   * expiry time written as a decimal string of milliseconds (read back with
   * `Number.parseInt`), and the bookmark list.
   */
  datatype Stored =
    | ProfileJson(user: User, repos: seq<Repo>)
    | MillisText(ms: int)
    | BookmarksJson(bookmarks: seq<BookmarkedUser>)

  class LocalStorage {
    var items: map<string, Stored>

    /** A storage area holding whatever earlier sessions left in it. */
    constructor (initial: map<string, Stored>)
      ensures items == initial
    {
      items := initial;
    }

    /** `localStorage.getItem(key)`: the stored value, or null. */
    method GetItem(key: string) returns (v: Option<Stored>)
      ensures key in items ==> v == Some(items[key])
      ensures key !in items ==> v == None
    {
      if key in items {
        v := Some(items[key]);
      } else {
        v := None;
      }
    }

    /** `localStorage.setItem(key, value)`: overwrites unconditionally. */
    method SetItem(key: string, value: Stored)
      modifies this
      ensures items == old(items)[key := value]
    {
      items := items[key := value];
    }
  }
}
