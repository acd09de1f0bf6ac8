/**
 * The bookmark list (components/user-bookmarks.tsx): at most ten users, the
 * most recently bookmarked first, kept in the component's state and mirrored
 * under one local-storage key on every change.
 */
module Bookmarks {
  import opened Wrappers
  import opened GitHub
  import opened Storage
  import Seqs

  const MaxBookmarks: nat := 10
  const BookmarksKey: string := "github-bookmarks"

  /** `bookmarks.some((b) => b.login === login)`. */
  predicate IsBookmarked(list: seq<BookmarkedUser>, login: string)
  {
    exists i :: 0 <= i < |list| && list[i].user.login == login
  }

  /** The list after bookmarking `b`: `[b, ...bookmarks].slice(0, 10)`. */
  function WithBookmark(list: seq<BookmarkedUser>, b: BookmarkedUser): (r: seq<BookmarkedUser>)
    ensures |r| == if |list| < MaxBookmarks then |list| + 1 else MaxBookmarks
    ensures r[0] == b
    ensures forall i :: 1 <= i < |r| ==> r[i] == list[i - 1]
  {
    Seqs.Take([b] + list, MaxBookmarks)
  }

  function KeepOthers(login: string): BookmarkedUser -> bool
  {
    (b: BookmarkedUser) => b.user.login != login
  }

  /** The list after removing a login: `bookmarks.filter((b) => b.login !== login)`. */
  function WithoutLogin(list: seq<BookmarkedUser>, login: string): (r: seq<BookmarkedUser>)
    ensures !IsBookmarked(r, login)
    ensures forall i :: 0 <= i < |list| && list[i].user.login != login ==> list[i] in r
    ensures forall i :: 0 <= i < |r| ==> r[i] in list
    ensures |r| <= |list|
  {
    Seqs.Filter(list, KeepOthers(login))
  }

  /** Bookmarking into a full list drops exactly the oldest entry and keeps the other nine in order. */
  lemma FullListDropsOldest(list: seq<BookmarkedUser>, b: BookmarkedUser)
    requires |list| == MaxBookmarks
    ensures WithBookmark(list, b) == [b] + list[..MaxBookmarks - 1]
  {
  }

  /** Removing keeps the relative order of what stays: it distributes over concatenation. */
  lemma RemovalKeepsOrder(a: seq<BookmarkedUser>, b: seq<BookmarkedUser>, login: string)
    ensures WithoutLogin(a + b, login) == WithoutLogin(a, login) + WithoutLogin(b, login)
  {
    Seqs.FilterAppend(a, b, KeepOthers(login));
  }

  /** Removing a login that is not bookmarked leaves the list as it was. */
  lemma RemovingAbsentLoginIsIdentity(list: seq<BookmarkedUser>, login: string)
    requires !IsBookmarked(list, login)
    ensures WithoutLogin(list, login) == list
  {
    Seqs.FilterAll(list, KeepOthers(login));
  }

  /**
   * Bookmarking a user who was not bookmarked and removing them again gives
   * back the list, except that a full list has lost its oldest entry.
   */
  lemma BookmarkThenRemove(list: seq<BookmarkedUser>, b: BookmarkedUser)
    requires !IsBookmarked(list, b.user.login)
    ensures WithoutLogin(WithBookmark(list, b), b.user.login) == Seqs.Take(list, MaxBookmarks - 1)
  {
    var kept := Seqs.Take(list, MaxBookmarks - 1);
    assert WithBookmark(list, b) == [b] + kept;
    assert !IsBookmarked(kept, b.user.login) by {
      forall i | 0 <= i < |kept|
        ensures kept[i].user.login != b.user.login
      {
        assert kept[i] == list[i];
      }
    }
    RemovalKeepsOrder([b], kept, b.user.login);
    RemovingAbsentLoginIsIdentity(kept, b.user.login);
    assert WithoutLogin([b], b.user.login) == [];
  }

  /**
   * `toggleBookmark`'s new list, decided by the `isBookmarked` state it
   * reads; `None` when there is no current user (nothing is saved).
   */
  function Toggled(list: seq<BookmarkedUser>, current: Option<User>, bookmarked: bool, now: string)
    : (r: Option<seq<BookmarkedUser>>)
    ensures current.None? <==> r.None?
    ensures current.Some? && bookmarked ==> !IsBookmarked(r.value, current.value.login) && |r.value| <= |list|
    ensures current.Some? && !bookmarked ==>
      1 <= |r.value| <= MaxBookmarks && r.value[0] == BookmarkedUser(current.value, now)
      && IsBookmarked(r.value, current.value.login)
    ensures current.Some? && bookmarked ==> r.value == WithoutLogin(list, current.value.login)
    ensures current.Some? && !bookmarked ==> r.value == WithBookmark(list, BookmarkedUser(current.value, now))
  {
    match current
    case None => None
    case Some(u) =>
      if bookmarked then Some(WithoutLogin(list, u.login))
      else Some(WithBookmark(list, BookmarkedUser(u, now)))
  }

  /** With `isBookmarked` in step with the list, toggling flips whether the current user is bookmarked. */
  lemma ToggleFlips(list: seq<BookmarkedUser>, u: User, now: string)
    ensures IsBookmarked(Toggled(list, Some(u), IsBookmarked(list, u.login), now).value, u.login)
      == !IsBookmarked(list, u.login)
  {
  }

  /** Neither change lets a list of at most ten grow past ten. */
  lemma ChangesKeepBound(list: seq<BookmarkedUser>, current: Option<User>, bookmarked: bool, now: string)
    requires |list| <= MaxBookmarks && current.Some?
    ensures |Toggled(list, current, bookmarked, now).value| <= MaxBookmarks
  {
  }

  class UserBookmarks {
    var bookmarks: seq<BookmarkedUser>
    var isBookmarked: bool
    var currentUser: Option<User>
    const storage: LocalStorage

    /** The state and the local-storage key hold the same list. */
    ghost predicate Saved()
      reads this, storage
    {
      BookmarksKey in storage.items && storage.items[BookmarksKey] == BookmarksJson(bookmarks)
    }

    /** The component as first rendered, before its effects run. */
    constructor (currentUser: Option<User>, storage: LocalStorage)
      ensures bookmarks == [] && !isBookmarked
      ensures this.currentUser == currentUser && this.storage == storage
    {
      bookmarks := [];
      isBookmarked := false;
      this.currentUser := currentUser;
      this.storage := storage;
    }

    /** The mount effect: adopt the saved list when there is one. */
    method LoadSaved()
      modifies this`bookmarks
      ensures BookmarksKey in storage.items && storage.items[BookmarksKey].BookmarksJson? ==>
        bookmarks == storage.items[BookmarksKey].bookmarks && Saved()
      ensures !(BookmarksKey in storage.items && storage.items[BookmarksKey].BookmarksJson?) ==>
        bookmarks == old(bookmarks)
    {
      var saved := storage.GetItem(BookmarksKey);
      if saved.Some? && saved.value.BookmarksJson? {
        bookmarks := saved.value.bookmarks;
      }
    }

    /** The effect that derives `isBookmarked` from the list, when there is a current user. */
    method SyncBookmarked()
      modifies this`isBookmarked
      ensures currentUser.Some? ==> isBookmarked == IsBookmarked(bookmarks, currentUser.value.login)
      ensures currentUser.None? ==> isBookmarked == old(isBookmarked)
    {
      if currentUser.Some? {
        isBookmarked := IsBookmarked(bookmarks, currentUser.value.login);
      }
    }

    /** `saveBookmarks`: the same list into the state and into local storage. */
    method SaveBookmarks(list: seq<BookmarkedUser>)
      modifies this`bookmarks, storage
      ensures bookmarks == list && Saved()
      ensures storage.items == old(storage.items)[BookmarksKey := BookmarksJson(list)]
    {
      bookmarks := list;
      storage.SetItem(BookmarksKey, BookmarksJson(list));
    }

    /** `toggleBookmark`, with `now` the ISO time stamped on a new bookmark. */
    method ToggleBookmark(now: string)
      modifies this`bookmarks, storage
      ensures var t := Toggled(old(bookmarks), currentUser, isBookmarked, now);
        && (t.None? ==> bookmarks == old(bookmarks) && storage.items == old(storage.items))
        && (t.Some? ==>
              bookmarks == t.value && Saved() && storage.items == old(storage.items)[BookmarksKey := BookmarksJson(t.value)])
    {
      if currentUser.None? {
        return;
      }
      if isBookmarked {
        SaveBookmarks(WithoutLogin(bookmarks, currentUser.value.login));
      } else {
        SaveBookmarks(WithBookmark(bookmarks, BookmarkedUser(currentUser.value, now)));
      }
    }

    /** `removeBookmark(login)`. */
    method RemoveBookmark(login: string)
      modifies this`bookmarks, storage
      ensures bookmarks == WithoutLogin(old(bookmarks), login) && Saved()
      ensures storage.items == old(storage.items)[BookmarksKey := BookmarksJson(bookmarks)]
    {
      SaveBookmarks(WithoutLogin(bookmarks, login));
    }
  }
}
