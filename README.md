# Menus screen and followed-blog list: a Dafny model

This project models two pieces of list bookkeeping in the WordPress Android
client and proves properties of them.

- **The menus screen** (`MenusFragment`, module `Menus`). The menus spinner
  holds `[default menu] ++ menus ++ [add-menu option]`. The callbacks create,
  delete, undo a delete and update menus in that list. The locations spinner
  selects the first menu that serves a location. Four boolean flags guard the
  screen:
  - `requestBeingProcessed`: one REST mutation in flight at a time;
  - `undoPressed`: the undo-then-dismiss handshake that suppresses a delete;
  - `isUpdatingMenus`: one server fetch at a time;
  - `isLoadTaskRunning`: one local load at a time.

  The class `Menus.MenusFragment` holds the spinner lists, the selection, the
  add/edit/remove control's menu, the empty view and the flags. Each callback
  is a method whose `ensures` gives the whole new state.
- **The reader's blog adapter** (`ReaderBlogAdapter`, module `ReaderBlogs`).
  It keeps the followed blogs sorted case-insensitively by a name key, with a
  filtered view: the blogs whose lower-cased name or URL contains the
  lower-cased filter text. A guard keeps one load running at a time. The
  class `ReaderBlogs.ReaderBlogAdapter` holds the lists, the filter text and
  the guard.

Supporting modules:
- `Seqs`: the `java.util.List` operations used here (`indexOf`,
  `remove(Object)`, `Collections.sort`) and the subsequence relation.
- `Text`: ASCII lower-casing, `String.contains` and `compareToIgnoreCase`.
- `Optional`: a null reference as `None`.

Several collaborators are not part of this model, so they become parameters:
- `MenuModel.equals` and `MenuLocationModel.equals` are the fragment's `menuEquals` and `locationEquals` constants.
- `UrlUtils.getHost` is the adapter's `getHost` constant.
- The verdicts of `CollectionUtils.areListsEqual` and `isSameList` are boolean inputs.
- `isAdded()` is a boolean input.
- Network availability is a boolean input.
- The request ids the REST client returns are integer inputs.
- The lists read from the local tables are inputs.

Two behaviours of the code are stated and proved as written:
- `LoadMenusTask.onPostExecute` applies its "no content" test to the menu
  list after `prepareMenuList` has padded it. So a non-null menu list never
  counts as empty, and only the locations decide
  (`Menus.NoContentIgnoresLoadedMenus`).
- `onMenuCreated`, `onMenuDeleted` and `onMenuUpdated` return early when the
  fragment is detached, before `mRequestBeingProcessed` is cleared. So a
  completion that arrives while detached leaves the flag set. The flag is
  cleared by every completion that arrives while attached, unless
  `onMenuCreated`'s `remove(size-1)` throws on an empty list (see the
  `Menus.MenusFragment.OnMenuCreated` row). It is also
  cleared by every error response that reaches its last line; the model
  takes `getString` to succeed there (see "Left out").

## Model

| member | source | states |
|---|---|---|
| `Menus.PrepareMenuList` | WordPress/src/main/java/org/wordpress/android/ui/menus/MenusFragment.java:412-431 | a null list stays null; n menus become n+2 items: default menu first, add-menu option last, the menus in order between them |
| `Menus.PrepareMenuListRoundTrip` | WordPress/src/main/java/org/wordpress/android/ui/menus/MenusFragment.java:412-431 | taking the items between the two placeholders of a prepared list gives back exactly the original menus |
| `Menus.ReinsertEffect` | WordPress/src/main/java/org/wordpress/android/ui/menus/MenusFragment.java:67-80 | create/undo reinsertion grows the list by one, keeps every earlier item, puts the menu at size-2 and the add option last; on a spinner-shaped list the shape is kept and the menu is appended to the real menus |
| `Menus.MenusFragment.ReinsertMenu` | WordPress/src/main/java/org/wordpress/android/ui/menus/MenusFragment.java:236-249 | on a non-null, non-empty list: new list is the reinsertion and the selection is size-2, which holds the menu; null list: nothing changes; empty list: `remove(size-1)` throws and nothing changes |
| `Menus.MenusFragment.OnMenuCreated` | WordPress/src/main/java/org/wordpress/android/ui/menus/MenusFragment.java:57-83 | detached: nothing changes; attached: reinsertion as above and the request flag is cleared; when the removal throws on an empty list, the list, selection and request flag are all unchanged |
| `Menus.MenusFragment.OnMenuCreate` | WordPress/src/main/java/org/wordpress/android/ui/menus/MenusFragment.java:214-216 | the create request id is recorded; no guard and no flag change |
| `Menus.MenusFragment.OnMenuDelete` | WordPress/src/main/java/org/wordpress/android/ui/menus/MenusFragment.java:219-227 | the list loses its first item equal to the menu; the selection becomes -1 exactly when something was removed; a null list is untouched |
| `Menus.MenusFragment.OnUndoClicked` | WordPress/src/main/java/org/wordpress/android/ui/menus/MenusFragment.java:229-250 | sets the undo flag, gives the control the menu (not as default) and reinserts the menu before the add option, selecting it |
| `Menus.MenusFragment.OnSnackbarDismissed` | WordPress/src/main/java/org/wordpress/android/ui/menus/MenusFragment.java:257-271 | the undo flag ends false; a delete is issued iff undo was not pressed and no request was in flight, and then the request flag is set and the id recorded; otherwise the flag is unchanged |
| `Menus.MenusFragment.OnMenuDeleted` | WordPress/src/main/java/org/wordpress/android/ui/menus/MenusFragment.java:122-142 | detached: nothing changes; attached: the first equal item is removed if present and the request flag is cleared |
| `Menus.MenusFragment.OnMenuUpdate` | WordPress/src/main/java/org/wordpress/android/ui/menus/MenusFragment.java:277-283 | the update is issued iff no request was in flight; afterwards the request flag is set either way |
| `Menus.MenusFragment.OnMenuUpdated` | WordPress/src/main/java/org/wordpress/android/ui/menus/MenusFragment.java:143-178 | attached: the first item with the menu's id takes its name, details, locations and items, every other item is unchanged, and the selection becomes that index; with no such item the list and selection are unchanged; the request flag is cleared |
| `Menus.CopyEditableFields` | WordPress/src/main/java/org/wordpress/android/ui/menus/MenusFragment.java:158-163 | the overwritten item equals the updated menu except that it keeps its own id |
| `Menus.Pick` | WordPress/src/main/java/org/wordpress/android/ui/menus/MenusFragment.java:293-306 | the last position (and only it) means "add new"; any other position hands over its own menu, marked default iff the position is 0 |
| `Menus.PickOnSpinnerList` | WordPress/src/main/java/org/wordpress/android/ui/menus/MenusFragment.java:294-306 | on a prepared list position 0 is the default menu, the last position is "add new", and position p between them is the (p-1)-th real menu |
| `Menus.MenusFragment.OnMenuItemSelected` | WordPress/src/main/java/org/wordpress/android/ui/menus/MenusFragment.java:291-307 | the control gets no menu for "add new", otherwise the picked menu with its default flag |
| `Menus.MenusFragment.OnLocationSelected` | WordPress/src/main/java/org/wordpress/android/ui/menus/MenusFragment.java:315-337 | the selection becomes the smallest index of a menu whose locations hold one equal to the chosen location; unchanged if none does or if either list is null or empty |
| `Menus.MenusFragment.LoadMenus` | WordPress/src/main/java/org/wordpress/android/ui/menus/MenusFragment.java:436-455 | a load starts iff none was running; the running flag is set afterwards either way |
| `Menus.MenusFragment.LoadCancelled` | WordPress/src/main/java/org/wordpress/android/ui/menus/MenusFragment.java:456-459 | cancelling clears the running flag |
| `Menus.SpinnerCount` | WordPress/src/main/java/org/wordpress/android/ui/menus/MenusFragment.java:184 | a spinner's `getCount` is 0 exactly when its list is null or empty, and otherwise the list's length |
| `Menus.NoContentAfterLoad` | WordPress/src/main/java/org/wordpress/android/ui/menus/MenusFragment.java:475-476 | the load's "no content" test holds iff either spinner list (null counted as empty) has no item, which is the same test `onErrorResponse` makes on the spinners' counts |
| `Menus.MenusFragment.LoadFinished` | WordPress/src/main/java/org/wordpress/android/ui/menus/MenusFragment.java:466-483 | both spinners take the loaded lists, menus prepared; the empty view shows "no content" by the rule on the padded list, so for a non-null menu list it is hidden iff there are locations; the running flag is cleared |
| `Menus.NoContentIgnoresLoadedMenus` | WordPress/src/main/java/org/wordpress/android/ui/menus/MenusFragment.java:471-480 | after padding, a non-null menu list (even of zero menus) never triggers "no content": only null or empty locations do; a null menu list always does |
| `Menus.MenusFragment.UpdateMenus` | WordPress/src/main/java/org/wordpress/android/ui/menus/MenusFragment.java:354-374 | while a fetch runs nothing changes; otherwise the loading message shows, a local load starts iff none runs, and a fetch is issued and the fetch flag set iff the network is available |
| `Menus.MenusFragment.OnMenusReceived` | WordPress/src/main/java/org/wordpress/android/ui/menus/MenusFragment.java:85-120 | each non-null list that differs replaces its spinner's list, menus prepared; when attached the spinners show if either changed and the fetch flag is cleared; detached leaves the flag set |
| `Menus.MenusFragment.OnErrorResponse` | WordPress/src/main/java/org/wordpress/android/ui/menus/MenusFragment.java:180-201 | a fetch error clears the fetch flag and shows "no content" when either spinner is empty; every error clears the request flag (string resources taken as available) |
| `Menus.DeleteThenReinsertShape` | WordPress/src/main/java/org/wordpress/android/ui/menus/MenusFragment.java:222-249 | deleting a real menu from a prepared list and reinserting it keeps the default menu first and the add option last, with the menu just before the add option |
| `Menus.DeleteThenUndo` | WordPress/src/main/java/org/wordpress/android/ui/menus/MenusFragment.java:219-271 | delete, undo, dismiss in a row: no delete is issued, the undo flag is reset, the request flag is unchanged and the menu sits just before the add option of a still well-shaped list |
| `Menus.MenusFragment.constructor` | WordPress/src/main/java/org/wordpress/android/ui/menus/MenusFragment.java:35-47 | all flags start false and both spinner lists start null |
| `Seqs.IndexOf` | WordPress/src/main/java/org/wordpress/android/ui/menus/MenusFragment.java:223 | the index found is the first element the menu equals, or -1 when it equals none |
| `Seqs.RemoveFirstReports` | WordPress/src/main/java/org/wordpress/android/ui/menus/MenusFragment.java:135-139 | `remove(menu)` reports true iff some element is equal; if not, the list is unchanged; if so, it is one shorter |
| `Seqs.RemoveFirstTakesFirstMatch` | WordPress/src/main/java/org/wordpress/android/ui/menus/MenusFragment.java:222-227 | only the first equal element goes: items before it stay, items after it move up by one, and the multiset loses exactly that element |
| `Seqs.RemoveFirstSubsequence` | WordPress/src/main/java/org/wordpress/android/ui/menus/MenusFragment.java:222-227 | the list after a removal is a subsequence of the list before: relative order is kept |
| `Seqs.InsertBy` | WordPress/src/main/java/org/wordpress/android/ui/reader/adapters/ReaderBlogAdapter.java:240-247 | inserting into a sorted list under a total preorder gives a sorted list with one more copy of the element |
| `Seqs.SortBy` | WordPress/src/main/java/org/wordpress/android/ui/reader/adapters/ReaderBlogAdapter.java:240-247 | `Collections.sort` under a total preorder: the result is sorted and a permutation of the input |
| `Text.LowerIdempotent` | WordPress/src/main/java/org/wordpress/android/ui/reader/adapters/ReaderBlogAdapter.java:315-319 | lower-casing keeps length and non-letters, leaves no upper-case letter, and is idempotent |
| `Text.LeIgnoreCaseTotalPreorder` | WordPress/src/main/java/org/wordpress/android/ui/reader/adapters/ReaderBlogAdapter.java:245 | `compareToIgnoreCase(...) <= 0` is reflexive, total and transitive |
| `Text.LeIgnoreCaseBothWays` | WordPress/src/main/java/org/wordpress/android/ui/reader/adapters/ReaderBlogAdapter.java:245 | two names compare equal ignoring case iff their lower-cased forms are equal |
| `ReaderBlogs.ComparisonKey` | WordPress/src/main/java/org/wordpress/android/ui/reader/adapters/ReaderBlogAdapter.java:266-276 | a named blog's key is its name; the key is "" iff the blog is null, or unnamed with no URL or a null or empty host; a non-empty key is the name or the URL's host |
| `ReaderBlogs.KeyLeTotalPreorder` | WordPress/src/main/java/org/wordpress/android/ui/reader/adapters/ReaderBlogAdapter.java:240-246 | the blog comparator is total and transitive |
| `ReaderBlogs.ByNameTotalPreorder` | WordPress/src/main/java/org/wordpress/android/ui/reader/adapters/ReaderBlogAdapter.java:240-246 | the comparator passed to the sort is a total preorder, so the sort's contract applies |
| `ReaderBlogs.SortByName` | WordPress/src/main/java/org/wordpress/android/ui/reader/adapters/ReaderBlogAdapter.java:238-247 | the sorted followed list is in non-decreasing key order ignoring case and is a permutation of the loaded list |
| `ReaderBlogs.Matching` | WordPress/src/main/java/org/wordpress/android/ui/reader/adapters/ReaderBlogAdapter.java:314-325 | the kept blogs form a subsequence of the list, and each blog occurs in it as often as in the list if it matches and never otherwise |
| `ReaderBlogs.FilteredExactlyMatching` | WordPress/src/main/java/org/wordpress/android/ui/reader/adapters/ReaderBlogAdapter.java:307-328 | empty constraint: the whole list; otherwise a blog is kept iff it is in the list and its lower-cased name or URL contains the lower-cased constraint; always a subsequence, holding only blogs of the list and never longer than it |
| `ReaderBlogs.FilterIgnoresConstraintCase` | WordPress/src/main/java/org/wordpress/android/ui/reader/adapters/ReaderBlogAdapter.java:314-319 | filtering by the lower-cased constraint keeps exactly the blogs filtering by the constraint itself keeps: the filter ignores the constraint's case |
| `ReaderBlogs.ReaderBlogAdapter.ItemCount` | WordPress/src/main/java/org/wordpress/android/ui/reader/adapters/ReaderBlogAdapter.java:87-97 | the count is the recommended list's size for a recommended adapter and the filtered followed list's size for a followed one |
| `ReaderBlogs.ReaderBlogAdapter.IsEmpty` | WordPress/src/main/java/org/wordpress/android/ui/reader/adapters/ReaderBlogAdapter.java:83-85 | the adapter is empty iff the list of its own type (recommended, or filtered followed) has no blog |
| `ReaderBlogs.ReaderBlogAdapter.HasFilter` | WordPress/src/main/java/org/wordpress/android/ui/reader/adapters/ReaderBlogAdapter.java:300-302 | without a filter the filter keeps the whole followed list; with one it keeps exactly the matching blogs |
| `ReaderBlogs.ReaderBlogAdapter.PerformFiltering` | WordPress/src/main/java/org/wordpress/android/ui/reader/adapters/ReaderBlogAdapter.java:307-328 | the loop's values are the filter of the followed list, the whole list for an empty constraint, and count is their length |
| `ReaderBlogs.ReaderBlogAdapter.PublishResults` | WordPress/src/main/java/org/wordpress/android/ui/reader/adapters/ReaderBlogAdapter.java:331-340 | the filtered list becomes the result list, or empty when count is 0; for a followed adapter the reported emptiness is exactly that |
| `ReaderBlogs.ReaderBlogAdapter.RunFilter` | WordPress/src/main/java/org/wordpress/android/ui/reader/adapters/ReaderBlogAdapter.java:248-250 | filtering then publishing leaves the filtered list equal to the filter of the full list |
| `ReaderBlogs.ReaderBlogAdapter.SetFilter` | WordPress/src/main/java/org/wordpress/android/ui/reader/adapters/ReaderBlogAdapter.java:295-302 | the constraint is stored, `hasFilter` holds iff it is non-empty, and the filtered list is the filter of the full list |
| `ReaderBlogs.ReaderBlogAdapter.Refresh` | WordPress/src/main/java/org/wordpress/android/ui/reader/adapters/ReaderBlogAdapter.java:71-77 | a load starts iff none is running; the running flag is set afterwards either way |
| `ReaderBlogs.ReaderBlogAdapter.LoadCancelled` | WordPress/src/main/java/org/wordpress/android/ui/reader/adapters/ReaderBlogAdapter.java:209-212 | cancelling clears the running flag |
| `ReaderBlogs.ReaderBlogAdapter.LoadFinished` | WordPress/src/main/java/org/wordpress/android/ui/reader/adapters/ReaderBlogAdapter.java:230-264 | lists change only when the load reported a difference, and only the list of the adapter's type; a followed load is sorted and the filtered list rebuilt; the running flag is cleared either way; the reported emptiness is "recommended list empty" or "filtered list empty" by type |
| `ReaderBlogs.LoadFollowedSortsAndRefilters` | WordPress/src/main/java/org/wordpress/android/ui/reader/adapters/ReaderBlogAdapter.java:238-253 | after a changed followed load the full list is sorted and a permutation of the loaded list; the filtered list equals it without a filter and is a subsequence of it with one |
| `ReaderBlogs.ReaderBlogAdapter.constructor` | WordPress/src/main/java/org/wordpress/android/ui/reader/adapters/ReaderBlogAdapter.java:50-61 | the adapter starts with empty lists, no filter and no load running |

## Left out

- Android UI: toasts, snackbar display and timing, view inflation, visibility changes, `notifyDataSetChanged` and view-holder binding. The empty view is modelled as hidden or showing a message, and the spinners are assumed to exist.
- Threading: a background load followed by its post-execute step, and `Filter.filter` (perform then publish), run as sequential steps. So a listener told `isEmpty()` right after a load with a filter sees the refiltered list, not the stale one the asynchronous filter would leave. If several snackbars are open at once, their callbacks are separate method calls, each taking its own menu.
- Collaborators that are not part of this model are parameters or inputs: `MenusRestWPCom`, `MenuTable`, `MenuLocationTable`, `ReaderBlogTable`, `CollectionUtils.areListsEqual`, `isSameList`, `MenuModel.equals`, `MenuLocationModel.equals` and `UrlUtils.getHost`. `MenusSpinner` is not part of this model either. Its `setItems` is taken to leave the selection alone, and its `getCount` is taken to be the item count (0 for a null list).
- `MenuModel`, `MenuLocationModel` and `ReaderBlog` are not part of this model. Menus are values with an id, name, details, locations and items. A fresh `MenuModel` is taken to have id 0 and no details, locations or items. A blog has a name and URL, and "has a name/URL" means non-empty.
- Object identity: menus are values, so `onMenuUpdated`'s in-place update of the item object is a replacement in the list. Other references to the same object (the control's menu) do not see it.
- Null elements: the lists hold no null menu or blog. So the `item != null` test in `onMenuUpdated` always passes, and the null-blog case appears only in `ComparisonKey`.
- A null filter constraint is the empty string: `TextUtils.isEmpty` treats both alike, and every use goes through it.
- Lower-casing and `compareToIgnoreCase` follow ASCII: `toLowerCase` is locale-dependent and is modelled only for 'A'..'Z'.
- `Seqs.SortBy`: the sort is stable by construction, but stability is not stated or proved; the contract states sortedness and permutation.
- `LoadMenusTask.doInBackground` always returns true, so the `!result` branches of its post-execute step are not modelled.
- The `default` branches of `getItemCount` and `doInBackground` cannot be reached with two blog types and are not modelled.
- `SaveMenusTask`: never created in the code, and a copy of `LoadMenusTask`.
- `getItemId`, `getItemViewType`, `getFilter`'s lazy creation and `convertResultToString`: view plumbing with no list bookkeeping.
- `VisitsModel` and `TopPostsModel`: storage getters and setters plus JSON decoding done by library code.
- `Menus.MenusFragment.OnErrorResponse`: `onErrorResponse` has no `isAdded()` guard and calls `getString` for its toast before it clears `mRequestBeingProcessed`; on a detached fragment that call can throw, leaving the flag set. The model takes string resources to be always available, so `OnErrorResponse` always clears the flag.
- `onMenuCreate` sends the create without checking or setting the request flag, while `onMenuCreated` clears it. The model keeps this as written.
