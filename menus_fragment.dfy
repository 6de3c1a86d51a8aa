/**
 * The menus screen (MenusFragment): the menus spinner's item list, shaped
 * [default menu] ++ menus ++ [add-menu option], the selection in it, the
 * location spinner's items, and the flags that keep one REST mutation, one
 * fetch and one local load in flight and that carry the undo of a delete.
 */
module Menus {
  import opened Optional
  import opened Seqs

  /** A menu location (MenuLocationModel); its equality is passed in where it is used. */
  datatype MenuLocation = MenuLocation(name: string)

  /** An entry of a menu (MenuItemModel); only copied around here. */
  datatype MenuItem = MenuItem(itemId: int, name: string)

  /**
   * A menu (MenuModel), as a value. A null `locations` or `menuItems` list
   * is None; a missing details string is "".
   */
  datatype Menu = Menu(menuId: int, name: string, details: string,
                       locations: Option<seq<MenuLocation>>, menuItems: Option<seq<MenuItem>>)

  /** The message kinds the empty view shows (EmptyViewMessageType). */
  datatype EmptyViewMessage = Loading | NoContent | NetworkError

  /** The empty view is either hidden (spinners shown) or shows a message (spinners hidden). */
  datatype EmptyView = Hidden | Showing(message: EmptyViewMessage)

  /** The error kinds the REST client reports (MenusRestWPCom.REST_ERROR). */
  datatype RestError = FetchError | CreateError | UpdateError

  /** What a position picked in the menus spinner puts into the add/edit/remove control. */
  datatype Picked = AddNew | Existing(menu: Menu, isDefault: bool)

  /** A `new MenuModel()` that is given only a name: the default menu and the add-menu option. */
  function Placeholder(name: string): Menu
  {
    Menu(0, name, "", None, None)
  }

  /** Number of items a spinner shows (its adapter's getCount): none for a null list. */
  function SpinnerCount<T>(items: Option<seq<T>>): (n: nat)
    ensures n == 0 <==> items.None? || items.value == []
    ensures items.Some? ==> n == |items.value|
  {
    match items
    case None => 0
    case Some(s) => |s|
  }

  /** The shape the menus spinner's list has after prepareMenuList. */
  predicate IsSpinnerList(items: seq<Menu>, defaultName: string, addName: string)
  {
    |items| >= 2 && items[0] == Placeholder(defaultName) && items[|items| - 1] == Placeholder(addName)
  }

  /** The real menus of a spinner list: everything between the two placeholders. */
  function MenusOf(items: seq<Menu>): seq<Menu>
    requires |items| >= 2
  {
    items[1..|items| - 1]
  }

  /** insertDefaultMenu then insertAddMenuOption; a null list stays null. */
  function PrepareMenuList(menus: Option<seq<Menu>>, defaultName: string, addName: string): (r: Option<seq<Menu>>)
    ensures r.Some? <==> menus.Some?
    ensures menus.Some? ==> |r.value| == |menus.value| + 2
    ensures menus.Some? ==> IsSpinnerList(r.value, defaultName, addName)
    ensures menus.Some? ==> forall i :: 0 <= i < |menus.value| ==> r.value[i + 1] == menus.value[i]
  {
    match menus
    case None => None
    case Some(m) => Some([Placeholder(defaultName)] + m + [Placeholder(addName)])
  }

  /** Preparing a list and taking its menus back gives the original list. */
  lemma PrepareMenuListRoundTrip(menus: seq<Menu>, defaultName: string, addName: string)
    ensures MenusOf(PrepareMenuList(Some(menus), defaultName, addName).value) == menus
  {
    var r := PrepareMenuList(Some(menus), defaultName, addName).value;
    assert |MenusOf(r)| == |menus|;
    forall i | 0 <= i < |menus| ensures MenusOf(r)[i] == menus[i] {
      assert MenusOf(r)[i] == r[i + 1];
    }
  }

  /**
   * What create and undo do to a non-empty list: drop its last item, append
   * the menu, append a fresh add-menu option.
   */
  function Reinsert(items: seq<Menu>, menu: Menu, addName: string): seq<Menu>
    requires |items| > 0
  {
    items[..|items| - 1] + [menu] + [Placeholder(addName)]
  }

  /**
   * Reinsertion grows the list by one, keeps every earlier item, puts the
   * menu just before the add-menu option; on a spinner list it appends the
   * menu to the real menus and keeps the shape.
   */
  lemma ReinsertEffect(items: seq<Menu>, menu: Menu, defaultName: string, addName: string)
    requires |items| > 0
    ensures var r := Reinsert(items, menu, addName);
      && |r| == |items| + 1
      && (forall i :: 0 <= i < |items| - 1 ==> r[i] == items[i])
      && r[|r| - 2] == menu
      && r[|r| - 1] == Placeholder(addName)
    ensures IsSpinnerList(items, defaultName, addName) ==>
      && IsSpinnerList(Reinsert(items, menu, addName), defaultName, addName)
      && MenusOf(Reinsert(items, menu, addName)) == MenusOf(items) + [menu]
  {
    var r := Reinsert(items, menu, addName);
    if IsSpinnerList(items, defaultName, addName) {
      assert MenusOf(r) == items[1..|items| - 1] + [menu];
    }
  }

  /**
   * The menus spinner's onItemSelected: the last position is the add-menu
   * option, which clears the control; any other position hands its menu to
   * the control, flagged as the default menu at position 0.
   */
  function Pick(items: seq<Menu>, position: int): (r: Picked)
    requires 0 <= position < |items|
    ensures r.AddNew? <==> position == |items| - 1
    ensures r.Existing? ==> r.menu == items[position] && (r.isDefault <==> position == 0)
  {
    if |items| == position + 1 then AddNew
    else Existing(items[position], position == 0)
  }

  /** On a spinner list the positions fall into the default menu, the real menus and the add option. */
  lemma PickOnSpinnerList(items: seq<Menu>, position: int, defaultName: string, addName: string)
    requires IsSpinnerList(items, defaultName, addName) && 0 <= position < |items|
    ensures position == 0 ==> Pick(items, position) == Existing(Placeholder(defaultName), true)
    ensures 0 < position < |items| - 1 ==>
      Pick(items, position) == Existing(MenusOf(items)[position - 1], false)
    ensures position == |items| - 1 ==> Pick(items, position) == AddNew
  {
  }

  /** The menu's own locations include one equal to `location`. */
  predicate ServesLocation(menu: Menu, location: MenuLocation, equals: (MenuLocation, MenuLocation) -> bool)
  {
    menu.locations.Some? && exists l :: l in menu.locations.value && equals(location, l)
  }

  /**
   * The empty-view rule of LoadMenusTask.onPostExecute, applied as the
   * source applies it: to the menu list after prepareMenuList has padded it.
   */
  predicate NoContentAfterLoad(menus: Option<seq<Menu>>, locations: Option<seq<MenuLocation>>)
    // the same test onErrorResponse makes on the spinners' counts
    ensures NoContentAfterLoad(menus, locations) <==> SpinnerCount(locations) == 0 || SpinnerCount(menus) == 0
  {
    locations.None? || |locations.value| == 0 || menus.None? || |menus.value| == 0
  }

  /**
   * Because the list is padded first, a non-null menu list never counts as
   * empty: only the locations decide, even when no menu was loaded.
   */
  lemma NoContentIgnoresLoadedMenus(menus: seq<Menu>, locations: Option<seq<MenuLocation>>,
                                    defaultName: string, addName: string)
    ensures NoContentAfterLoad(PrepareMenuList(Some(menus), defaultName, addName), locations)
      <==> locations.None? || |locations.value| == 0
    ensures NoContentAfterLoad(PrepareMenuList(None, defaultName, addName), locations)
  {
  }

  /** The four fields onMenuUpdated copies from the updated menu; the id stays the item's. */
  function CopyEditableFields(item: Menu, from: Menu): (r: Menu)
    ensures r == from.(menuId := item.menuId)
  {
    item.(name := from.name, details := from.details, locations := from.locations, menuItems := from.menuItems)
  }

  class MenusFragment {
    /** The names the string resources give the two placeholders. */
    const defaultMenuName: string
    const addMenuName: string
    /** MenuModel.equals and MenuLocationModel.equals, whose code is not part of this model. */
    const menuEquals: (Menu, Menu) -> bool
    const locationEquals: (MenuLocation, MenuLocation) -> bool

    /** The menus spinner: its items (null until first set) and its selected position. */
    var menus: Option<seq<Menu>>
    var menuSelection: int
    /** The locations spinner's items. */
    var locations: Option<seq<MenuLocation>>
    /** The menu the add/edit/remove control shows, and whether it is shown as the default menu. */
    var controlMenu: Option<Menu>
    var controlIsDefault: bool
    var emptyView: EmptyView

    var undoPressed: bool
    var requestBeingProcessed: bool
    var isUpdatingMenus: bool
    var isLoadTaskRunning: bool

    /** Ids the REST client returned for the last request of each kind. */
    var currentLoadRequestId: int
    var currentCreateRequestId: int
    var currentUpdateRequestId: int
    var currentDeleteRequestId: int

    constructor (defaultMenuName: string, addMenuName: string,
                 menuEquals: (Menu, Menu) -> bool, locationEquals: (MenuLocation, MenuLocation) -> bool)
      ensures this.defaultMenuName == defaultMenuName && this.addMenuName == addMenuName
      ensures this.menuEquals == menuEquals && this.locationEquals == locationEquals
      ensures menus == None && locations == None && controlMenu == None && emptyView == Hidden
      ensures !undoPressed && !requestBeingProcessed && !isUpdatingMenus && !isLoadTaskRunning
    {
      this.defaultMenuName := defaultMenuName;
      this.addMenuName := addMenuName;
      this.menuEquals, this.locationEquals := menuEquals, locationEquals;
      menus, menuSelection, locations := None, -1, None;
      controlMenu, controlIsDefault, emptyView := None, false, Hidden;
      undoPressed, requestBeingProcessed, isUpdatingMenus, isLoadTaskRunning := false, false, false, false;
      currentLoadRequestId, currentCreateRequestId, currentUpdateRequestId, currentDeleteRequestId := 0, 0, 0, 0;
    }

    /**
     * The list work shared by onMenuCreated and the undo listener: remove the
     * last item, append the menu, re-append the add-menu option and select the
     * menu. On a null list nothing happens; on an empty one the removal
     * throws (`thrown`) before anything changes.
     */
    method ReinsertMenu(menu: Menu) returns (thrown: bool)
      modifies this`menus, this`menuSelection
      ensures thrown <==> old(menus) == Some([])
      ensures old(menus).None? || thrown ==> menus == old(menus) && menuSelection == old(menuSelection)
      ensures old(menus).Some? && !thrown ==>
        && menus == Some(Reinsert(old(menus).value, menu, addMenuName))
        && menuSelection == |menus.value| - 2
        && menus.value[menuSelection] == menu
    {
      thrown := false;
      if menus.Some? {
        var items := menus.value;
        if |items| == 0 {
          return true;
        }
        items := items[..|items| - 1];
        items := items + [menu];
        items := items + [Placeholder(addMenuName)];
        menus := Some(items);
        menuSelection := |items| - 2;
      }
    }

    /** onMenuCreated: shows the new menu in the spinner and ends the request. */
    method OnMenuCreated(menu: Menu, isAdded: bool) returns (thrown: bool)
      modifies this`menus, this`menuSelection, this`requestBeingProcessed
      ensures !isAdded ==> !thrown && menus == old(menus) && menuSelection == old(menuSelection)
      ensures thrown <==> isAdded && old(menus) == Some([])
      ensures thrown ==> menus == old(menus) && menuSelection == old(menuSelection)
      ensures thrown || !isAdded ==> requestBeingProcessed == old(requestBeingProcessed)
      ensures isAdded && !thrown ==> !requestBeingProcessed
      ensures isAdded && old(menus).None? ==> menus == old(menus) && menuSelection == old(menuSelection)
      ensures isAdded && old(menus).Some? && !thrown ==>
        && menus == Some(Reinsert(old(menus).value, menu, addMenuName))
        && menuSelection == |menus.value| - 2
    {
      if !isAdded {
        return false;
      }
      thrown := ReinsertMenu(menu);
      if thrown {
        return;
      }
      requestBeingProcessed := false;
    }

    /** onMenuCreate: the control asks for a new menu; the REST client returns `requestId`. */
    method OnMenuCreate(menu: Menu, requestId: int)
      modifies this`currentCreateRequestId
      ensures currentCreateRequestId == requestId
    {
      currentCreateRequestId := requestId;
    }

    /**
     * onMenuDelete: takes the first item equal to the menu out of the spinner
     * (by `menuEquals`) and clears the selection if there was one.
     * The REST delete waits for the snackbar to close.
     */
    method OnMenuDelete(menu: Menu)
      modifies this`menus, this`menuSelection
      ensures match old(menus)
        case None => menus == None && menuSelection == old(menuSelection)
        case Some(s) =>
          && menus == Some(RemoveFirst(s, menu, menuEquals).0)
          && menuSelection == if RemoveFirst(s, menu, menuEquals).1 then -1 else old(menuSelection)
    {
      if menus.Some? {
        var (items, removed) := RemoveFirst(menus.value, menu, menuEquals);
        if removed {
          menus := Some(items);
          menuSelection := -1;
        }
      }
    }

    /** The snackbar's undo: remember the undo, give the control its menu back, reinsert the menu. */
    method OnUndoClicked(menu: Menu) returns (thrown: bool)
      modifies this`undoPressed, this`controlMenu, this`controlIsDefault, this`menus, this`menuSelection
      ensures undoPressed && controlMenu == Some(menu) && !controlIsDefault
      ensures thrown <==> old(menus) == Some([])
      ensures old(menus).None? || thrown ==> menus == old(menus) && menuSelection == old(menuSelection)
      ensures old(menus).Some? && !thrown ==>
        && menus == Some(Reinsert(old(menus).value, menu, addMenuName))
        && menuSelection == |menus.value| - 2
    {
      undoPressed := true;
      controlMenu, controlIsDefault := Some(menu), false;
      thrown := ReinsertMenu(menu);
    }

    /**
     * The snackbar's onDismissed: after an undo, only the undo flag is reset;
     * otherwise the delete is sent unless another request is in flight.
     */
    method OnSnackbarDismissed(menu: Menu, requestId: int) returns (deleteIssued: bool)
      modifies this`undoPressed, this`requestBeingProcessed, this`currentDeleteRequestId
      ensures !undoPressed
      ensures deleteIssued <==> !old(undoPressed) && !old(requestBeingProcessed)
      ensures deleteIssued ==> requestBeingProcessed && currentDeleteRequestId == requestId
      ensures !deleteIssued ==>
        requestBeingProcessed == old(requestBeingProcessed) && currentDeleteRequestId == old(currentDeleteRequestId)
    {
      if undoPressed {
        undoPressed := false;
        return false;
      }
      deleteIssued := false;
      if !requestBeingProcessed {
        requestBeingProcessed := true;
        currentDeleteRequestId := requestId;
        deleteIssued := true;
      }
    }

    /** onMenuDeleted: removes the menu from the spinner again (if still there) and ends the request. */
    method OnMenuDeleted(menu: Menu, isAdded: bool)
      modifies this`menus, this`requestBeingProcessed
      ensures !isAdded ==> menus == old(menus) && requestBeingProcessed == old(requestBeingProcessed)
      ensures isAdded ==> !requestBeingProcessed
      ensures isAdded ==> menus == match old(menus)
        case None => None
        case Some(s) => Some(RemoveFirst(s, menu, menuEquals).0)
    {
      if !isAdded {
        return;
      }
      if menus.Some? {
        var (items, removed) := RemoveFirst(menus.value, menu, menuEquals);
        if removed {
          menus := Some(items);
        }
      }
      requestBeingProcessed := false;
    }

    /** onMenuUpdate: sends the update unless another request is in flight. */
    method OnMenuUpdate(menu: Menu, requestId: int) returns (issued: bool)
      modifies this`requestBeingProcessed, this`currentUpdateRequestId
      ensures issued <==> !old(requestBeingProcessed)
      ensures requestBeingProcessed
      ensures issued ==> currentUpdateRequestId == requestId
      ensures !issued ==> currentUpdateRequestId == old(currentUpdateRequestId)
    {
      issued := !requestBeingProcessed;
      if issued {
        requestBeingProcessed := true;
        currentUpdateRequestId := requestId;
      }
    }

    /**
     * onMenuUpdated: the first item with the updated menu's id takes over its
     * name, details, locations and items and becomes the selection; with no
     * such item nothing changes. The request ends either way.
     */
    method OnMenuUpdated(menu: Menu, isAdded: bool)
      modifies this`menus, this`menuSelection, this`requestBeingProcessed
      ensures !isAdded ==>
        menus == old(menus) && menuSelection == old(menuSelection) && requestBeingProcessed == old(requestBeingProcessed)
      ensures isAdded ==> !requestBeingProcessed
      ensures isAdded ==> match old(menus)
        case None => menus == None && menuSelection == old(menuSelection)
        case Some(s) =>
          if forall j :: 0 <= j < |s| ==> s[j].menuId != menu.menuId then
            menus == old(menus) && menuSelection == old(menuSelection)
          else
            && 0 <= menuSelection < |s|
            && s[menuSelection].menuId == menu.menuId
            && (forall j :: 0 <= j < menuSelection ==> s[j].menuId != menu.menuId)
            && menus == Some(s[menuSelection := CopyEditableFields(s[menuSelection], menu)])
    {
      if !isAdded {
        return;
      }
      if menus.Some? {
        var items := menus.value;
        var selectedPos := -1;
        var i := 0;
        while i < |items|
          invariant 0 <= i <= |items| && items == menus.value
          invariant forall j :: 0 <= j < i ==> items[j].menuId != menu.menuId
        {
          if items[i].menuId == menu.menuId {
            selectedPos := i;
            break;
          }
          i := i + 1;
        }
        if selectedPos >= 0 {
          menus := Some(items[selectedPos := CopyEditableFields(items[selectedPos], menu)]);
          menuSelection := selectedPos;
        }
      }
      requestBeingProcessed := false;
    }

    /**
     * The menus spinner's onItemSelected at a position of its list: the
     * add-menu option clears the control, any other item goes into it.
     */
    method OnMenuItemSelected(position: int)
      requires menus.Some? && 0 <= position < |menus.value|
      modifies this`controlMenu, this`controlIsDefault
      ensures match Pick(menus.value, position)
        case AddNew => controlMenu == None && !controlIsDefault
        case Existing(m, isDefault) => controlMenu == Some(m) && controlIsDefault == isDefault
    {
      if |menus.value| == position + 1 {
        controlMenu, controlIsDefault := None, false;
      } else {
        controlMenu, controlIsDefault := Some(menus.value[position]), position == 0;
      }
    }

    /**
     * The locations spinner's onItemSelected: selects the first menu among
     * whose locations is one equal to the chosen location
     * (by `locationEquals`). Nothing changes when either
     * list is null or empty or no menu serves the location.
     */
    method OnLocationSelected(position: int)
      requires 0 <= position
      requires locations.Some? && |locations.value| > 0 ==> position < |locations.value|
      modifies this`menuSelection
      ensures menus.None? || |menus.value| == 0 || locations.None? || |locations.value| == 0 ==>
        menuSelection == old(menuSelection)
      ensures menus.Some? && |menus.value| > 0 && locations.Some? && |locations.value| > 0 ==>
        var s, chosen := menus.value, locations.value[position];
        if exists i :: 0 <= i < |s| && ServesLocation(s[i], chosen, locationEquals) then
          && 0 <= menuSelection < |s|
          && ServesLocation(s[menuSelection], chosen, locationEquals)
          && (forall j :: 0 <= j < menuSelection ==> !ServesLocation(s[j], chosen, locationEquals))
        else
          menuSelection == old(menuSelection)
    {
      if menus.Some? && |menus.value| > 0 && locations.Some? && |locations.value| > 0 {
        var s := menus.value;
        var selected := locations.value[position];
        var i := 0;
        while i < |s|
          invariant 0 <= i <= |s|
          invariant forall j :: 0 <= j < i ==> !ServesLocation(s[j], selected, locationEquals)
          invariant menuSelection == old(menuSelection)
        {
          var menu := s[i];
          if menu.locations.Some? {
            var ls := menu.locations.value;
            var k := 0;
            while k < |ls|
              invariant 0 <= k <= |ls|
              invariant forall q :: 0 <= q < k ==> !locationEquals(selected, ls[q])
            {
              if locationEquals(selected, ls[k]) {
                menuSelection := i;
                return;
              }
              k := k + 1;
            }
          }
          i := i + 1;
        }
      }
    }

    /** loadMenus: starts a local load unless one is running (onPreExecute sets the flag). */
    method LoadMenus() returns (started: bool)
      modifies this`isLoadTaskRunning
      ensures started <==> !old(isLoadTaskRunning)
      ensures isLoadTaskRunning
    {
      if isLoadTaskRunning {
        return false;
      }
      isLoadTaskRunning := true;
      started := true;
    }

    /** LoadMenusTask.onCancelled. */
    method LoadCancelled()
      modifies this`isLoadTaskRunning
      ensures !isLoadTaskRunning
    {
      isLoadTaskRunning := false;
    }

    /**
     * LoadMenusTask.onPostExecute with what the background step read from the
     * local tables: both spinners take the lists, the menus padded first,
     * and the empty view follows the rule on the padded list.
     */
    method LoadFinished(loadedMenus: Option<seq<Menu>>, loadedLocations: Option<seq<MenuLocation>>)
      modifies this`locations, this`menus, this`emptyView, this`isLoadTaskRunning
      ensures locations == loadedLocations
      ensures menus == PrepareMenuList(loadedMenus, defaultMenuName, addMenuName)
      ensures emptyView == if NoContentAfterLoad(menus, loadedLocations) then Showing(NoContent) else Hidden
      ensures loadedMenus.Some? ==>
        (emptyView == Hidden <==> loadedLocations.Some? && |loadedLocations.value| > 0)
      ensures !isLoadTaskRunning
    {
      locations := loadedLocations;
      var prepared := PrepareMenuList(loadedMenus, defaultMenuName, addMenuName);
      menus := prepared;
      if NoContentAfterLoad(prepared, loadedLocations) {
        emptyView := Showing(NoContent);
      } else {
        emptyView := Hidden;
      }
      isLoadTaskRunning := false;
    }

    /**
     * updateMenus: does nothing while a fetch is running; otherwise shows the
     * loading message, starts a local load and, when the network is
     * available, a fetch whose id the REST client returns as `requestId`.
     */
    method UpdateMenus(networkAvailable: bool, requestId: int) returns (loadStarted: bool, fetchIssued: bool)
      modifies this`emptyView, this`isLoadTaskRunning, this`isUpdatingMenus, this`currentLoadRequestId
      ensures old(isUpdatingMenus) ==>
        && !loadStarted && !fetchIssued && isUpdatingMenus
        && emptyView == old(emptyView) && isLoadTaskRunning == old(isLoadTaskRunning)
        && currentLoadRequestId == old(currentLoadRequestId)
      ensures !old(isUpdatingMenus) ==>
        && emptyView == Showing(Loading)
        && isLoadTaskRunning
        && (loadStarted <==> !old(isLoadTaskRunning))
        && (fetchIssued <==> networkAvailable)
        && isUpdatingMenus == networkAvailable
        && currentLoadRequestId == if networkAvailable then requestId else old(currentLoadRequestId)
    {
      loadStarted, fetchIssued := false, false;
      if isUpdatingMenus {
        return;
      }
      emptyView := Showing(Loading);
      loadStarted := LoadMenus();
      if !networkAvailable {
        return;
      }
      isUpdatingMenus := true;
      currentLoadRequestId := requestId;
      fetchIssued := true;
    }

    /**
     * onMenusReceived: each non-null list replaces the spinner's list unless
     * CollectionUtils.areListsEqual (not part of this model; its verdicts are
     * `sameLocations` and `sameMenus`) found them equal, the menus padded
     * first. When attached, the spinners are shown if either changed and the
     * fetch is over.
     */
    method OnMenusReceived(receivedMenus: Option<seq<Menu>>, receivedLocations: Option<seq<MenuLocation>>,
                           sameMenus: bool, sameLocations: bool, isAdded: bool)
      modifies this`menus, this`locations, this`emptyView, this`isUpdatingMenus
      ensures locations == if receivedLocations.Some? && !sameLocations then receivedLocations else old(locations)
      ensures menus == if receivedMenus.Some? && !sameMenus
        then PrepareMenuList(receivedMenus, defaultMenuName, addMenuName) else old(menus)
      ensures !isAdded ==> emptyView == old(emptyView) && isUpdatingMenus == old(isUpdatingMenus)
      ensures isAdded ==> !isUpdatingMenus
      ensures isAdded ==>
        emptyView == if (receivedLocations.Some? && !sameLocations) || (receivedMenus.Some? && !sameMenus)
        then Hidden else old(emptyView)
    {
      var spinnersUpdated := false;
      if receivedLocations.Some? && !sameLocations {
        locations := receivedLocations;
        spinnersUpdated := true;
      }
      if receivedMenus.Some? && !sameMenus {
        menus := PrepareMenuList(receivedMenus, defaultMenuName, addMenuName);
        spinnersUpdated := true;
      }
      if !isAdded {
        return;
      }
      if spinnersUpdated {
        emptyView := Hidden;
      }
      isUpdatingMenus := false;
    }

    /**
     * onErrorResponse: a failed fetch ends the fetch and, when either spinner
     * is empty, shows the no-content message; every error ends the request.
     */
    method OnErrorResponse(error: RestError)
      modifies this`emptyView, this`isUpdatingMenus, this`requestBeingProcessed
      ensures !requestBeingProcessed
      ensures isUpdatingMenus == if error == FetchError then false else old(isUpdatingMenus)
      ensures emptyView ==
        if error == FetchError && (SpinnerCount(locations) == 0 || SpinnerCount(menus) == 0)
        then Showing(NoContent) else old(emptyView)
    {
      if error == FetchError {
        if SpinnerCount(locations) == 0 || SpinnerCount(menus) == 0 {
          emptyView := Showing(NoContent);
        }
        isUpdatingMenus := false;
      }
      requestBeingProcessed := false;
    }
  }

  /**
   * Deleting a real menu from a spinner list and reinserting it keeps the
   * list's shape and puts the menu just before the add-menu option, as long
   * as neither placeholder is equal to the menu.
   */
  lemma DeleteThenReinsertShape(items: seq<Menu>, menu: Menu, equals: (Menu, Menu) -> bool,
                                defaultName: string, addName: string)
    requires IsSpinnerList(items, defaultName, addName)
    requires !equals(menu, Placeholder(defaultName)) && !equals(menu, Placeholder(addName))
    ensures var rest := RemoveFirst(items, menu, equals).0;
      && IsSpinnerList(rest, defaultName, addName)
      && IsSpinnerList(Reinsert(rest, menu, addName), defaultName, addName)
      && Reinsert(rest, menu, addName)[|rest| - 1] == menu
  {
    var i := IndexOf(items, menu, equals);
    var rest := RemoveFirst(items, menu, equals).0;
    if i >= 0 {
      RemoveFirstTakesFirstMatch(items, menu, equals, i);
      assert 0 < i < |items| - 1;
      assert |rest| == |items| - 1;
      assert rest[0] == items[0];
      assert rest[|rest| - 1] == items[|items| - 1];
    }
    ReinsertEffect(rest, menu, defaultName, addName);
  }

  /**
   * Delete followed by undo, then the snackbar closing: the menu is back
   * just before the add-menu option, no delete request goes out and the
   * undo flag is reset for the next delete.
   */
  method DeleteThenUndo(f: MenusFragment, menu: Menu, requestId: int) returns (deleteIssued: bool)
    requires f.menus.Some? && IsSpinnerList(f.menus.value, f.defaultMenuName, f.addMenuName)
    requires !f.menuEquals(menu, Placeholder(f.defaultMenuName)) && !f.menuEquals(menu, Placeholder(f.addMenuName))
    requires !f.undoPressed
    modifies f
    ensures !deleteIssued && !f.undoPressed
    ensures f.requestBeingProcessed == old(f.requestBeingProcessed)
    ensures f.menus.Some? && IsSpinnerList(f.menus.value, f.defaultMenuName, f.addMenuName)
    ensures f.menus.value[|f.menus.value| - 2] == menu
  {
    DeleteThenReinsertShape(f.menus.value, menu, f.menuEquals, f.defaultMenuName, f.addMenuName);
    f.OnMenuDelete(menu);
    var thrown := f.OnUndoClicked(menu);
    deleteIssued := f.OnSnackbarDismissed(menu, requestId);
  }
}
