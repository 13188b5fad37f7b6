/** Menus: owner-scoped create, update, delete and list over a store from id to menu. */
module Menus {
  import opened Common
  import opened SecurityUtil
  import opened Query

  datatype Menu = Menu(id: Option<string>, ownerId: string, menuId: int, name: string, price: int, createdAt: int)

  const MenuNotFound := "메뉴를 찾을 수 없습니다."

  /** Every stored menu carries its own key as id. */
  predicate Stored(s: map<string, Menu>) {
    forall k :: k in s ==> s[k].id == Some(k)
  }

  /** findByIdAndOwnerId finds `id`: it is stored and belongs to `owner`. */
  predicate FoundFor(s: map<string, Menu>, owner: string, id: string) {
    id in s && s[id].ownerId == owner
  }

  /** createMenu: the incoming id is dropped, the menu is stamped with owner, menuId and
      createdAt, and saved under the fresh id the repository generates. */
  function CreateMenuStep(s: map<string, Menu>, auth: Option<Authentication>, menu: Menu, newId: string, millis: int, now: int): (st: Step<Menu, Menu>)
    requires newId !in s
    ensures CurrentUserId(auth).Err? ==> st == Step(Err(CurrentUserId(auth).error), s)
    ensures CurrentUserId(auth).Ok? ==> st.out.Ok?
    ensures st.out.Ok? ==>
      && st.out.value.id == Some(newId)
      && st.out.value.ownerId == CurrentUserId(auth).value
      && st.out.value.menuId == millis && st.out.value.createdAt == now
      && st.out.value.name == menu.name && st.out.value.price == menu.price
      && st.store.Keys == s.Keys + {newId}
      && st.store[newId] == st.out.value
      && (forall k :: k in s ==> st.store[k] == s[k])
    ensures Stored(s) ==> Stored(st.store)
  {
    match CurrentUserId(auth)
    case Err(e) => Step(Err(e), s)
    case Ok(owner) =>
      var saved := Menu(Some(newId), owner, millis, menu.name, menu.price, now);
      Step(Ok(saved), s[newId := saved])
  }

  /** updateMenu: a missing id and another owner's id fail alike; otherwise only name and price change. */
  function UpdateMenuStep(s: map<string, Menu>, auth: Option<Authentication>, id: string, updated: Menu): (st: Step<Menu, Menu>)
    ensures st.out.Ok? <==> CurrentUserId(auth).Ok? && FoundFor(s, CurrentUserId(auth).value, id)
    ensures CurrentUserId(auth).Err? ==> st == Step(Err(CurrentUserId(auth).error), s)
    ensures CurrentUserId(auth).Ok? && !FoundFor(s, CurrentUserId(auth).value, id) ==> st == Step(Err(ResourceNotFound(MenuNotFound)), s)
    ensures st.out.Ok? ==>
      && st.out.value.name == updated.name && st.out.value.price == updated.price
      && st.out.value.(name := s[id].name, price := s[id].price) == s[id]
      && OnlyChangedAt(s, st.store, id)
      && st.store[id] == st.out.value
  {
    match CurrentUserId(auth)
    case Err(e) => Step(Err(e), s)
    case Ok(owner) =>
      if !FoundFor(s, owner, id) then Step(Err(ResourceNotFound(MenuNotFound)), s)
      else
        var m := s[id].(name := updated.name, price := updated.price);
        Step(Ok(m), s[id := m])
  }

  /** deleteMenu: removes exactly the owner's menu `id`, or fails and removes nothing. */
  function DeleteMenuStep(s: map<string, Menu>, auth: Option<Authentication>, id: string): (st: Step<(), Menu>)
    ensures st.out.Ok? <==> CurrentUserId(auth).Ok? && FoundFor(s, CurrentUserId(auth).value, id)
    ensures CurrentUserId(auth).Err? ==> st == Step(Err(CurrentUserId(auth).error), s)
    ensures CurrentUserId(auth).Ok? && !FoundFor(s, CurrentUserId(auth).value, id) ==> st == Step(Err(ResourceNotFound(MenuNotFound)), s)
    ensures st.out.Ok? ==> st.store.Keys == s.Keys - {id} && forall k :: k in st.store ==> st.store[k] == s[k]
  {
    match CurrentUserId(auth)
    case Err(e) => Step(Err(e), s)
    case Ok(owner) =>
      if !FoundFor(s, owner, id) then Step(Err(ResourceNotFound(MenuNotFound)), s)
      else Step(Ok(()), s - {id})
  }

  /** Deleting a menu just created restores the store. */
  lemma {:induction false} DeleteUndoesCreate(s: map<string, Menu>, auth: Option<Authentication>, menu: Menu, newId: string, millis: int, now: int)
    requires newId !in s
    ensures DeleteMenuStep(CreateMenuStep(s, auth, menu, newId, millis, now).store, auth, newId).store == s
  {
    var created := CreateMenuStep(s, auth, menu, newId, millis, now).store;
    if CurrentUserId(auth).Ok? {
      assert FoundFor(created, CurrentUserId(auth).value, newId);
      var after := DeleteMenuStep(created, auth, newId).store;
      assert after.Keys == s.Keys;
    }
  }

  /** Updating twice with the same values is the same as updating once. */
  lemma UpdateMenuIdempotent(s: map<string, Menu>, auth: Option<Authentication>, id: string, updated: Menu)
    ensures var once := UpdateMenuStep(s, auth, id, updated);
      UpdateMenuStep(once.store, auth, id, updated) == once
  {
  }

  class MenuService {
    var menus: map<string, Menu>

    ghost predicate Valid()
      reads this
    {
      Stored(menus)
    }

    constructor ()
      ensures Valid() && menus == map[]
    {
      menus := map[];
    }

    /** The current user's menus, oldest first. */
    method GetMenus(auth: Option<Authentication>) returns (r: Result<seq<Menu>>)
      requires Valid()
      ensures CurrentUserId(auth).Err? ==> r == Err(CurrentUserId(auth).error)
      ensures CurrentUserId(auth).Ok? ==> r.Ok? && NoDup(r.value)
      ensures r.Ok? ==> forall m :: m in r.value <==> m in menus.Values && m.ownerId == CurrentUserId(auth).value
      ensures r.Ok? ==> forall i, j :: 0 <= i < j < |r.value| ==> r.value[i].createdAt <= r.value[j].createdAt
    {
      var current := CurrentUserId(auth);
      if current.Err? {
        r := Err(current.error);
        return;
      }
      var owner := current.value;
      var found := SelectSorted(menus, (m: Menu) => m.ownerId == owner, (m: Menu) => m.createdAt);
      r := Ok(found);
    }

    /** `newId` is the id the repository generates on save. */
    method CreateMenu(auth: Option<Authentication>, menu: Menu, newId: string, millis: int, now: int) returns (r: Result<Menu>)
      requires Valid() && newId !in menus
      modifies this
      ensures Valid()
      ensures Step(r, menus) == CreateMenuStep(old(menus), auth, menu, newId, millis, now)
    {
      var current := CurrentUserId(auth);
      if current.Err? {
        r := Err(current.error);
        return;
      }
      var m := menu.(id := None);
      m := m.(ownerId := current.value);
      m := m.(menuId := millis);
      m := m.(createdAt := now);
      m := m.(id := Some(newId));
      menus := menus[newId := m];
      r := Ok(m);
    }

    method UpdateMenu(auth: Option<Authentication>, id: string, updated: Menu) returns (r: Result<Menu>)
      requires Valid()
      modifies this
      ensures Valid()
      ensures Step(r, menus) == UpdateMenuStep(old(menus), auth, id, updated)
    {
      var current := CurrentUserId(auth);
      if current.Err? {
        r := Err(current.error);
        return;
      }
      if !FoundFor(menus, current.value, id) {
        r := Err(ResourceNotFound(MenuNotFound));
        return;
      }
      var m := menus[id];
      m := m.(name := updated.name);
      m := m.(price := updated.price);
      menus := menus[id := m];
      r := Ok(m);
    }

    method DeleteMenu(auth: Option<Authentication>, id: string) returns (r: Result<()>)
      requires Valid()
      modifies this
      ensures Valid()
      ensures Step(r, menus) == DeleteMenuStep(old(menus), auth, id)
    {
      var current := CurrentUserId(auth);
      if current.Err? {
        r := Err(current.error);
        return;
      }
      if !FoundFor(menus, current.value, id) {
        r := Err(ResourceNotFound(MenuNotFound));
        return;
      }
      menus := menus - {id};
      r := Ok(());
    }
  }
}
