/** The settings page: the table-count stepper and its saved value, the price field formatter,
    and the menu list that the add, edit and delete handlers rewrite. React state is modelled
    as values: each handler takes the current state and returns the next one. */
module SettingPage {
  import opened Common
  import opened JsText

  /** A menu as the page lists it. */
  datatype Menu = Menu(id: string, name: string, price: int)

  /** A menu as the server returns it; either identifier may be missing. */
  datatype ApiMenu = ApiMenu(id: Option<string>, menuId: Option<int>, name: string, price: int)

  /** The body of a create or update request. */
  datatype MenuRequest = MenuRequest(name: string, price: int)

  /** A call to the menu API: create with a body, update the menu with id `id`, delete by id. */
  datatype ApiCall = Create(body: MenuRequest) | Update(id: string, body: MenuRequest) | Delete(id: string)

  datatype SettingState = SettingState(
    tableCount: JsNumber,
    menus: seq<Menu>,
    menuName: string,
    menuPrice: string,
    editingMenuId: Option<string>,
    editModalOpen: bool,
    editMenuName: string,
    editMenuPrice: string)

  /** The next state, the alert shown (if any) and the request sent to the server (if any). */
  datatype Handled = Handled(state: SettingState, alert: Option<string>, sent: Option<ApiCall>)

  const MissingFieldsAlert := "메뉴명과 금액을 모두 입력해주세요."
  const InvalidPriceAlert := "올바른 금액을 입력해주세요."
  const AddFailedAlert := "메뉴 등록에 실패했습니다."
  const EditFailedAlert := "메뉴 수정에 실패했습니다."
  const DeleteFailedAlert := "메뉴 삭제에 실패했습니다."
  const TableCountKey := "tableCount"

  /** handleDecrease: one table fewer, but never below one. */
  function Decrease(count: JsNumber): (r: JsNumber)
    ensures count.Num? && count.value > 1 ==> r == Num(count.value - 1)
    ensures !(count.Num? && count.value > 1) ==> r == count
    ensures count.Num? && count.value >= 1 ==> r.Num? && r.value >= 1
  {
    match count
    case Num(v) => if v > 1 then Num(v - 1) else count
    case NaN => NaN
  }

  /** handleIncrease: one table more. */
  function Increase(count: JsNumber): (r: JsNumber)
    ensures count.Num? ==> r == Num(count.value + 1)
    ensures count.NaN? ==> r.NaN?
  {
    match count
    case Num(v) => Num(v + 1)
    case NaN => NaN
  }

  /** The stepper's two buttons undo each other on any count of at least one. */
  lemma DecreaseUndoesIncrease(count: JsNumber)
    requires count.Num? && count.value >= 1
    ensures Decrease(Increase(count)) == count
  {
  }

  /** handleConfirmSave writes the count as text under its key. */
  function ConfirmSave(storage: map<string, string>, count: JsNumber): (r: map<string, string>)
    ensures TableCountKey in r && r[TableCountKey] == NumberToString(count)
    ensures forall k :: k in storage && k != TableCountKey ==> k in r && r[k] == storage[k]
    ensures r.Keys == storage.Keys + {TableCountKey}
  {
    storage[TableCountKey := NumberToString(count)]
  }

  /** The page's first effect: a stored non-empty count replaces the initial one, parsed as decimal. */
  function LoadTableCount(storage: map<string, string>, initial: JsNumber): (r: JsNumber)
    ensures TableCountKey !in storage || storage[TableCountKey] == "" ==> r == initial
    ensures TableCountKey in storage && storage[TableCountKey] != "" ==> r == ParseInt(storage[TableCountKey])
  {
    if TableCountKey in storage && storage[TableCountKey] != "" then ParseInt(storage[TableCountKey]) else initial
  }

  /** Reloading the page after a save shows the saved count again, whatever it was. */
  lemma LoadAfterSave(storage: map<string, string>, count: JsNumber, initial: JsNumber)
    ensures LoadTableCount(ConfirmSave(storage, count), initial) == count
  {
    ParseIntOfNumberToString(count);
    assert NumberToString(count) != "" by {
      if count.Num? && count.value < 0 {
        assert NumberToString(count)[0] == '-';
      }
    }
  }

  /** handlePriceChange: the new text of a price field after the user typed `value` into a
      field that held `field`. Input that is neither empty nor all digits once commas are
      removed is refused and the field keeps its text. */
  function PriceInput(field: string, value: string): (r: string)
    ensures var digits := RemoveChar(value, ',');
      && (digits != "" && !AllDigits(digits) ==> r == field)
      && (digits == "" ==> r == "")
      && (digits != "" && AllDigits(digits) ==> r == Grouped(DigitsValue(digits)))
      && (digits != "" && AllDigits(digits) ==> r != "" && ParseInt(RemoveChar(r, ',')) == ParseInt(digits))
  {
    var digits := RemoveChar(value, ',');
    if digits == "" then ""
    else if AllDigits(digits) then
      var r := Grouped(DigitsValue(digits));
      GroupedRoundTrip(DigitsValue(digits));
      ParseIntOfDigits(digits);
      r
    else field
  }

  /** A price that is already grouped is left exactly as it is. */
  lemma PriceInputFixesGrouped(field: string, n: nat)
    ensures PriceInput(field, Grouped(n)) == Grouped(n)
  {
    UngroupGrouped(n);
    DecimalValue(n);
  }

  /** The two checks shared by handleAddMenu and handleEditMenu. */
  datatype Checked = Rejected(alert: string) | Accepted(request: MenuRequest)

  function CheckMenuInput(name: string, price: string): (r: Checked)
    ensures r == Rejected(MissingFieldsAlert) <==> Trim(name) == "" || Trim(price) == ""
    ensures r == Rejected(InvalidPriceAlert) <==>
      Trim(name) != "" && Trim(price) != "" && !(ParseInt(RemoveChar(price, ',')).Num? && ParseInt(RemoveChar(price, ',')).value > 0)
    ensures r.Accepted? ==>
      && r.request.name == Trim(name) && r.request.name != ""
      && Num(r.request.price) == ParseInt(RemoveChar(price, ',')) && r.request.price > 0
  {
    if Trim(name) == "" || Trim(price) == "" then Rejected(MissingFieldsAlert)
    else
      var parsed := ParseInt(RemoveChar(price, ','));
      if parsed.NaN? || parsed.value <= 0 then Rejected(InvalidPriceAlert)
      else Accepted(MenuRequest(Trim(name), parsed.value))
  }

  /** A positive price shown with comma grouping passes the checks and is sent as that number. */
  lemma GroupedPriceAccepted(name: string, n: nat)
    requires Trim(name) != "" && n > 0
    ensures CheckMenuInput(name, Grouped(n)) == Accepted(MenuRequest(Trim(name), n))
  {
    var g := Grouped(n);
    DigitIsNotSpace(g[0]);
    assert !Blank(g);
    assert Trim(g) != "";
    GroupedRoundTrip(n);
    assert ParseInt(RemoveChar(g, ',')) == Num(n);
  }

  /** The id the page keeps for a server menu: its id, else its numeric menuId as text, else "". */
  function MenuIdOf(m: ApiMenu): (r: string)
    ensures m.id.Some? ==> r == m.id.value
    ensures m.id.None? && m.menuId.Some? ==> r == NumberToString(Num(m.menuId.value))
    ensures m.id.None? && m.menuId.None? ==> r == ""
  {
    match m.id
    case Some(id) => id
    case None => match m.menuId
      case Some(n) => NumberToString(Num(n))
      case None => ""
  }

  function FromApi(m: ApiMenu): (r: Menu)
    ensures r.id == MenuIdOf(m) && r.name == m.name && r.price == m.price
  {
    Menu(MenuIdOf(m), m.name, m.price)
  }

  /** handleAddMenu, where `reply` is the server's answer to the request sent, None when it failed. */
  function AddMenu(st: SettingState, reply: Option<ApiMenu>): (h: Handled)
    ensures CheckMenuInput(st.menuName, st.menuPrice).Rejected? ==>
      h == Handled(st, Some(CheckMenuInput(st.menuName, st.menuPrice).alert), None)
    ensures CheckMenuInput(st.menuName, st.menuPrice).Accepted? ==>
      h.sent == Some(Create(CheckMenuInput(st.menuName, st.menuPrice).request))
    ensures h.sent.Some? && reply.Some? ==>
      h.alert == None && h.state == st.(menus := st.menus + [FromApi(reply.value)], menuName := "", menuPrice := "")
    ensures h.sent.Some? && reply.None? ==> h == Handled(st, Some(AddFailedAlert), h.sent)
    ensures |h.state.menus| == |st.menus| || |h.state.menus| == |st.menus| + 1
  {
    match CheckMenuInput(st.menuName, st.menuPrice)
    case Rejected(alert) => Handled(st, Some(alert), None)
    case Accepted(request) =>
      match reply
      case Some(created) =>
        Handled(st.(menus := st.menus + [FromApi(created)], menuName := "", menuPrice := ""), None, Some(Create(request)))
      case None => Handled(st, Some(AddFailedAlert), Some(Create(request)))
  }

  /** handleOpenEditModal: the edit fields start from the menu, its price with comma grouping,
      so that the price, negative or not, reads back as the same number once the commas are removed. */
  function OpenEditModal(st: SettingState, menu: Menu): (r: SettingState)
    ensures r == st.(editingMenuId := Some(menu.id), editMenuName := menu.name,
                     editMenuPrice := r.editMenuPrice, editModalOpen := true)
    ensures r.editMenuPrice == LocaleString(menu.price)
    ensures ParseInt(RemoveChar(r.editMenuPrice, ',')) == Num(menu.price)
  {
    var r := st.(editingMenuId := Some(menu.id), editMenuName := menu.name,
                 editMenuPrice := LocaleString(menu.price), editModalOpen := true);
    LocaleStringReadBack(menu.price);
    r
  }

  /** The entries with id `id` take the new name and price; the list keeps its length and order. */
  function RenameMenus(menus: seq<Menu>, id: string, name: string, price: int): (r: seq<Menu>)
    ensures |r| == |menus|
    ensures forall i :: 0 <= i < |menus| ==>
      r[i] == if menus[i].id == id then menus[i].(name := name, price := price) else menus[i]
  {
    if menus == [] then []
    else
      var m := menus[0];
      [if m.id == id then m.(name := name, price := price) else m] + RenameMenus(menus[1..], id, name, price)
  }

  /** handleEditMenu, where `reply` is the server's answer to the update of `editingMenuId`. */
  function EditMenu(st: SettingState, reply: Option<ApiMenu>): (h: Handled)
    ensures CheckMenuInput(st.editMenuName, st.editMenuPrice).Rejected? ==>
      h == Handled(st, Some(CheckMenuInput(st.editMenuName, st.editMenuPrice).alert), None)
    ensures CheckMenuInput(st.editMenuName, st.editMenuPrice).Accepted? && st.editingMenuId.None? ==>
      h == Handled(st, None, None)
    ensures CheckMenuInput(st.editMenuName, st.editMenuPrice).Accepted? && st.editingMenuId.Some? ==>
      h.sent == Some(Update(st.editingMenuId.value, CheckMenuInput(st.editMenuName, st.editMenuPrice).request))
    ensures h.sent.Some? && reply.Some? ==>
      h.alert == None && h.state == st.(menus := RenameMenus(st.menus, st.editingMenuId.value, reply.value.name, reply.value.price),
        editModalOpen := false, editingMenuId := None, editMenuName := "", editMenuPrice := "")
    ensures h.sent.Some? && reply.None? ==> h == Handled(st, Some(EditFailedAlert), h.sent)
    ensures |h.state.menus| == |st.menus|
  {
    match CheckMenuInput(st.editMenuName, st.editMenuPrice)
    case Rejected(alert) => Handled(st, Some(alert), None)
    case Accepted(request) =>
      match st.editingMenuId
      case None => Handled(st, None, None)
      case Some(id) =>
        match reply
        case Some(updated) =>
          Handled(st.(menus := RenameMenus(st.menus, id, updated.name, updated.price),
                      editModalOpen := false, editingMenuId := None, editMenuName := "", editMenuPrice := ""),
                  None, Some(Update(id, request)))
        case None => Handled(st, Some(EditFailedAlert), Some(Update(id, request)))
  }

  /** Opening the edit dialog on a priced menu and saving it unchanged sends that menu's price back. */
  lemma EditUnchangedSendsSamePrice(st: SettingState, menu: Menu, reply: Option<ApiMenu>)
    requires menu.price > 0 && Trim(menu.name) != ""
    ensures EditMenu(OpenEditModal(st, menu), reply).sent == Some(Update(menu.id, MenuRequest(Trim(menu.name), menu.price)))
  {
    GroupedPriceAccepted(menu.name, menu.price);
  }

  /** The list without any entry whose id is `id`, the rest in order. */
  function WithoutMenu(menus: seq<Menu>, id: string): (r: seq<Menu>)
    ensures |r| <= |menus|
    ensures forall m :: m in r <==> m in menus && m.id != id
  {
    if menus == [] then []
    else (if menus[0].id == id then [] else [menus[0]]) + WithoutMenu(menus[1..], id)
  }

  /** Filtering distributes over concatenation, so the order of the kept entries is the old order. */
  lemma {:induction false} WithoutMenuAppend(a: seq<Menu>, b: seq<Menu>, id: string)
    ensures WithoutMenu(a + b, id) == WithoutMenu(a, id) + WithoutMenu(b, id)
  {
    if a == [] {
      assert a + b == b;
    } else {
      assert (a + b)[0] == a[0] && (a + b)[1..] == a[1..] + b;
      WithoutMenuAppend(a[1..], b, id);
    }
  }

  /** Deleting an id that is not listed leaves the list exactly as it was. */
  lemma {:induction false} WithoutAbsentMenu(menus: seq<Menu>, id: string)
    requires forall i :: 0 <= i < |menus| ==> menus[i].id != id
    ensures WithoutMenu(menus, id) == menus
  {
    if menus != [] {
      WithoutAbsentMenu(menus[1..], id);
    }
  }

  /** handleDeleteMenu: nothing happens unless the user confirms; then the delete of `menuId` is
      sent, the entries with that id go when the server call succeeds, and an alert is shown when
      it fails. */
  function DeleteMenu(st: SettingState, menuId: string, confirmed: bool, succeeded: bool): (h: Handled)
    ensures !confirmed ==> h == Handled(st, None, None)
    ensures confirmed ==> h.sent == Some(Delete(menuId))
    ensures confirmed && succeeded ==> h.alert == None && h.state == st.(menus := WithoutMenu(st.menus, menuId))
    ensures confirmed && !succeeded ==> h.alert == Some(DeleteFailedAlert) && h.state == st
  {
    if !confirmed then Handled(st, None, None)
    else if succeeded then Handled(st.(menus := WithoutMenu(st.menus, menuId)), None, Some(Delete(menuId)))
    else Handled(st, Some(DeleteFailedAlert), Some(Delete(menuId)))
  }
}
