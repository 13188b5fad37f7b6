/** The order-detail page's total: each ordered item priced by the first menu of the same name. */
module OrderDetail {
  import opened Common

  datatype MenuItem = MenuItem(id: int, name: string, price: int)
  datatype OrderLine = OrderLine(id: int, name: string, quantity: int)

  /** The index of the first menu named `name`, or |menus| when there is none. */
  function FirstIndex(menus: seq<MenuItem>, name: string): (k: nat)
    ensures k <= |menus|
    ensures k < |menus| ==> menus[k].name == name
    ensures forall l :: 0 <= l < k ==> menus[l].name != name
  {
    if menus == [] then 0
    else if menus[0].name == name then 0
    else 1 + FirstIndex(menus[1..], name)
  }

  /** Array.prototype.find on the menu by name: the first menu whose name is equal. */
  function FindByName(menus: seq<MenuItem>, name: string): (r: Option<MenuItem>)
    ensures r.None? <==> forall k :: 0 <= k < |menus| ==> menus[k].name != name
    ensures r.Some? ==> exists k ::
      && 0 <= k < |menus| && menus[k] == r.value && menus[k].name == name
      && forall l :: 0 <= l < k ==> menus[l].name != name
  {
    var k := FirstIndex(menus, name);
    if k < |menus| then Some(menus[k]) else None
  }

  /** What one ordered item adds to the total. */
  function LineAmount(menus: seq<MenuItem>, item: OrderLine): (r: int)
    ensures (forall k :: 0 <= k < |menus| ==> menus[k].name != item.name) ==> r == 0
    ensures forall k :: 0 <= k < |menus| && menus[k].name == item.name && (forall l :: 0 <= l < k ==> menus[l].name != item.name) ==>
      r == menus[k].price * item.quantity
  {
    match FindByName(menus, item.name)
    case Some(m) => m.price * item.quantity
    case None => 0
  }

  /** The reduce from the left, starting at 0. */
  function TotalPrice(menus: seq<MenuItem>, items: seq<OrderLine>): (r: int)
    ensures menus == [] ==> r == 0
    ensures |items| == 1 ==> r == LineAmount(menus, items[0])
  {
    if items == [] then 0 else TotalPrice(menus, items[..|items| - 1]) + LineAmount(menus, items[|items| - 1])
  }

  /** With non-negative prices and quantities the total is never negative. */
  lemma {:induction false} TotalPriceNonNegative(menus: seq<MenuItem>, items: seq<OrderLine>)
    requires forall k :: 0 <= k < |menus| ==> menus[k].price >= 0
    requires forall k :: 0 <= k < |items| ==> items[k].quantity >= 0
    ensures TotalPrice(menus, items) >= 0
  {
    if items != [] {
      var init := items[..|items| - 1];
      var last := items[|items| - 1];
      assert forall k :: 0 <= k < |init| ==> init[k] == items[k];
      TotalPriceNonNegative(menus, init);
      match FindByName(menus, last.name)
      case Some(m) =>
        assert m in menus;
        assert m.price * last.quantity >= 0 by { MulNonNegative(m.price, last.quantity); }
      case None =>
    }
  }

  lemma MulNonNegative(a: int, b: int)
    requires a >= 0 && b >= 0
    ensures a * b >= 0
  {
  }

  /** An item whose name is on no menu adds nothing. */
  lemma UnmatchedAddsNothing(menus: seq<MenuItem>, item: OrderLine)
    requires forall k :: 0 <= k < |menus| ==> menus[k].name != item.name
    ensures LineAmount(menus, item) == 0
  {
  }

  /** An empty order totals 0. */
  lemma EmptyOrderTotal(menus: seq<MenuItem>)
    ensures TotalPrice(menus, []) == 0
  {
  }

  /** The total of two orders side by side is the sum of their totals. */
  lemma {:induction false} TotalPriceAppend(menus: seq<MenuItem>, a: seq<OrderLine>, b: seq<OrderLine>)
    ensures TotalPrice(menus, a + b) == TotalPrice(menus, a) + TotalPrice(menus, b)
  {
    if b == [] {
      assert a + b == a;
    } else {
      var init, last := b[..|b| - 1], b[|b| - 1];
      assert b == init + [last];
      assert a + b == (a + init) + [last];
      TotalPriceAppend(menus, a, init);
      TotalPriceSnoc(menus, a + init, last);
      TotalPriceSnoc(menus, init, last);
    }
  }

  lemma TotalPriceSnoc(menus: seq<MenuItem>, items: seq<OrderLine>, last: OrderLine)
    ensures TotalPrice(menus, items + [last]) == TotalPrice(menus, items) + LineAmount(menus, last)
  {
    var c := items + [last];
    assert c[..|c| - 1] == items;
  }

  /** The page's hard-coded menu: six entries, all with the same placeholder name. */
  const SampleName := "메뉴명"
  const SampleMenus := [MenuItem(1, SampleName, 10000), MenuItem(2, SampleName, 15000),
                        MenuItem(3, SampleName, 12000), MenuItem(4, SampleName, 18000),
                        MenuItem(5, SampleName, 20000), MenuItem(6, SampleName, 16000)]
  const SampleOrder := [OrderLine(1, SampleName, 1), OrderLine(2, SampleName, 1),
                        OrderLine(3, SampleName, 1), OrderLine(4, SampleName, 1)]

  /** Every item finds the first menu, so the placeholder order is 4 × 10000. */
  lemma SampleTotal()
    ensures TotalPrice(SampleMenus, SampleOrder) == 40000
  {
    assert FirstIndex(SampleMenus, SampleName) == 0;
    assert forall k :: 0 <= k < |SampleOrder| ==> LineAmount(SampleMenus, SampleOrder[k]) == 10000;
    assert SampleOrder[..1][..0] == [];
    assert TotalPrice(SampleMenus, SampleOrder[..1]) == 10000;
    assert SampleOrder[..2][..1] == SampleOrder[..1];
    assert TotalPrice(SampleMenus, SampleOrder[..2]) == 20000;
    assert SampleOrder[..3][..2] == SampleOrder[..2];
    assert TotalPrice(SampleMenus, SampleOrder[..3]) == 30000;
    assert SampleOrder[..3] == SampleOrder[..|SampleOrder| - 1];
  }
}
