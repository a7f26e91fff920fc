/** The cart page: a read-only view of the rows and the total, and the
    "Pay with Card" button that opens the payment widget. */
module Cart {
  import opened Wrappers
  import opened Text
  import opened Dom

  /** A row of the cart table body and the texts of its cells. */
  datatype Row = Row(elem: Elem, cells: seq<string>)

  /** The matches of the four locators for the "Pay with Card" button, in the
      order they are tried: button text, exact class, partial class, parent
      of the labelled span. */
  datatype PayButtons = PayButtons(
    byText: seq<Elem>, byExactClass: seq<Elem>, byPartialClass: seq<Elem>, bySpanParent: seq<Elem>)

  datatype CartPage = CartPage(
    ready: bool,           // the page finished loading after the cart button was clicked
    heading: seq<Elem>,    // the "Checkout" heading
    table: seq<Elem>,      // the striped cart table
    rows: seq<Row>,        // the rows of its body
    total: seq<Elem>,      // the `total` element
    payLabel: seq<Elem>,   // spans whose normalised text is exactly "Pay with Card"
    payButtons: PayButtons)

  function Strategies(b: PayButtons): (r: seq<seq<Elem>>)
    ensures |r| == 4
  {
    [b.byText, b.byExactClass, b.byPartialClass, b.bySpanParent]
  }

  /** `isCartPageLoaded`: the heading and the table are both displayed. A
      missing heading or table reads as not loaded rather than throwing. */
  function IsCartPageLoaded(cart: CartPage): (b: bool)
    ensures b <==> |cart.heading| > 0 && cart.heading[0].displayed && |cart.table| > 0 && cart.table[0].displayed
  {
    IsDisplayed(cart.heading) && IsDisplayed(cart.table)
  }

  /** `getCartItems`: the body rows once there is at least one and all are displayed. */
  function CartItems(cart: CartPage): (r: Result<seq<Row>, Error>)
    ensures r.Success? <==> |cart.rows| > 0 && forall i :: 0 <= i < |cart.rows| ==> cart.rows[i].elem.displayed
    ensures r.Success? ==> r.value == cart.rows
    ensures r.Failure? ==> r.error == Timeout(CartRows)
  {
    match WaitAll(cart.rows, (row: Row) => row.elem.displayed)
    case Some(rows) => Success(rows)
    case None => Failure(Timeout(CartRows))
  }

  /** `verifyCartItemCount`: compare the number of rows with the expectation. */
  function VerifyCartItemCount(cart: CartPage, expected: int): (r: Result<bool, Error>)
    ensures r == Success(true) <==> CartItems(cart).Success? && |cart.rows| == expected
    ensures r.Failure? <==> CartItems(cart).Failure?
  {
    match CartItems(cart)
    case Failure(e) => Failure(e)
    case Success(rows) => Success(|rows| == expected)
  }

  /** The rows wait never yields an empty list, so an empty cart can never
      be verified: it times out instead. */
  lemma EmptyCartNeverVerifies(cart: CartPage)
    ensures VerifyCartItemCount(cart, 0) != Success(true)
  {
  }

  /** `getCartItemDetails(index)`: the first two cell texts of that row. */
  function GetCartItemDetails(cart: CartPage, index: int): (r: Result<(string, string), Error>)
    ensures CartItems(cart).Failure? ==> r == Failure(Timeout(CartRows))
    ensures r.Success? ==> CartItems(cart).Success?
    ensures CartItems(cart).Success? && (index < 0 || index >= |cart.rows|) ==> r == Failure(IndexOutOfBounds(index))
    ensures r.Success? ==> (0 <= index < |cart.rows| && |cart.rows[index].cells| >= 2
      && r.value == (cart.rows[index].cells[0], cart.rows[index].cells[1]))
    ensures CartItems(cart).Success? && 0 <= index < |cart.rows| ==>
      (r.Success? <==> |cart.rows[index].cells| >= 2)
  {
    match CartItems(cart)
    case Failure(e) => Failure(e)
    case Success(rows) =>
      if index < 0 || index >= |rows| then Failure(IndexOutOfBounds(index))
      else if |rows[index].cells| < 2 then Failure(NoSuchElement(CartCell))
      else Success((rows[index].cells[0], rows[index].cells[1]))
  }

  /** The details of rows `from` onwards, stopping at the first row that lacks a cell. */
  function DetailsFrom(cart: CartPage, from: nat): (r: Result<seq<(string, string)>, Error>)
    requires CartItems(cart).Success?
    requires from <= |cart.rows|
    ensures r.Success? ==> |r.value| == |cart.rows| - from
    ensures r.Success? ==> forall i :: 0 <= i < |r.value| ==> GetCartItemDetails(cart, from + i) == Success(r.value[i])
    ensures r.Success? <==> forall i :: from <= i < |cart.rows| ==> |cart.rows[i].cells| >= 2
    decreases |cart.rows| - from
  {
    if from == |cart.rows| then Success([])
    else
      match GetCartItemDetails(cart, from)
      case Failure(e) => Failure(e)
      case Success(d) =>
        match DetailsFrom(cart, from + 1)
        case Failure(e) => Failure(e)
        case Success(ds) => Success([d] + ds)
  }

  /** `printAllCartItems`: the details of every row, in row order. */
  function AllCartItems(cart: CartPage): (r: Result<seq<(string, string)>, Error>)
    ensures r.Success? ==> CartItems(cart).Success? && |r.value| == |cart.rows|
    ensures r.Success? ==> forall i :: 0 <= i < |r.value| ==> GetCartItemDetails(cart, i) == Success(r.value[i])
    ensures CartItems(cart).Success? ==>
      (r.Success? <==> forall i :: 0 <= i < |cart.rows| ==> |cart.rows[i].cells| >= 2)
  {
    match CartItems(cart)
    case Failure(e) => Failure(e)
    case Success(_) => DetailsFrom(cart, 0)
  }

  /** `getTotalPriceValue`: all digits of the total text as one integer; a
      text without digits throws rather than reading as 0. */
  function GetTotalPriceValue(cart: CartPage): (r: Result<int, Error>)
    ensures !IsDisplayed(cart.total) ==> r == Failure(Timeout(CartTotal))
    ensures IsDisplayed(cart.total) && Digits(cart.total[0].text) == [] ==> r == Failure(NumberFormat(""))
    ensures r.Success? ==> (IsDisplayed(cart.total) && 0 <= r.value <= MaxInt32
      && r.value == DigitsValue(Digits(cart.total[0].text)))
    ensures IsDisplayed(cart.total) && Digits(cart.total[0].text) != [] ==>
      var v := DigitsValue(Digits(cart.total[0].text));
      (v <= MaxInt32 ==> r == Success(v)) && (v > MaxInt32 ==> r == Failure(NumberFormat(Digits(cart.total[0].text))))
  {
    match WaitVisible(cart.total)
    case None => Failure(Timeout(CartTotal))
    case Some(total) =>
      var digits := Digits(total.text);
      match ParseInt(digits)
      case None => Failure(NumberFormat(digits))
      case Some(v) => Success(v)
  }

  /** A total reading `<prefix><n><suffix>` with digit-free prefix and
      suffix, such as "Rupees 350" or "Total: Rs. 350 only", parses to n. */
  lemma TotalRoundTrip(cart: CartPage, prefix: string, n: nat, suffix: string)
    requires n <= MaxInt32
    requires IsDisplayed(cart.total)
    requires cart.total[0].text == prefix + NatToDigits(n) + suffix
    requires Digits(prefix) == [] && Digits(suffix) == []
    ensures GetTotalPriceValue(cart) == Success(n)
  {
    DigitsFramed(prefix, NatToDigits(n), suffix);
    DigitsValueOfNatToDigits(n);
  }

  /** `isTotalPriceDisplayed`: a missing total reads as not displayed. */
  function IsTotalPriceDisplayed(cart: CartPage): (b: bool)
    ensures b <==> |cart.total| > 0 && cart.total[0].displayed
  {
    IsDisplayed(cart.total)
  }

  /** `isTotalPriceValid`: the parsed total is positive; a parse failure propagates. */
  function IsTotalPriceValid(cart: CartPage): (r: Result<bool, Error>)
    ensures r == Success(true) <==> GetTotalPriceValue(cart).Success? && GetTotalPriceValue(cart).value > 0
    ensures r.Failure? <==> GetTotalPriceValue(cart).Failure?
  {
    match GetTotalPriceValue(cart)
    case Failure(e) => Failure(e)
    case Success(v) => Success(v > 0)
  }

  /** `clickPayWithCard`: the labelled span must exist; then the first of the
      four locators whose first match is clickable is scrolled to and clicked.
      The result is the position of the locator that won. */
  function ClickPayWithCard(cart: CartPage): (r: Effect<nat>)
    ensures |cart.payLabel| == 0 ==> r == Effect([], Failure(NoSuchElement(PayWithCardLabel)))
    ensures r.result.Success? ==> |cart.payLabel| > 0
    ensures r.result.Success? ==> var k := r.result.value;
      k < 4 && WaitClickable(Strategies(cart.payButtons)[k]).Some?
      && (forall j :: 0 <= j < k ==> WaitClickable(Strategies(cart.payButtons)[j]).None?)
      && r.actions == [ScrollTo(Strategies(cart.payButtons)[k][0].id), ClickElement(Strategies(cart.payButtons)[k][0].id)]
    ensures |cart.payLabel| > 0 ==>
      (r.result == Failure(PayButtonNotFound) <==>
       forall j :: 0 <= j < 4 ==> WaitClickable(Strategies(cart.payButtons)[j]).None?)
    ensures r.result.Failure? ==> r.actions == []
  {
    if |cart.payLabel| == 0 then Effect([], Failure(NoSuchElement(PayWithCardLabel)))
    else
      var strategies := Strategies(cart.payButtons);
      match FirstIndex(strategies, (ms: seq<Elem>) => WaitClickable(ms).Some?)
      case None => Effect([], Failure(PayButtonNotFound))
      case Some(k) =>
        var button := strategies[k][0];
        Effect([ScrollTo(button.id), ClickElement(button.id)], Success(k))
  }

  /** `isPayWithCardButtonDisplayed`: the primary locator counts only when its
      match is displayed; after that, the first alternative with any match
      decides by the displayed state of that match. */
  function IsPayWithCardButtonDisplayed(cart: CartPage): (r: bool)
    ensures var alts := Strategies(cart.payButtons)[1..];
      r <==> (IsDisplayed(cart.payButtons.byText)
        || exists k :: 0 <= k < 3 && |alts[k]| > 0 && alts[k][0].displayed
             && forall j :: 0 <= j < k ==> |alts[j]| == 0)
  {
    var alts := Strategies(cart.payButtons)[1..];
    if IsDisplayed(cart.payButtons.byText) then true
    else
      match FirstIndex(alts, (ms: seq<Elem>) => |ms| > 0)
      case Some(k) => alts[k][0].displayed
      case None => false
  }

  /** The decision is not "any locator shows a displayed button": a hidden
      match of an earlier alternative hides a displayed match of a later one. */
  lemma HiddenEarlierMatchMasksLaterButton(cart: CartPage)
    requires cart.payButtons.byText == []
    requires |cart.payButtons.byExactClass| > 0 && !cart.payButtons.byExactClass[0].displayed
    requires IsDisplayed(cart.payButtons.byPartialClass)
    ensures !IsPayWithCardButtonDisplayed(cart)
  {
    var alts := Strategies(cart.payButtons)[1..];
    assert alts[0] == cart.payButtons.byExactClass;
  }
}
