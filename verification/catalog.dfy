/** The two catalog pages. Their page objects are line-for-line duplicates
    that differ only in the heading, the two keywords and the wording of the
    not-found message, so one module models both, parameterised by `Category`. */
module Catalog {
  import opened Wrappers
  import opened Text
  import opened Dom

  datatype Category = Moisturizers | Sunscreens

  /** A `<p>` inside a product container: its class attribute ("" when
      absent) and its text. */
  datatype Paragraph = Paragraph(cls: string, text: string)

  /** A product container: whether it is displayed, its paragraphs and its
      buttons, each in document order. */
  datatype Container = Container(displayed: bool, paragraphs: seq<Paragraph>, buttons: seq<Elem>)

  datatype CatalogPage = CatalogPage(
    ready: bool,                        // document.readyState reached "complete"
    heading: seq<Elem>,                 // the category heading
    containers: seq<Container>,         // matches of the primary container locator
    addButtonParents: seq<Container>,   // the parent of each "Add" button on the page, in order
    badge: seq<Elem>,                   // the cart badge
    cartButton: seq<Elem>)              // the button leading to the cart

  /** A product record built by one scan; `addButton` is its action handle. */
  datatype Product = Product(name: string, price: nat, addButton: Elem)

  const ExactNameClass: string := "font-weight-bold top-space-10"
  const NameClassFragment: string := "font-weight-bold"
  const PriceMarker: string := "Price:"

  /** The two keywords a category must buy, in the order they are added. */
  function RequiredKeywords(c: Category): (string, string)
  {
    match c
    case Moisturizers => ("Aloe", "Almond")
    case Sunscreens => ("SPF-50", "SPF-30")
  }

  /** The message of the exception thrown when nothing matches `keyword`. */
  function NotFoundMessage(c: Category, keyword: string): string
  {
    match c
    case Moisturizers => "No product found containing: " + keyword
    case Sunscreens => "No product found with SPF level: " + keyword
  }

  // ---------------------------------------------------------------- scanning

  /** The container list: the primary locator when its wait succeeds (every
      match displayed, at least one), otherwise the parents of the Add buttons. */
  function ProductContainers(page: CatalogPage): (cs: seq<Container>)
    ensures (|page.containers| > 0 && forall i :: 0 <= i < |page.containers| ==> page.containers[i].displayed)
      ==> cs == page.containers
    ensures (|page.containers| == 0 || exists i :: 0 <= i < |page.containers| && !page.containers[i].displayed)
      ==> cs == page.addButtonParents
  {
    match WaitAll(page.containers, (c: Container) => c.displayed)
    case Some(cs) => cs
    case None => page.addButtonParents
  }

  /** The three-tier name cascade: the exact name class, then a class
      containing `font-weight-bold`, then the first non-empty paragraph
      without "Price"; "" when all three find nothing. */
  function ProductName(c: Container): (name: string)
    ensures name == "" || exists i :: 0 <= i < |c.paragraphs| && name == c.paragraphs[i].text
    ensures (forall i :: 0 <= i < |c.paragraphs| ==> c.paragraphs[i].text == "") ==> name == ""
  {
    var ps := c.paragraphs;
    match FirstIndex(ps, (p: Paragraph) => p.cls == ExactNameClass)
    case Some(i) => ps[i].text
    case None =>
      match FirstIndex(ps, (p: Paragraph) => Contains(p.cls, NameClassFragment))
      case Some(i) => ps[i].text
      case None =>
        match FirstIndex(ps, (p: Paragraph) => !Contains(p.text, "Price") && p.text != "")
        case Some(i) => ps[i].text
        case None => ""
  }

  /** Which tier of the name cascade decides, stated over paragraph positions. */
  lemma NameCascade(c: Container)
    ensures var ps := c.paragraphs;
      forall i :: 0 <= i < |ps| && ps[i].cls == ExactNameClass
        && (forall j :: 0 <= j < i ==> ps[j].cls != ExactNameClass)
        ==> ProductName(c) == ps[i].text
    ensures var ps := c.paragraphs;
      (forall j :: 0 <= j < |ps| ==> ps[j].cls != ExactNameClass) ==>
      forall i :: 0 <= i < |ps| && Contains(ps[i].cls, NameClassFragment)
        && (forall j :: 0 <= j < i ==> !Contains(ps[j].cls, NameClassFragment))
        ==> ProductName(c) == ps[i].text
    ensures var ps := c.paragraphs;
      (forall j :: 0 <= j < |ps| ==> ps[j].cls != ExactNameClass && !Contains(ps[j].cls, NameClassFragment)) ==>
      forall i :: 0 <= i < |ps| && !Contains(ps[i].text, "Price") && ps[i].text != ""
        && (forall j :: 0 <= j < i ==> Contains(ps[j].text, "Price") || ps[j].text == "")
        ==> ProductName(c) == ps[i].text
    ensures var ps := c.paragraphs;
      (forall j :: 0 <= j < |ps| ==>
         (ps[j].cls != ExactNameClass && !Contains(ps[j].cls, NameClassFragment)
          && (Contains(ps[j].text, "Price") || ps[j].text == "")))
      ==> ProductName(c) == ""
  {
  }

  /** Paragraph `i` is the first one of the container that mentions "Price:",
      the one the price lookup finds. */
  predicate FirstPriceParagraph(c: Container, i: int)
  {
    && 0 <= i < |c.paragraphs|
    && Contains(c.paragraphs[i].text, PriceMarker)
    && forall j :: 0 <= j < i ==> !Contains(c.paragraphs[j].text, PriceMarker)
  }

  /** Button `j` is the first one of the container whose text mentions "Add". */
  predicate FirstAddButton(c: Container, j: int)
  {
    && 0 <= j < |c.buttons|
    && Contains(c.buttons[j].text, "Add")
    && forall k :: 0 <= k < j ==> !Contains(c.buttons[k].text, "Add")
  }

  /** The digits of a price text form a number `parseInt` accepts. */
  predicate PriceFits(text: string)
  {
    Digits(text) != [] && DigitsValue(Digits(text)) <= MaxInt32
  }

  /** The price: every digit of the first paragraph mentioning "Price:",
      parsed as one integer; no such paragraph, no digit, or more than 32 bits
      is a failure. */
  function PriceOf(c: Container): (r: Option<nat>)
    ensures forall i :: FirstPriceParagraph(c, i) ==>
      (r.Some? <==> PriceFits(c.paragraphs[i].text))
      && (r.Some? ==> r.value == DigitsValue(Digits(c.paragraphs[i].text)))
    ensures r.Some? ==> exists i :: FirstPriceParagraph(c, i) && PriceFits(c.paragraphs[i].text)
    ensures r.Some? ==> r.value <= MaxInt32
    ensures (forall i :: 0 <= i < |c.paragraphs| ==> !Contains(c.paragraphs[i].text, PriceMarker)) ==> r.None?
  {
    match FirstIndex(c.paragraphs, (p: Paragraph) => Contains(p.text, PriceMarker))
    case None => None
    case Some(i) =>
      assert FirstPriceParagraph(c, i);
      var digits := Digits(c.paragraphs[i].text);
      match ParseInt(digits)
      case None => None
      case Some(v) => Some(v)
  }

  /** The first button of the container whose text mentions "Add". */
  function AddButtonOf(c: Container): (r: Option<Elem>)
    ensures forall j :: FirstAddButton(c, j) ==> r == Some(c.buttons[j])
    ensures r.Some? ==> exists j :: FirstAddButton(c, j) && r.value == c.buttons[j]
    ensures r.None? <==> forall i :: 0 <= i < |c.buttons| ==> !Contains(c.buttons[i].text, "Add")
  {
    match FirstIndex(c.buttons, (b: Elem) => Contains(b.text, "Add"))
    case None => None
    case Some(i) =>
      assert FirstAddButton(c, i);
      Some(c.buttons[i])
  }

  /** One container's record, or nothing when its price or Add button is
      missing. The record is the cascaded name, the value of the digits of
      the first price paragraph, and the first Add button. */
  function ScanContainer(c: Container): (r: Option<Product>)
    ensures forall i, j :: FirstPriceParagraph(c, i) && FirstAddButton(c, j) ==>
      (r.Some? <==> PriceFits(c.paragraphs[i].text))
      && (r.Some? ==> r.value == Product(ProductName(c), DigitsValue(Digits(c.paragraphs[i].text)), c.buttons[j]))
    ensures r.Some? <==> exists i, j :: FirstPriceParagraph(c, i) && FirstAddButton(c, j) && PriceFits(c.paragraphs[i].text)
  {
    match PriceOf(c)
    case None => None
    case Some(price) =>
      match AddButtonOf(c)
      case None => None
      case Some(button) => Some(Product(ProductName(c), price, button))
  }

  /** The text `Price: <prefix><n><suffix>` mentions the marker, and its
      digits are exactly those of n when prefix and suffix hold none. */
  lemma PriceTextDigits(prefix: string, n: nat, suffix: string)
    requires Digits(prefix) == [] && Digits(suffix) == []
    ensures var text := PriceMarker + " " + prefix + NatToDigits(n) + suffix;
      Contains(text, PriceMarker) && Digits(text) == NatToDigits(n)
  {
    MarkerHasNoDigits();
    FramedDigits(PriceMarker + " ", prefix, NatToDigits(n), suffix);
    StartsWithMarker(PriceMarker, " ", prefix, NatToDigits(n), suffix);
  }

  lemma MarkerHasNoDigits()
    ensures Digits(PriceMarker + " ") == []
  {
    KeepNoneOf(PriceMarker + " ", IsDigit);
  }

  /** A text that starts with a marker contains it. */
  lemma StartsWithMarker(marker: string, a: string, b: string, c: string, d: string)
    ensures Contains(marker + a + b + c + d, marker)
  {
    ContainsInfix([], marker, a + b + c + d);
    assert [] + marker + (a + b + c + d) == marker + a + b + c + d;
  }

  /** Digits framed by digit-free text are all the digits of the whole. */
  lemma FramedDigits(marker: string, prefix: string, digits: string, suffix: string)
    requires AllDigits(digits)
    requires Digits(marker) == [] && Digits(prefix) == [] && Digits(suffix) == []
    ensures Digits(marker + prefix + digits + suffix) == digits
  {
    KeepAppend(marker, prefix, IsDigit);
    DigitsFramed(marker + prefix, digits, suffix);
  }

  /** A container whose first price paragraph reads `Price: <prefix><n><suffix>`
      with digit-free prefix and suffix, such as "Price: Rs. 500", and which
      has an Add button, yields the record priced n with its first Add button. */
  lemma PriceTextRoundTrip(c: Container, i: nat, j: nat, prefix: string, n: nat, suffix: string)
    requires n <= MaxInt32
    requires i < |c.paragraphs| && forall k :: 0 <= k < i ==> !Contains(c.paragraphs[k].text, PriceMarker)
    requires c.paragraphs[i].text == PriceMarker + " " + prefix + NatToDigits(n) + suffix
    requires Digits(prefix) == [] && Digits(suffix) == []
    requires FirstAddButton(c, j)
    ensures ScanContainer(c) == Some(Product(ProductName(c), n, c.buttons[j]))
  {
    PriceTextDigits(prefix, n, suffix);
    DigitsValueOfNatToDigits(n);
    assert FirstPriceParagraph(c, i);
  }

  /** The parsed values of the items that parse, in order; the others are
      skipped. */
  function Collect<C, P>(cs: seq<C>, parse: C -> Option<P>): (ps: seq<P>)
    ensures |ps| <= |cs|
    ensures |ps| == |cs| <==> forall i :: 0 <= i < |cs| ==> parse(cs[i]).Some?
  {
    if cs == [] then []
    else
      var rest := Collect(cs[1..], parse);
      assert forall i :: 1 <= i < |cs| ==> cs[i] == cs[1..][i - 1];
      match parse(cs[0])
      case None => rest
      case Some(p) => [p] + rest
  }

  lemma {:induction false} CollectMembers<C, P>(cs: seq<C>, parse: C -> Option<P>)
    ensures forall p :: p in Collect(cs, parse) <==> exists i :: 0 <= i < |cs| && parse(cs[i]) == Some(p)
  {
    if cs != [] {
      CollectMembers(cs[1..], parse);
      assert forall i :: 1 <= i < |cs| ==> cs[i] == cs[1..][i - 1];
      forall p | exists i :: 0 <= i < |cs| && parse(cs[i]) == Some(p)
        ensures p in Collect(cs, parse)
      {
        var i :| 0 <= i < |cs| && parse(cs[i]) == Some(p);
        if i > 0 {
          assert parse(cs[1..][i - 1]) == Some(p);
        }
      }
    }
  }

  lemma {:induction false} CollectAppend<C, P>(a: seq<C>, b: seq<C>, parse: C -> Option<P>)
    ensures Collect(a + b, parse) == Collect(a, parse) + Collect(b, parse)
  {
    if a == [] {
      assert a + b == b;
    } else {
      assert (a + b)[0] == a[0];
      assert (a + b)[1..] == a[1..] + b;
      CollectAppend(a[1..], b, parse);
    }
  }

  /** When every item parses, the result lists their values one for one, in order. */
  lemma {:induction false} CollectAllParse<C, P>(cs: seq<C>, parse: C -> Option<P>)
    ensures (forall i :: 0 <= i < |cs| ==> parse(cs[i]).Some?) ==>
      |Collect(cs, parse)| == |cs| && forall i :: 0 <= i < |cs| ==> Collect(cs, parse)[i] == parse(cs[i]).value
  {
    if cs != [] {
      assert forall i :: 1 <= i < |cs| ==> cs[i] == cs[1..][i - 1];
      CollectAllParse(cs[1..], parse);
    }
  }

  /** The records of all containers that parse, in container order; the
      others are skipped without ending the scan. */
  function Scan(cs: seq<Container>): (ps: seq<Product>)
    ensures |ps| <= |cs|
    ensures |ps| == |cs| <==> forall i :: 0 <= i < |cs| ==> ScanContainer(cs[i]).Some?
  {
    Collect(cs, ScanContainer)
  }

  /** A record is in the scan exactly when some container parses to it. */
  lemma ScanMembers(cs: seq<Container>)
    ensures forall p :: p in Scan(cs) <==> exists i :: 0 <= i < |cs| && ScanContainer(cs[i]) == Some(p)
  {
    CollectMembers(cs, ScanContainer);
  }

  /** Scanning keeps container order: a scan of two runs of containers is
      the scan of the first followed by the scan of the second. */
  lemma ScanAppend(a: seq<Container>, b: seq<Container>)
    ensures Scan(a + b) == Scan(a) + Scan(b)
  {
    CollectAppend(a, b, ScanContainer);
  }

  /** `getAllProducts`: wait for the page, pick the container list, scan it. */
  function GetAllProducts(page: CatalogPage): (r: Result<seq<Product>, Error>)
    ensures !page.ready <==> r == Failure(Timeout(PageReady))
    ensures r.Success? ==> r.value == Scan(ProductContainers(page))
  {
    if !page.ready then Failure(Timeout(PageReady)) else Success(Scan(ProductContainers(page)))
  }

  /** What a loaded page lists: a record exactly when some container of the
      chosen list parses to it, and, when every container parses, the k-th
      container's record in the k-th place. */
  lemma ListedRecords(page: CatalogPage)
    requires page.ready
    ensures var cs := ProductContainers(page); var ps := GetAllProducts(page);
      ps.Success?
      && (forall p :: p in ps.value <==> exists k :: 0 <= k < |cs| && ScanContainer(cs[k]) == Some(p))
      && ((forall k :: 0 <= k < |cs| ==> ScanContainer(cs[k]).Some?) ==>
            |ps.value| == |cs| && forall k :: 0 <= k < |cs| ==> ps.value[k] == ScanContainer(cs[k]).value)
  {
    var cs := ProductContainers(page);
    CollectMembers(cs, ScanContainer);
    CollectAllParse(cs, ScanContainer);
  }

  // ---------------------------------------------------------------- selection

  /** Case-insensitive keyword test on a product name. */
  predicate Matches(p: Product, keyword: string)
  {
    Contains(Lower(p.name), Lower(keyword))
  }

  /** Reference definition of the record the selection must return: a
      matching record no dearer than any other match and strictly cheaper
      than every earlier match. */
  predicate IsFirstCheapest(ps: seq<Product>, keyword: string, i: nat)
  {
    && i < |ps|
    && Matches(ps[i], keyword)
    && (forall j :: 0 <= j < |ps| && Matches(ps[j], keyword) ==> ps[i].price <= ps[j].price)
    && (forall j :: 0 <= j < i && Matches(ps[j], keyword) ==> ps[i].price < ps[j].price)
  }

  /** The `findLeastExpensiveProduct` loop after its first `n` iterations:
      a match replaces the current pick only when it is strictly cheaper. */
  function CheapestAmong(ps: seq<Product>, keyword: string, n: nat): (r: Option<nat>)
    requires n <= |ps|
    ensures r.None? <==> forall j :: 0 <= j < n ==> !Matches(ps[j], keyword)
    ensures r.Some? ==> IsFirstCheapest(ps[..n], keyword, r.value)
    decreases n
  {
    if n == 0 then None
    else
      var best := CheapestAmong(ps, keyword, n - 1);
      assert forall j :: 0 <= j < n - 1 ==> ps[..n][j] == ps[..n - 1][j];
      if Matches(ps[n - 1], keyword) && (best.None? || ps[n - 1].price < ps[best.value].price) then Some(n - 1)
      else best
  }

  function PickCheapest(ps: seq<Product>, keyword: string): Option<nat>
  {
    CheapestAmong(ps, keyword, |ps|)
  }

  /** Only one index can be the first cheapest match. */
  lemma FirstCheapestUnique(ps: seq<Product>, keyword: string, i: nat, k: nat)
    requires IsFirstCheapest(ps, keyword, i) && IsFirstCheapest(ps, keyword, k)
    ensures i == k
  {
  }

  /** The selection loop returns exactly the reference record: both directions. */
  lemma PickCheapestIsFirstCheapest(ps: seq<Product>, keyword: string)
    ensures PickCheapest(ps, keyword).None? <==> forall j :: 0 <= j < |ps| ==> !Matches(ps[j], keyword)
    ensures forall i: nat :: PickCheapest(ps, keyword) == Some(i) <==> IsFirstCheapest(ps, keyword, i)
  {
    assert ps[..|ps|] == ps;
    forall i: nat | IsFirstCheapest(ps, keyword, i)
      ensures PickCheapest(ps, keyword) == Some(i)
    {
      FirstCheapestUnique(ps, keyword, i, PickCheapest(ps, keyword).value);
    }
  }

  /** `findLeastExpensiveProduct`: a fresh scan, then the cheapest match or
      the category's not-found exception. */
  function FindLeastExpensive(page: CatalogPage, c: Category, keyword: string): (r: Result<Product, Error>)
    ensures !page.ready ==> r == Failure(Timeout(PageReady))
    ensures r.Success? ==> GetAllProducts(page).Success?
    ensures r.Success? ==> exists i: nat :: (IsFirstCheapest(GetAllProducts(page).value, keyword, i)
      && r.value == GetAllProducts(page).value[i])
    ensures r.Success? ==> Matches(r.value, keyword)
    ensures r.Success? ==> forall q :: q in GetAllProducts(page).value && Matches(q, keyword) ==> r.value.price <= q.price
    ensures r == Failure(NoProductFound(NotFoundMessage(c, keyword))) <==>
      page.ready && forall q :: q in GetAllProducts(page).value ==> !Matches(q, keyword)
    ensures r.Success? <==> page.ready && exists q :: q in GetAllProducts(page).value && Matches(q, keyword)
  {
    match GetAllProducts(page)
    case Failure(e) => Failure(e)
    case Success(ps) =>
      PickCheapestIsFirstCheapest(ps, keyword);
      match PickCheapest(ps, keyword)
      case None => Failure(NoProductFound(NotFoundMessage(c, keyword)))
      case Some(i) => Success(ps[i])
  }

  /** `addLeastExpensive*`: select, scroll the pick's Add button into view,
      click it. Nothing is clicked unless a pick was made. */
  function AddLeastExpensive(page: CatalogPage, c: Category, keyword: string): (r: Effect<Product>)
    ensures FindLeastExpensive(page, c, keyword).Failure? ==>
      r == Effect([], Failure(FindLeastExpensive(page, c, keyword).error))
    ensures r.result.Success? ==> Success(r.result.value) == FindLeastExpensive(page, c, keyword)
    ensures r.result.Success? ==>
      r.actions == [ScrollTo(r.result.value.addButton.id), ClickElement(r.result.value.addButton.id)]
    ensures FindLeastExpensive(page, c, keyword).Success? ==>
      (r.result.Success? <==> WaitClickable([FindLeastExpensive(page, c, keyword).value.addButton]).Some?)
    ensures forall i :: 0 <= i < |r.actions| && r.actions[i].ClickElement? ==> r.result.Success?
    ensures Click(CartButton) !in r.actions
  {
    match FindLeastExpensive(page, c, keyword)
    case Failure(e) => Effect([], Failure(e))
    case Success(p) =>
      var button := p.addButton;
      if WaitClickable([button]).Some? then Effect([ScrollTo(button.id), ClickElement(button.id)], Success(p))
      else Effect([ScrollTo(button.id)], Failure(Timeout(AddButton)))
  }

  /** `addRequired*`: the first keyword's pick, then the second's, each from
      its own scan; the second is not attempted when the first throws. */
  function AddRequired(page: CatalogPage, c: Category): (r: Effect<()>)
    ensures var first := AddLeastExpensive(page, c, RequiredKeywords(c).0);
      first.result.Failure? ==> r == Effect(first.actions, Failure(first.result.error))
    ensures var first := AddLeastExpensive(page, c, RequiredKeywords(c).0);
      var second := AddLeastExpensive(page, c, RequiredKeywords(c).1);
      first.result.Success? ==> r.actions == first.actions + second.actions && r.result.Success? == second.result.Success?
    ensures Click(CartButton) !in r.actions
  {
    var (k1, k2) := RequiredKeywords(c);
    var first := AddLeastExpensive(page, c, k1);
    match first.result
    case Failure(e) => Effect(first.actions, Failure(e))
    case Success(_) =>
      var second := AddLeastExpensive(page, c, k2);
      match second.result
      case Failure(e) => Effect(first.actions + second.actions, Failure(e))
      case Success(_) => Effect(first.actions + second.actions, Success(()))
  }

  /** A successful `addRequired*` clicks exactly two Add buttons: the cheapest
      match of the first keyword, then that of the second. */
  lemma AddRequiredClicksBothPicksInOrder(page: CatalogPage, c: Category)
    requires AddRequired(page, c).result.Success?
    ensures var p1 := FindLeastExpensive(page, c, RequiredKeywords(c).0);
      var p2 := FindLeastExpensive(page, c, RequiredKeywords(c).1);
      p1.Success? && p2.Success? &&
      AddRequired(page, c).actions == [ScrollTo(p1.value.addButton.id), ClickElement(p1.value.addButton.id),
                                       ScrollTo(p2.value.addButton.id), ClickElement(p2.value.addButton.id)]
  {
    var k := RequiredKeywords(c);
    TwoClicks(AddRequired(page, c), AddLeastExpensive(page, c, k.0), AddLeastExpensive(page, c, k.1),
              FindLeastExpensive(page, c, k.0), FindLeastExpensive(page, c, k.1));
  }

  /** Two successful add steps, each the scroll and click of its pick, run in sequence. */
  lemma TwoClicks(r: Effect<()>, first: Effect<Product>, second: Effect<Product>,
                  pick1: Result<Product, Error>, pick2: Result<Product, Error>)
    requires r.result.Success?
    requires first.result.Failure? ==> r.result.Failure?
    requires first.result.Success? ==> r.actions == first.actions + second.actions && r.result.Success? == second.result.Success?
    requires first.result.Success? ==>
      (Success(first.result.value) == pick1
       && first.actions == [ScrollTo(first.result.value.addButton.id), ClickElement(first.result.value.addButton.id)])
    requires second.result.Success? ==>
      (Success(second.result.value) == pick2
       && second.actions == [ScrollTo(second.result.value.addButton.id), ClickElement(second.result.value.addButton.id)])
    ensures pick1.Success? && pick2.Success?
    ensures r.actions == [ScrollTo(pick1.value.addButton.id), ClickElement(pick1.value.addButton.id),
                          ScrollTo(pick2.value.addButton.id), ClickElement(pick2.value.addButton.id)]
  {
  }

  /** When the second keyword has no match, the run of `addRequired*` stops
      with the not-found message after clicking only the first pick. */
  lemma SecondKeywordMissingStopsAfterFirstClick(page: CatalogPage, c: Category)
    requires AddLeastExpensive(page, c, RequiredKeywords(c).0).result.Success?
    requires GetAllProducts(page).Success?
    requires forall q :: q in GetAllProducts(page).value ==> !Matches(q, RequiredKeywords(c).1)
    ensures var p1 := AddLeastExpensive(page, c, RequiredKeywords(c).0).result.value;
      AddRequired(page, c) == Effect([ScrollTo(p1.addButton.id), ClickElement(p1.addButton.id)],
                                     Failure(NoProductFound(NotFoundMessage(c, RequiredKeywords(c).1))))
  {
  }

  // ---------------------------------------------------------------- cart badge

  /** `getCartCount`: the digits of the badge text as a number; no digits,
      no visible badge, or an unparsable number all read as 0. */
  function GetCartCount(page: CatalogPage): (n: nat)
    ensures !IsDisplayed(page.badge) ==> n == 0
    ensures IsDisplayed(page.badge) && Digits(page.badge[0].text) == [] ==> n == 0
    ensures n > 0 ==> IsDisplayed(page.badge) && n == DigitsValue(Digits(page.badge[0].text)) && n <= MaxInt32
    ensures IsDisplayed(page.badge) && Digits(page.badge[0].text) != [] ==>
      var v := DigitsValue(Digits(page.badge[0].text));
      (v <= MaxInt32 ==> n == v) && (v > MaxInt32 ==> n == 0)
  {
    match WaitVisible(page.badge)
    case None => 0
    case Some(badge) =>
      var digits := Digits(badge.text);
      if digits == [] then 0
      else match ParseInt(digits)
        case None => 0
        case Some(v) => v
  }

  /** `verifyCartCount`: the badge reads the expected count. A hidden badge
      verifies only 0; a positive count verifies only when the badge shows it. */
  function VerifyCartCount(page: CatalogPage, expected: int): (b: bool)
    ensures !IsDisplayed(page.badge) ==> (b <==> expected == 0)
    ensures b && expected > 0 ==> IsDisplayed(page.badge) && expected == DigitsValue(Digits(page.badge[0].text))
    ensures b ==> 0 <= expected <= MaxInt32
    ensures IsDisplayed(page.badge) && Digits(page.badge[0].text) != [] ==>
      var v := DigitsValue(Digits(page.badge[0].text));
      (v <= MaxInt32 ==> (b <==> expected == v)) && (v > MaxInt32 ==> (b <==> expected == 0))
  {
    GetCartCount(page) == expected
  }

  /** A badge reading `<prefix><n><suffix>` with digit-free prefix and
      suffix, such as "Cart - 2" or "2 item(s)", verifies exactly the count n. */
  lemma CartBadgeRoundTrip(page: CatalogPage, prefix: string, n: nat, suffix: string, expected: int)
    requires n <= MaxInt32
    requires IsDisplayed(page.badge)
    requires page.badge[0].text == prefix + NatToDigits(n) + suffix
    requires Digits(prefix) == [] && Digits(suffix) == []
    ensures GetCartCount(page) == n
    ensures VerifyCartCount(page, expected) <==> expected == n
  {
    DigitsFramed(prefix, NatToDigits(n), suffix);
    DigitsValueOfNatToDigits(n);
  }

  /** `isMoisturizersPageLoaded` / `isSunscreensPageLoaded`: the heading is
      shown. A missing heading reads as not loaded rather than throwing. */
  function IsCatalogLoaded(page: CatalogPage): (b: bool)
    ensures b <==> |page.heading| > 0 && page.heading[0].displayed
  {
    IsDisplayed(page.heading)
  }

  /** `clickCartButton`: click, then wait for the cart page to finish loading. */
  function ClickCartButton(page: CatalogPage, cartReady: bool): (r: Effect<()>)
    ensures r.result.Success? <==> WaitClickable(page.cartButton).Some? && cartReady
    ensures WaitClickable(page.cartButton).Some? ==> r.actions == [Click(CartButton)]
    ensures WaitClickable(page.cartButton).None? ==> r.actions == []
  {
    AndThen(ClickWhenReady(page.cartButton, CartButton),
            Effect([], if cartReady then Success(()) else Failure(Timeout(PageReady))))
  }
}
