/** The browser as the page objects see it, reduced to a snapshot. A locator
    resolves to the sequence of elements it matches, in document order; the
    explicit waits of the shared base page become checks on that snapshot;
    and everything the automation does to the page is recorded as an
    `Action` in a log. */
module Dom {
  import opened Wrappers
  import opened Text

  /** A located element: a stable identity (the handle a scan hands out),
      whether it is displayed and enabled, and its visible text. */
  datatype Elem = Elem(id: nat, displayed: bool, enabled: bool, text: string)

  /** The fixed locators the page objects declare. */
  datatype Locator =
    | PageReady                 // `document.readyState == "complete"`
    | TemperatureLabel
    | BuyMoisturizersButton
    | BuySunscreensButton
    | CatalogHeading
    | AddButton                 // a product's Add button, clicked through its handle
    | CartBadge
    | CartButton
    | CheckoutHeading
    | CartTable
    | CartRows
    | CartCell
    | CartTotal
    | PayWithCardLabel
    | EmailField(tier: nat)     // 0: id, 1: input type, 2: placeholder
    | CardNumberField
    | ExpiryField
    | CvcField
    | ZipField
    | SubmitTypeButton
    | SubmitIdButton
    | SuccessHeading

  /** What the automation does to the browser, in order. */
  datatype Action =
    | Navigate(url: string)
    | Click(target: Locator)
    | ClickElement(id: nat)
    | ScrollTo(id: nat)
    | Clear(target: Locator)
    | Key(target: Locator, c: char)         // one `sendKeys` call with one character
    | TypeText(target: Locator, s: string)  // one `sendKeys` call with a whole string
    | EnterFrame
    | LeaveFrame

  /** The exceptions that can end an operation. */
  datatype Error =
    | Timeout(target: Locator)             // an explicit wait gave up
    | NoSuchElement(target: Locator)       // an unwaited lookup found nothing
    | NumberFormat(text: string)           // `Integer.parseInt` rejected its argument
    | IllegalArgument                      // `String.repeat` with a negative count
    | TemperatureOutOfRange(temperature: int)
    | NoProductFound(message: string)
    | IndexOutOfBounds(index: int)
    | PayButtonNotFound
    | AssertionFailed(message: string)     // a failed TestNG assertion

  /** The actions an operation performed and how it ended. */
  datatype Effect<+T> = Effect(actions: seq<Action>, result: Result<T, Error>)

  /** Sequencing of two steps of one operation: the second runs only when the first returned. */
  function AndThen<T>(first: Effect<()>, second: Effect<T>): (r: Effect<T>)
    ensures first.result.Failure? ==> r == Effect(first.actions, Failure(first.result.error))
    ensures first.result.Success? ==> r == Effect(first.actions + second.actions, second.result)
  {
    match first.result
    case Failure(e) => Effect(first.actions, Failure(e))
    case Success(_) => Effect(first.actions + second.actions, second.result)
  }

  // ---------------------------------------------------------------- waits and lookups

  /** `isDisplayed(locator)`: the first match is displayed; no match is
      `false`, not an exception. */
  function IsDisplayed(ms: seq<Elem>): (b: bool)
    ensures |ms| == 0 ==> !b
    ensures b <==> |ms| > 0 && ms[0].displayed
  {
    |ms| > 0 && ms[0].displayed
  }

  /** `waitForElementVisible`: the first match once it is displayed, or a timeout. */
  function WaitVisible(ms: seq<Elem>): (r: Option<Elem>)
    ensures r.Some? <==> IsDisplayed(ms)
    ensures r.Some? ==> r.value == ms[0]
  {
    if IsDisplayed(ms) then Some(ms[0]) else None
  }

  /** `waitForElementClickable`: the first match once it is displayed and enabled. */
  function WaitClickable(ms: seq<Elem>): (r: Option<Elem>)
    ensures r.Some? <==> IsDisplayed(ms) && ms[0].enabled
    ensures r.Some? ==> r.value == ms[0]
  {
    if IsDisplayed(ms) && ms[0].enabled then Some(ms[0]) else None
  }

  /** `visibilityOfAllElementsLocatedBy`: the whole non-empty list once every
      member is shown; an empty list never satisfies the wait. */
  function WaitAll<T>(xs: seq<T>, shown: T -> bool): (r: Option<seq<T>>)
    ensures r.Some? <==> |xs| > 0 && forall i :: 0 <= i < |xs| ==> shown(xs[i])
    ensures r.Some? ==> r.value == xs
  {
    if |xs| > 0 && forall i :: 0 <= i < |xs| ==> shown(xs[i]) then Some(xs) else None
  }

  /** `click(By)`: wait until the first match is clickable, then click it. */
  function ClickWhenReady(ms: seq<Elem>, target: Locator): (r: Effect<()>)
    ensures r.result.Success? <==> WaitClickable(ms).Some?
    ensures r.result.Success? ==> r.actions == [Click(target)]
    ensures r.result.Failure? ==> r.actions == [] && r.result.error == Timeout(target)
  {
    if WaitClickable(ms).Some? then Effect([Click(target)], Success(()))
    else Effect([], Failure(Timeout(target)))
  }

  /** An ordered cascade: the first position whose candidate passes `works`.
      Every locator fallback in the page objects is one of these. */
  function FirstIndex<T>(xs: seq<T>, works: T -> bool): (r: Option<nat>)
    ensures r.Some? ==> r.value < |xs| && works(xs[r.value])
    ensures r.Some? ==> forall j :: 0 <= j < r.value ==> !works(xs[j])
    ensures r.None? <==> forall j :: 0 <= j < |xs| ==> !works(xs[j])
  {
    if xs == [] then None
    else if works(xs[0]) then Some(0)
    else match FirstIndex(xs[1..], works)
      case Some(k) => Some(k + 1)
      case None => None
  }

  // ---------------------------------------------------------------- keystrokes

  /** One `sendKeys` call per character of `s`, in order. */
  function TypeKeys(target: Locator, s: string): (r: seq<Action>)
    ensures |r| == |s|
    ensures forall i :: 0 <= i < |s| ==> r[i] == Key(target, s[i])
  {
    if s == [] then [] else [Key(target, s[0])] + TypeKeys(target, s[1..])
  }

  /** The characters sent to `target` one keystroke at a time, in order. */
  function KeysSent(log: seq<Action>, target: Locator): string
  {
    if log == [] then []
    else (if log[0].Key? && log[0].target == target then [log[0].c] else []) + KeysSent(log[1..], target)
  }

  lemma {:induction false} KeysSentAppend(a: seq<Action>, b: seq<Action>, target: Locator)
    ensures KeysSent(a + b, target) == KeysSent(a, target) + KeysSent(b, target)
  {
    if a == [] {
      assert a + b == b;
    } else {
      assert (a + b)[0] == a[0];
      assert (a + b)[1..] == a[1..] + b;
      KeysSentAppend(a[1..], b, target);
    }
  }

  /** Per-character typing delivers exactly the typed string to its field. */
  lemma {:induction false} KeysSentOfTypeKeys(target: Locator, s: string)
    ensures KeysSent(TypeKeys(target, s), target) == s
  {
    if s != [] {
      assert TypeKeys(target, s)[1..] == TypeKeys(target, s[1..]);
      KeysSentOfTypeKeys(target, s[1..]);
    }
  }

  /** Keystrokes aimed at one field never show up as keystrokes of another. */
  lemma {:induction false} KeysSentOfOtherField(target: Locator, other: Locator, s: string)
    requires other != target
    ensures KeysSent(TypeKeys(target, s), other) == []
  {
    if s != [] {
      assert TypeKeys(target, s)[1..] == TypeKeys(target, s[1..]);
      KeysSentOfOtherField(target, other, s[1..]);
    }
  }

  /** A log without keystrokes sends no characters anywhere. */
  lemma {:induction false} KeysSentWithoutKeys(log: seq<Action>, target: Locator)
    requires forall i :: 0 <= i < |log| ==> !log[i].Key?
    ensures KeysSent(log, target) == []
  {
    if log != [] {
      KeysSentWithoutKeys(log[1..], target);
    }
  }
}
